/** The exceptions `DepmapGeneData.get_depmap_gene_data` and `find_gene_hits` can raise,
    as values. */
module Failures {
  datatype Failure =
    | GenesNotSubscriptable        // `genes` is None, so `genes[:n]` raises TypeError
    | NoWorkers                    // ThreadPoolExecutor rejects max_workers <= 0 with ValueError
    | FetchFailed(gene: string)    // the correlation fetch for `gene` raised
    | MissingColumn(name: string)  // `df[name]` raises KeyError
}
