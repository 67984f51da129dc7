/** `DepmapGeneData.get_depmap_gene_data`: truncating the screen, `process_gene`, and the
    insertion-ordered result dictionary filled in as the per-gene tasks complete. */
module Resolver {
  import opened Wrappers
  import opened SeqUtil
  import opened GeneHits
  import opened Failures

  /** What the memoised fetch of one gene's correlation table yields: a parsed table,
      None (which the caller handles although the real fetch never returns it), or a
      raised exception. The fetch is modelled as a function of the gene: every task for
      one gene sees the same outcome. The cache does not guarantee this, since it stores
      no raised exception and evicts entries. */
  datatype FetchResult = Fetched(frame: Frame) | NoData | Raised

  /** The per-gene record `{'gene': ..., 'coessentiality_genes': [...]}`. */
  datatype GeneResult = GeneResult(gene: Gene, coessentialityGenes: seq<Gene>)

  /** A snapshot of the ordered dictionary: its keys in insertion order and its values
      (None until a task's record is stored). */
  datatype ResultSet = ResultSet(keys: seq<Gene>, entries: map<Gene, Option<GeneResult>>)

  function Min(a: int, b: int): int { if a <= b then a else b }
  function Max(a: int, b: int): int { if a <= b then b else a }

  /** The stop index Python uses for `s[:stop]` on a sequence of length `len`: a negative
      stop counts from the end, and the result is clamped to `0..len`. */
  function SliceStop(len: nat, stop: int): (r: nat)
    ensures r <= len
  {
    if stop < 0 then Max(0, len + stop) else Min(len, stop)
  }

  /** `genes[:num_genes_to_process]`: a prefix of the screen, order kept. */
  function WorkingSet(genes: seq<Gene>, numGenesToProcess: int): (g: seq<Gene>)
    ensures |g| <= |genes| && g == genes[..|g|]
    ensures numGenesToProcess >= 0 ==> |g| == Min(|genes|, numGenesToProcess)
    ensures numGenesToProcess < 0 ==> |g| == Max(0, |genes| + numGenesToProcess)
  {
    genes[..SliceStop(|genes|, numGenesToProcess)]
  }

  /** `genes[:index] + genes[index+1:]`: the working set with exactly position `i` removed. */
  function Remaining(g: seq<Gene>, i: nat): (r: seq<Gene>)
    requires i < |g|
    ensures |r| == |g| - 1
    ensures forall k :: 0 <= k < |r| ==> r[k] == g[if k < i then k else k + 1]
  {
    g[..i] + g[i + 1..]
  }

  /** A gene is among the others of position `i` exactly when it stands at another position. */
  lemma RemainingMembers(g: seq<Gene>, i: nat, x: Gene)
    requires i < |g|
    ensures x in Remaining(g, i) <==> exists j :: 0 <= j < |g| && j != i && g[j] == x
  {
    var r := Remaining(g, i);
    if x in r {
      var k :| 0 <= k < |r| && r[k] == x;
      if k < i { assert g[k] == x; } else { assert g[k + 1] == x; }
    }
    if exists j :: 0 <= j < |g| && j != i && g[j] == x {
      var j :| 0 <= j < |g| && j != i && g[j] == x;
      if j < i { assert r[j] == x; } else { assert r[j - 1] == x; }
    }
  }

  /** Two positions holding the same gene have the same other genes, as a set. */
  lemma RemainingAgreeOnDuplicates(g: seq<Gene>, i: nat, j: nat)
    requires i < |g| && j < |g| && g[i] == g[j]
    ensures forall x :: x in Remaining(g, i) <==> x in Remaining(g, j)
  {
    forall x ensures x in Remaining(g, i) <==> x in Remaining(g, j) {
      RemainingMembers(g, i, x);
      RemainingMembers(g, j, x);
    }
  }

  /** `process_gene(gene, index)` for `gene = g[i]`: the record of one task, or the
      exception that `future.result()` re-raises. */
  function ProcessGene(g: seq<Gene>, i: nat, threshold: Option<real>, fetch: Gene -> FetchResult)
    : (r: Result<GeneResult, Failure>)
    requires i < |g|
    ensures r.Ok? ==> r.value.gene == g[i]
    ensures fetch(g[i]).Raised? ==> r == Err(FetchFailed(g[i]))
    ensures fetch(g[i]).NoData? ==> r == Ok(GeneResult(g[i], []))
    ensures fetch(g[i]).Fetched? ==>
      var frame := fetch(g[i]).frame;
      r.Ok? <==> frame.hasGeneColumn && (threshold.Some? ==> frame.hasCorrelationColumn)
  {
    var gene := g[i];
    match fetch(gene)
    case Raised => Err(FetchFailed(gene))
    case NoData => Ok(GeneResult(gene, []))
    case Fetched(frame) =>
      match FindGeneHits(gene, frame, Remaining(g, i), threshold)
      case Err(e) => Err(e)
      case Ok(hits) => Ok(GeneResult(gene, hits))
  }

  /** A fetched table yields as hits the genes of its rows that name another gene of the
      working set (and beat the threshold, if any), in the table's row order. */
  lemma ProcessGeneHits(g: seq<Gene>, i: nat, threshold: Option<real>, fetch: Gene -> FetchResult)
    requires i < |g| && fetch(g[i]).Fetched? && ProcessGene(g, i, threshold, fetch).Ok?
    ensures ProcessGene(g, i, threshold, fetch).value.coessentialityGenes
      == Kept(fetch(g[i]).frame.rows, Remaining(g, i), threshold)
  {
  }

  /** Two tasks for the same gene produce the same outcome, whichever position they came from. */
  lemma ProcessGeneAgreesOnDuplicates(g: seq<Gene>, i: nat, j: nat, threshold: Option<real>,
                                      fetch: Gene -> FetchResult)
    requires i < |g| && j < |g| && g[i] == g[j]
    ensures ProcessGene(g, i, threshold, fetch) == ProcessGene(g, j, threshold, fetch)
  {
    if fetch(g[i]).Fetched? {
      RemainingAgreeOnDuplicates(g, i, j);
      KeptDependsOnMembersOnly(fetch(g[i]).frame.rows, Remaining(g, i), Remaining(g, j), threshold);
    }
  }

  /** With no gene repeated, a gene never appears among its own hits, and every hit is
      another gene of the working set. */
  lemma NoSelfHit(g: seq<Gene>, i: nat, threshold: Option<real>, fetch: Gene -> FetchResult)
    requires i < |g| && NoDup(g)
    requires ProcessGene(g, i, threshold, fetch).Ok?
    ensures g[i] !in ProcessGene(g, i, threshold, fetch).value.coessentialityGenes
    ensures forall x :: x in ProcessGene(g, i, threshold, fetch).value.coessentialityGenes ==>
      exists j :: 0 <= j < |g| && j != i && g[j] == x
  {
    if fetch(g[i]).Fetched? {
      var rows := fetch(g[i]).frame.rows;
      var hits := ProcessGene(g, i, threshold, fetch).value.coessentialityGenes;
      assert hits == Kept(rows, Remaining(g, i), threshold);
      forall x | x in hits ensures x in Remaining(g, i) {
        KeptMembership(rows, Remaining(g, i), threshold, x);
      }
      forall x | x in hits ensures exists j :: 0 <= j < |g| && j != i && g[j] == x {
        RemainingMembers(g, i, x);
      }
      RemainingMembers(g, i, g[i]);
    }
  }

  /** With a repeated gene the other copy is among the others, so a gene whose table lists
      itself is reported as its own hit. */
  lemma SelfHitWithDuplicates()
    ensures var fetch := (gene: Gene) => Fetched(Frame(true, true, [Row("A", 1.0)]));
      ProcessGene(["A", "A"], 0, None, fetch) == Ok(GeneResult("A", ["A"]))
  {
    var rows := [Row("A", 1.0)];
    assert Remaining(["A", "A"], 0) == ["A"];
    assert rows[1..] == [];
    assert Kept(rows, ["A"], None) == ["A"];
  }

  /** Every task of the working set succeeds. */
  ghost predicate AllSucceed(g: seq<Gene>, threshold: Option<real>, fetch: Gene -> FetchResult)
  {
    forall i :: 0 <= i < |g| ==> ProcessGene(g, i, threshold, fetch).Ok?
  }

  /** A raising fetch is not recovered per gene: one failing gene fails the whole call. */
  lemma FetchFailureIsFatal(g: seq<Gene>, i: nat, threshold: Option<real>, fetch: Gene -> FetchResult)
    requires i < |g| && fetch(g[i]).Raised?
    ensures !AllSucceed(g, threshold, fetch)
  {
    assert ProcessGene(g, i, threshold, fetch).Err?;
  }

  /** What the call returns when every task succeeds: one key per distinct gene of the
      working set in first-occurrence order, and under each gene the record of its task
      (of any of its tasks, as they agree). */
  ghost predicate IsExpected(g: seq<Gene>, threshold: Option<real>, fetch: Gene -> FetchResult, rs: ResultSet)
  {
    && rs.keys == Dedup(g)
    && (forall x :: x in rs.entries <==> x in rs.keys)
    && forall i :: 0 <= i < |g| ==>
         && ProcessGene(g, i, threshold, fetch).Ok?
         && g[i] in rs.entries
         && rs.entries[g[i]] == Some(ProcessGene(g, i, threshold, fetch).value)
  }

  /** The expected dictionary is unique, so the result cannot depend on the order in which
      the tasks complete. */
  lemma ExpectedIsUnique(g: seq<Gene>, threshold: Option<real>, fetch: Gene -> FetchResult,
                         rs1: ResultSet, rs2: ResultSet)
    requires IsExpected(g, threshold, fetch, rs1) && IsExpected(g, threshold, fetch, rs2)
    ensures rs1 == rs2
  {
    forall x | x in rs1.entries ensures x in rs2.entries && rs1.entries[x] == rs2.entries[x] {
      var k :| 0 <= k < |rs1.keys| && rs1.keys[k] == x;
      assert x in g;
      var i :| 0 <= i < |g| && g[i] == x;
    }
    assert rs1.entries.Keys == rs2.entries.Keys;
  }

  /** Every key of the expected dictionary holds a record, and the record names its key. */
  lemma ExpectedRecordsNameTheirKey(g: seq<Gene>, threshold: Option<real>, fetch: Gene -> FetchResult,
                                    rs: ResultSet)
    requires IsExpected(g, threshold, fetch, rs)
    ensures forall x :: x in rs.entries ==> rs.entries[x].Some? && rs.entries[x].value.gene == x
  {
    forall x | x in rs.entries ensures rs.entries[x].Some? && rs.entries[x].value.gene == x {
      var k :| 0 <= k < |rs.keys| && rs.keys[k] == x;
      assert x in g;
      var i :| 0 <= i < |g| && g[i] == x;
    }
  }

  /** The rows handed to the CSV writer, `list(output.values())`, in key order. */
  function Rows(rs: ResultSet): seq<Option<GeneResult>>
    requires forall x :: x in rs.keys ==> x in rs.entries
  {
    seq(|rs.keys|, j requires 0 <= j < |rs.keys| => rs.entries[rs.keys[j]])
  }

  /** The written rows follow the screen's order: row `j` is the record of the `j`-th
      distinct gene, and the rows are ordered by first occurrence in the working set. */
  lemma RowsFollowScreenOrder(g: seq<Gene>, threshold: Option<real>, fetch: Gene -> FetchResult,
                              rs: ResultSet)
    requires IsExpected(g, threshold, fetch, rs)
    ensures forall x :: x in rs.keys ==> x in rs.entries
    ensures |Rows(rs)| == |Dedup(g)|
    ensures forall j :: 0 <= j < |Rows(rs)| ==> Rows(rs)[j].Some? && Rows(rs)[j].value.gene == Dedup(g)[j]
    ensures forall a, b :: 0 <= a < b < |Rows(rs)| ==>
      FirstIndex(g, Rows(rs)[a].value.gene) < FirstIndex(g, Rows(rs)[b].value.gene)
  {
    var d := Dedup(g);
    ExpectedRecordsNameTheirKey(g, threshold, fetch, rs);
    var rows := Rows(rs);
    forall j | 0 <= j < |rows| ensures rows[j].Some? && rows[j].value.gene == d[j] {
      assert rows[j] == rs.entries[d[j]];
    }
    DedupFirstOccurrenceOrder(g);
  }

  /** With no repeated gene there is exactly one written row per working-set gene, in the
      same order, each the record of that gene's task. */
  lemma RowsOfDistinctScreen(g: seq<Gene>, threshold: Option<real>, fetch: Gene -> FetchResult,
                             rs: ResultSet)
    requires IsExpected(g, threshold, fetch, rs) && NoDup(g)
    ensures forall x :: x in rs.keys ==> x in rs.entries
    ensures |Rows(rs)| == |g|
    ensures forall j :: 0 <= j < |g| ==> Rows(rs)[j] == Some(ProcessGene(g, j, threshold, fetch).value)
  {
    DedupOfNoDup(g);
    var rows := Rows(rs);
    forall j | 0 <= j < |g| ensures rows[j] == Some(ProcessGene(g, j, threshold, fetch).value) {
      assert rows[j] == rs.entries[g[j]];
    }
  }

  /** For one gene and one working set, a stricter threshold keeps a subsequence of the hits. */
  lemma ProcessGeneThresholdMonotone(g: seq<Gene>, i: nat, t1: Option<real>, t2: Option<real>,
                                     fetch: Gene -> FetchResult)
    requires i < |g| && Looser(t1, t2)
    requires ProcessGene(g, i, t1, fetch).Ok? && ProcessGene(g, i, t2, fetch).Ok?
    ensures Subseq(ProcessGene(g, i, t2, fetch).value.coessentialityGenes,
                   ProcessGene(g, i, t1, fetch).value.coessentialityGenes)
  {
    if fetch(g[i]).Fetched? {
      var others := Remaining(g, i);
      KeptMonotone(fetch(g[i]).frame.rows, others, others, t1, t2);
    }
  }

  /** With no repeated gene in the working set (repeats past the cut do not matter) the
      dictionary has one entry per working-set gene: for a
      non-negative limit, `min(len(genes), num_genes_to_process)` of them. */
  lemma ResultSetSize(genes: seq<Gene>, numGenesToProcess: int, threshold: Option<real>,
                      fetch: Gene -> FetchResult, rs: ResultSet)
    requires numGenesToProcess >= 0 && NoDup(WorkingSet(genes, numGenesToProcess))
    requires IsExpected(WorkingSet(genes, numGenesToProcess), threshold, fetch, rs)
    ensures |rs.keys| == Min(|genes|, numGenesToProcess)
  {
    DedupOfNoDup(WorkingSet(genes, numGenesToProcess));
  }

  // The example lemmas below take the screen A, B, C as a parameter `g` fixed by their
  // requires, instead of writing the literal in their ensures: the verifier then reasons
  // about `g` through that one equation rather than unfolding the literal at every use.

  /** A worked example's fetch: A's table is (B, 0.9), (C, 0.2), (X, 0.95),
      B's table is (A, 0.9), and every other gene has no table. */
  function ExampleFetch(gene: Gene): FetchResult
  {
    if gene == "A" then Fetched(Frame(true, true, [Row("B", 0.9), Row("C", 0.2), Row("X", 0.95)]))
    else if gene == "B" then Fetched(Frame(true, true, [Row("A", 0.9)]))
    else NoData
  }

  /** Task A of the worked example (screen A, B, C, threshold 0.5): only B beats 0.5
      among the other screen genes. */
  lemma ExampleTaskA(g: seq<Gene>)
    requires g == ["A", "B", "C"]
    ensures ProcessGene(g, 0, Some(0.5), ExampleFetch) == Ok(GeneResult("A", ["B"]))
  {
    assert Remaining(g, 0) == ["B", "C"];
    ExampleTableOfA();
  }

  /** Task B of the worked example: its one row names A. */
  lemma ExampleTaskB(g: seq<Gene>)
    requires g == ["A", "B", "C"]
    ensures ProcessGene(g, 1, Some(0.5), ExampleFetch) == Ok(GeneResult("B", ["A"]))
  {
    assert "B"[0] != "A"[0];
    assert Remaining(g, 1) == ["A", "C"];
    var rows := [Row("A", 0.9)];
    assert rows[1..] == [];
    assert Kept(rows, ["A", "C"], Some(0.5)) == ["A"];
  }

  /** Task C of the worked example: no table, so no hits. */
  lemma ExampleTaskC(g: seq<Gene>)
    requires g == ["A", "B", "C"]
    ensures ProcessGene(g, 2, Some(0.5), ExampleFetch) == Ok(GeneResult("C", []))
  {
    assert "C"[0] != "A"[0] && "C"[0] != "B"[0];
    assert ExampleFetch("C") == NoData;
  }

  /** Every task of the worked example succeeds. */
  lemma ExampleSucceeds(g: seq<Gene>)
    requires g == ["A", "B", "C"]
    ensures AllSucceed(g, Some(0.5), ExampleFetch)
  {
    forall i | 0 <= i < |g| ensures ProcessGene(g, i, Some(0.5), ExampleFetch).Ok? {
      if i == 0 {
        ExampleTaskA(g);
      } else if i == 1 {
        ExampleTaskB(g);
      } else {
        ExampleTaskC(g);
      }
    }
  }

  /** The worked example screen has no repeated gene. */
  lemma ExampleScreenIsDistinct(g: seq<Gene>)
    requires g == ["A", "B", "C"]
    ensures NoDup(g)
  {
    assert "A"[0] != "B"[0] && "A"[0] != "C"[0] && "B"[0] != "C"[0];
  }

  /** The worked example end to end: the written rows are A: [B], B: [A], C: [], in
      screen order. */
  lemma ExampleScreen(g: seq<Gene>, rs: ResultSet)
    requires g == ["A", "B", "C"] && IsExpected(g, Some(0.5), ExampleFetch, rs)
    ensures forall x :: x in rs.keys ==> x in rs.entries
    ensures |Rows(rs)| == 3
    ensures Rows(rs)[0] == Some(GeneResult("A", ["B"]))
    ensures Rows(rs)[1] == Some(GeneResult("B", ["A"]))
    ensures Rows(rs)[2] == Some(GeneResult("C", []))
  {
    ExampleScreenIsDistinct(g);
    RowsOfDistinctScreen(g, Some(0.5), ExampleFetch, rs);
    ExampleTaskA(g);
    ExampleTaskB(g);
    ExampleTaskC(g);
  }

  /** An insertion-ordered dictionary from gene to optional record (`collections.OrderedDict`). */
  class OrderedDict {
    var keys: seq<Gene>
    var entries: map<Gene, Option<GeneResult>>

    ghost predicate Valid()
      reads this
    {
      NoDup(keys) && forall x :: x in entries <==> x in keys
    }

    /** `OrderedDict((gene, None) for gene in genes)`: every key maps to None, and a
        repeated gene keeps the position of its first insertion. */
    constructor FromKeys(genes: seq<Gene>)
      ensures Valid()
      ensures keys == Dedup(genes)
      ensures forall x :: x in entries ==> entries[x] == None
    {
      keys := [];
      entries := map[];
      new;
      var j := 0;
      while j < |genes|
        invariant 0 <= j <= |genes|
        invariant Valid() && keys == Dedup(genes[..j])
        invariant forall x :: x in entries ==> entries[x] == None
      {
        assert genes[..j + 1][..j] == genes[..j];
        Set(genes[j], None);
        j := j + 1;
      }
      assert genes[..j] == genes;
    }

    /** `d[key] = value`: overwrites the value of an existing key in place, or appends a
        new key at the end. */
    method Set(key: Gene, value: Option<GeneResult>)
      requires Valid()
      modifies this
      ensures Valid()
      ensures keys == if key in old(keys) then old(keys) else old(keys) + [key]
      ensures entries == old(entries)[key := value]
    {
      if key !in entries {
        keys := keys + [key];
      }
      entries := entries[key := value];
    }
  }

  /** `completion` lists each of the indices `0..n` once: the order in which `as_completed`
      hands back the futures. */
  ghost predicate IsCompletionOrder(completion: seq<nat>, n: nat)
  {
    && |completion| == n
    && (forall k :: 0 <= k < |completion| ==> completion[k] < n)
    && (forall i :: 0 <= i < n ==> i in completion)
  }

  /** The `k`-th completed task is the first in completion order to fail, with `e`. */
  ghost predicate FirstFailure(g: seq<Gene>, threshold: Option<real>, fetch: Gene -> FetchResult,
                               completion: seq<nat>, k: nat, e: Failure)
    requires forall j :: 0 <= j < |completion| ==> completion[j] < |g|
    requires k < |completion|
  {
    && ProcessGene(g, completion[k], threshold, fetch) == Err(e)
    && forall j :: 0 <= j < k ==> ProcessGene(g, completion[j], threshold, fetch).Ok?
  }

  /** When every task in the completion order succeeded and stored its record, the
      dictionary is the expected one. */
  lemma CollectedIsExpected(g: seq<Gene>, threshold: Option<real>, fetch: Gene -> FetchResult,
                            completion: seq<nat>, keys: seq<Gene>, entries: map<Gene, Option<GeneResult>>)
    requires IsCompletionOrder(completion, |g|)
    requires keys == Dedup(g) && forall x :: x in entries <==> x in keys
    requires Stored(g, threshold, fetch, completion, |completion|, entries)
    ensures IsExpected(g, threshold, fetch, ResultSet(keys, entries))
  {
    forall i | 0 <= i < |g|
      ensures ProcessGene(g, i, threshold, fetch).Ok?
      ensures g[i] in entries && entries[g[i]] == Some(ProcessGene(g, i, threshold, fetch).value)
    {
      assert i in completion;
      var j :| 0 <= j < |completion| && completion[j] == i;
    }
  }

  /** The first `k` tasks in completion order succeeded and their records are stored
      under their genes. */
  ghost predicate Stored(g: seq<Gene>, threshold: Option<real>, fetch: Gene -> FetchResult,
                         completion: seq<nat>, k: nat, entries: map<Gene, Option<GeneResult>>)
    requires forall j :: 0 <= j < |completion| ==> completion[j] < |g|
    requires k <= |completion|
  {
    forall j :: 0 <= j < k ==>
      && ProcessGene(g, completion[j], threshold, fetch).Ok?
      && g[completion[j]] in entries
      && entries[g[completion[j]]] == Some(ProcessGene(g, completion[j], threshold, fetch).value)
  }

  /** Storing the record of the next successful task keeps the earlier records: a repeated
      gene overwrites its value with an equal one. */
  lemma StoreNext(g: seq<Gene>, threshold: Option<real>, fetch: Gene -> FetchResult,
                  completion: seq<nat>, k: nat, entries: map<Gene, Option<GeneResult>>)
    requires forall j :: 0 <= j < |completion| ==> completion[j] < |g|
    requires k < |completion| && ProcessGene(g, completion[k], threshold, fetch).Ok?
    requires Stored(g, threshold, fetch, completion, k, entries)
    ensures Stored(g, threshold, fetch, completion, k + 1,
      entries[g[completion[k]] := Some(ProcessGene(g, completion[k], threshold, fetch).value)])
  {
    var i := completion[k];
    forall j | 0 <= j < k && g[completion[j]] == g[i] {
      ProcessGeneAgreesOnDuplicates(g, completion[j], i, threshold, fetch);
    }
  }

  /** The `for future in as_completed(...)` loop: takes the tasks' outcomes in completion
      order, stores each record under its gene, and stops at the first task that raised. */
  method CollectResults(g: seq<Gene>, threshold: Option<real>, fetch: Gene -> FetchResult,
                        completion: seq<nat>, output: OrderedDict)
    returns (failure: Option<Failure>)
    requires forall j :: 0 <= j < |completion| ==> completion[j] < |g|
    requires output.Valid() && output.keys == Dedup(g)
    modifies output
    ensures output.Valid() && output.keys == Dedup(g)
    ensures failure.Some? ==>
      exists k :: 0 <= k < |completion| && FirstFailure(g, threshold, fetch, completion, k, failure.value)
    ensures failure.None? ==> Stored(g, threshold, fetch, completion, |completion|, output.entries)
  {
    var k := 0;
    while k < |completion|
      invariant 0 <= k <= |completion|
      invariant output.Valid() && output.keys == Dedup(g)
      invariant Stored(g, threshold, fetch, completion, k, output.entries)
    {
      var res := ProcessGene(g, completion[k], threshold, fetch);
      if res.Err? {
        assert FirstFailure(g, threshold, fetch, completion, k, res.error);
        return Some(res.error);
      }
      StoreNext(g, threshold, fetch, completion, k, output.entries);
      output.Set(res.value.gene, Some(res.value));
      k := k + 1;
    }
    return None;
  }

  /** `get_depmap_gene_data(genes, num_genes_to_process, threshold, num_workers)` up to the
      point where the dictionary is written out. The tasks' results are collected in the
      arbitrary order `completion`; the first failed task aborts the call. Otherwise the
      result is the expected dictionary, which does not depend on the completion order. */
  method GetDepmapGeneData(genes: Option<seq<Gene>>, numGenesToProcess: int, threshold: Option<real>,
                           numWorkers: int, fetch: Gene -> FetchResult, completion: seq<nat>)
    returns (r: Result<ResultSet, Failure>)
    requires genes.Some? ==> IsCompletionOrder(completion, |WorkingSet(genes.value, numGenesToProcess)|)
    ensures genes.None? ==> r == Err(GenesNotSubscriptable)
    ensures genes.Some? && numWorkers <= 0 ==> r == Err(NoWorkers)
    ensures genes.Some? && numWorkers > 0 ==>
      var g := WorkingSet(genes.value, numGenesToProcess);
      && (r.Ok? <==> AllSucceed(g, threshold, fetch))
      && (r.Ok? ==> IsExpected(g, threshold, fetch, r.value))
      && (r.Err? ==> exists k :: 0 <= k < |completion| && FirstFailure(g, threshold, fetch, completion, k, r.error))
  {
    if genes.None? {
      return Err(GenesNotSubscriptable);
    }
    var g := WorkingSet(genes.value, numGenesToProcess);
    var output := new OrderedDict.FromKeys(g);
    if Min(1, numWorkers) <= 0 {
      return Err(NoWorkers);
    }
    var failure := CollectResults(g, threshold, fetch, completion, output);
    if failure.Some? {
      return Err(failure.value);
    }
    CollectedIsExpected(g, threshold, fetch, completion, output.keys, output.entries);
    r := Ok(ResultSet(output.keys, output.entries));
  }
}
