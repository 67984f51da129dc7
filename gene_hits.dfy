/** `DepmapGeneData.find_gene_hits`: one gene's correlation table, filtered down to the
    rows naming another gene of the screen (and, when a threshold is given, correlating
    more strongly than it). */
module GeneHits {
  import opened Wrappers
  import opened SeqUtil
  import opened Failures

  type Gene = string

  /** One row of a DepMap correlation table: a correlated gene and its score.
      Scores are only compared, so they are modelled as reals. */
  datatype Row = Row(gene: Gene, correlation: real)

  /** A parsed correlation table. The pandas frame is indexed by column name; a body that
      did not parse into the expected header lacks one of the two columns. */
  datatype Frame = Frame(hasGeneColumn: bool, hasCorrelationColumn: bool, rows: seq<Row>)

  const GeneColumnName: string := "Gene"
  const CorrelationColumnName: string := "Correlation"

  /** `df['Gene']` */
  function GeneColumn(rows: seq<Row>): seq<Gene>
  {
    seq(|rows|, k requires 0 <= k < |rows| => rows[k].gene)
  }

  /** `df['Correlation']` */
  function CorrelationColumn(rows: seq<Row>): seq<real>
  {
    seq(|rows|, k requires 0 <= k < |rows| => rows[k].correlation)
  }

  /** `Series.isin(values)` */
  function IsIn(column: seq<Gene>, values: seq<Gene>): seq<bool>
  {
    seq(|column|, k requires 0 <= k < |column| => column[k] in values)
  }

  /** `Series > threshold` */
  function GreaterThan(column: seq<real>, threshold: real): seq<bool>
  {
    seq(|column|, k requires 0 <= k < |column| => column[k] > threshold)
  }

  /** Element-wise `&` of two boolean masks. */
  function And(m1: seq<bool>, m2: seq<bool>): seq<bool>
    requires |m1| == |m2|
  {
    seq(|m1|, k requires 0 <= k < |m1| => m1[k] && m2[k])
  }

  /** `column.loc[mask]`: the entries whose mask bit is set, in column order. */
  function Loc<T>(column: seq<T>, mask: seq<bool>): seq<T>
    requires |column| == |mask|
  {
    if column == [] then []
    else (if mask[0] then [column[0]] else []) + Loc(column[1..], mask[1..])
  }

  /** The mask built by find_gene_hits: membership, and-ed with the threshold test when
      a threshold is present. */
  function Mask(rows: seq<Row>, genesList: seq<Gene>, threshold: Option<real>): seq<bool>
  {
    var geneMask := IsIn(GeneColumn(rows), genesList);
    if threshold.None? then geneMask
    else And(geneMask, GreaterThan(CorrelationColumn(rows), threshold.value))
  }

  /** Row-level reading of the filter: the row names a listed gene and, if a threshold
      is given, its correlation is strictly greater. */
  predicate Passes(row: Row, genesList: seq<Gene>, threshold: Option<real>)
  {
    row.gene in genesList && (threshold.None? || row.correlation > threshold.value)
  }

  /** Reference definition of the hit list: the genes of the passing rows, row by row. */
  function Kept(rows: seq<Row>, genesList: seq<Gene>, threshold: Option<real>): (hits: seq<Gene>)
    ensures |hits| <= |rows|
  {
    if rows == [] then []
    else (if Passes(rows[0], genesList, threshold) then [rows[0].gene] else [])
         + Kept(rows[1..], genesList, threshold)
  }

  /** `find_gene_hits(curr_gene, df, genes_list, threshold)`. `currGene` is accepted and
      ignored, as in the source. Fails exactly when a column it indexes is absent, and
      otherwise returns the reference hit list. */
  function FindGeneHits(currGene: Gene, frame: Frame, genesList: seq<Gene>, threshold: Option<real>)
    : (r: Result<seq<Gene>, Failure>)
    ensures r.Ok? <==> frame.hasGeneColumn && (threshold.Some? ==> frame.hasCorrelationColumn)
    ensures !frame.hasGeneColumn ==> r == Err(MissingColumn(GeneColumnName))
    ensures frame.hasGeneColumn && r.Err? ==> r == Err(MissingColumn(CorrelationColumnName))
    ensures r.Ok? ==> r.value == Kept(frame.rows, genesList, threshold)
  {
    if !frame.hasGeneColumn then Err(MissingColumn(GeneColumnName))
    else if threshold.Some? && !frame.hasCorrelationColumn then Err(MissingColumn(CorrelationColumnName))
    else
      MaskSelectsKept(frame.rows, genesList, threshold);
      Ok(Loc(GeneColumn(frame.rows), Mask(frame.rows, genesList, threshold)))
  }

  /** Selecting the gene column through the mask is the row-by-row filter. */
  lemma {:induction false} MaskSelectsKept(rows: seq<Row>, genesList: seq<Gene>, threshold: Option<real>)
    ensures Loc(GeneColumn(rows), Mask(rows, genesList, threshold)) == Kept(rows, genesList, threshold)
  {
    if rows != [] {
      var col, mask := GeneColumn(rows), Mask(rows, genesList, threshold);
      assert col[1..] == GeneColumn(rows[1..]);
      assert mask[1..] == Mask(rows[1..], genesList, threshold);
      assert mask[0] == Passes(rows[0], genesList, threshold);
      MaskSelectsKept(rows[1..], genesList, threshold);
    }
  }

  /** A gene is a hit exactly when some row names it and passes the filter. */
  lemma {:induction false} KeptMembership(rows: seq<Row>, genesList: seq<Gene>, threshold: Option<real>, x: Gene)
    ensures x in Kept(rows, genesList, threshold) <==>
      exists k :: 0 <= k < |rows| && rows[k].gene == x && Passes(rows[k], genesList, threshold)
  {
    if rows != [] {
      KeptMembership(rows[1..], genesList, threshold, x);
      if x in Kept(rows[1..], genesList, threshold) {
        var k :| 0 <= k < |rows[1..]| && rows[1..][k].gene == x && Passes(rows[1..][k], genesList, threshold);
        assert rows[k + 1] == rows[1..][k];
      }
      if exists k :: 0 <= k < |rows| && rows[k].gene == x && Passes(rows[k], genesList, threshold) {
        var k :| 0 <= k < |rows| && rows[k].gene == x && Passes(rows[k], genesList, threshold);
        if k > 0 {
          assert rows[1..][k - 1] == rows[k];
        }
      }
    }
  }

  /** Hits keep the table's row order: they are a subsequence of the gene column. */
  lemma {:induction false} KeptInRowOrder(rows: seq<Row>, genesList: seq<Gene>, threshold: Option<real>)
    ensures Subseq(Kept(rows, genesList, threshold), GeneColumn(rows))
  {
    if rows != [] {
      var rest := Kept(rows[1..], genesList, threshold);
      KeptInRowOrder(rows[1..], genesList, threshold);
      assert GeneColumn(rows) == [rows[0].gene] + GeneColumn(rows[1..]);
      if Passes(rows[0], genesList, threshold) {
        Subseq2Cons(rows[0].gene, rest, GeneColumn(rows[1..]));
      } else {
        assert Kept(rows, genesList, threshold) == rest;
        SubseqCons(rows[0].gene, rest, GeneColumn(rows[1..]));
      }
    }
  }

  /** Without a threshold every row naming a listed gene yields a hit, repeated rows
      included: each gene occurs among the hits as often as in the listed part of the column. */
  lemma {:induction false} KeptCountsWithoutThreshold(rows: seq<Row>, genesList: seq<Gene>, x: Gene)
    ensures multiset(Kept(rows, genesList, None))[x] ==
      if x in genesList then multiset(GeneColumn(rows))[x] else 0
  {
    if rows != [] {
      KeptCountsWithoutThreshold(rows[1..], genesList, x);
      assert GeneColumn(rows) == [rows[0].gene] + GeneColumn(rows[1..]);
    }
  }

  /** `t1` lets through every correlation that `t2` lets through. */
  predicate Looser(t1: Option<real>, t2: Option<real>)
  {
    t1.None? || (t2.Some? && t1.value <= t2.value)
  }

  /** A stricter threshold and a smaller gene list give a subsequence of the hits. */
  lemma {:induction false} KeptMonotone(rows: seq<Row>, list1: seq<Gene>, list2: seq<Gene>,
                                        t1: Option<real>, t2: Option<real>)
    requires Looser(t1, t2)
    requires forall j :: 0 <= j < |list2| ==> list2[j] in list1
    ensures Subseq(Kept(rows, list2, t2), Kept(rows, list1, t1))
  {
    if rows != [] {
      var h1, h2 := Kept(rows[1..], list1, t1), Kept(rows[1..], list2, t2);
      var x := rows[0].gene;
      KeptMonotone(rows[1..], list1, list2, t1, t2);
      if Passes(rows[0], list2, t2) {
        assert Passes(rows[0], list1, t1);
        Subseq2Cons(x, h2, h1);
      } else if Passes(rows[0], list1, t1) {
        assert Kept(rows, list2, t2) == h2;
        SubseqCons(x, h2, h1);
      } else {
        assert Kept(rows, list2, t2) == h2 && Kept(rows, list1, t1) == h1;
      }
    }
  }

  /** Only membership in the gene list matters, not its order or repetitions. */
  lemma {:induction false} KeptDependsOnMembersOnly(rows: seq<Row>, list1: seq<Gene>, list2: seq<Gene>,
                                                    threshold: Option<real>)
    requires forall x :: x in list1 <==> x in list2
    ensures Kept(rows, list1, threshold) == Kept(rows, list2, threshold)
  {
    if rows != [] {
      KeptDependsOnMembersOnly(rows[1..], list1, list2, threshold);
    }
  }

  /** A worked example: the table of gene A against the screen A, B, C. */
  lemma ExampleTableOfA()
    ensures var table := Frame(true, true, [Row("B", 0.9), Row("C", 0.2), Row("X", 0.95)]);
      && FindGeneHits("A", table, ["B", "C"], Some(0.5)) == Ok(["B"])
      && FindGeneHits("A", table, ["B", "C"], None) == Ok(["B", "C"])
  {
    var rows := [Row("B", 0.9), Row("C", 0.2), Row("X", 0.95)];
    var screen := ["B", "C"];
    assert rows[1..] == [Row("C", 0.2), Row("X", 0.95)];
    assert rows[1..][1..] == [Row("X", 0.95)];
    assert rows[1..][1..][1..] == [];
    assert "X" !in screen && "B" in screen && "C" in screen;
    assert Kept(rows[1..][1..], screen, Some(0.5)) == [];
    assert Kept(rows[1..], screen, Some(0.5)) == [];
    assert Kept(rows, screen, Some(0.5)) == ["B"];
    assert Kept(rows[1..][1..], screen, None) == [];
    assert Kept(rows[1..], screen, None) == ["C"];
    assert Kept(rows, screen, None) == ["B", "C"];
  }
}
