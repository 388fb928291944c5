/**
 * The post-processing half of `create_exactextract_zonal_stats`: the engine's answer as a
 * table, the single-band rename, the copying of result columns under their output names,
 * the final column selection, and the entry point that strings the steps together.
 */
module ExactExtractResults {
  import opened Wrappers
  import opened Text
  import opened Args
  import opened ExactExtractPlan

  /**
   * The result DataFrame reduced to its columns: each column name maps to the statistic whose
   * values the column holds, named by the engine column that computed it.
   */
  type Table = map<string, string>

  /** A selected output column and the statistic it holds. */
  datatype Column = Column(name: string, source: string)

  /** The engine's answer: each column holds its own statistic. */
  function EngineTable(cols: seq<string>): (t: Table)
    ensures forall c :: c in t <==> c in cols
    ensures forall c :: c in t ==> t[c] == c
  {
    map c | c in cols :: c
  }

  lemma BandOneText()
    ensures IntToString(1) == "1"
  {
    assert NatToString(1) == [DigitChar(1)];
    assert "0123456789"[1] == '1';
  }

  /** Lines 229-231: on a single-band raster the engine's columns `<func>` become the default names of band 1. */
  function SingleBandRename(cols: seq<string>): (r: seq<string>)
    ensures |r| == |cols|
    ensures forall i :: 0 <= i < |cols| ==> r[i] == BandColumn(1, cols[i])
  {
    BandOneText();
    seq(|cols|, i requires 0 <= i < |cols| => "band_1_" + cols[i])
  }

  /**
   * Lines 225-233: the result table the post-processing starts from. Each column holds its own
   * statistic; on a single-band raster the engine's columns are renamed to `band_1_<c>`,
   * otherwise they are kept as they are.
   */
  function ResultTable(engineCols: seq<string>, bandCount: int): (r: Table)
    ensures forall k :: k in r ==> r[k] == k
    ensures bandCount != 1 ==> forall c :: c in r <==> c in engineCols
    ensures bandCount == 1 ==> forall c :: c in engineCols ==> BandColumn(1, c) in r
    ensures bandCount == 1 ==> forall k :: k in r ==> exists c :: c in engineCols && k == BandColumn(1, c)
  {
    EngineTable(if bandCount == 1 then SingleBandRename(engineCols) else engineCols)
  }

  function ColumnNames(cs: seq<Column>): seq<string> {
    seq(|cs|, i requires 0 <= i < |cs| => cs[i].name)
  }

  function ColumnSources(cs: seq<Column>): seq<string> {
    seq(|cs|, i requires 0 <= i < |cs| => cs[i].source)
  }

  /** The result columns of all specs, in spec order: the columns the output names stand for. */
  function AllResultColumns(aggs: seq<AggSpec>): seq<string> {
    if aggs == [] then [] else ResultColumns(aggs[0]) + AllResultColumns(aggs[1..])
  }

  function Prepend<T>(prefix: seq<T>, r: Result<seq<T>, Error>): Result<seq<T>, Error> {
    match r
    case Success(s) => Success(prefix + s)
    case Failure(e) => Failure(e)
  }

  // ---------------------------------------------------------------- each output column a copy of its result column

  /** Copies of the columns `results` under the names `outs`, read from the engine's table `t`. */
  function CopyColumns(t: Table, outs: seq<string>, results: seq<string>): (r: Result<seq<Column>, Error>)
    requires |outs| == |results|
    ensures r.Success? ==> forall c :: c in r.value ==> c.source in t.Values
  {
    if outs == [] then Success([])
    else if results[0] !in t then Failure(MissingColumn(results[0]))
    else
      var rest :- CopyColumns(t, outs[1..], results[1..]);
      Success([Column(outs[0], t[results[0]])] + rest)
  }

  function SpecColumns(t: Table, spec: AggSpec): (r: Result<seq<Column>, Error>)
    ensures r.Success? ==> forall c :: c in r.value ==> c.source in t.Values
  {
    var names :- OutputNames(spec);
    CopyColumns(t, names, ResultColumns(spec))
  }

  /** The selected output columns, spec by spec, or the first exception raised. */
  function Selection(t: Table, aggs: seq<AggSpec>): (r: Result<seq<Column>, Error>)
    ensures r.Success? ==> forall c :: c in r.value ==> c.source in t.Values
  {
    if aggs == [] then Success([])
    else
      var cs :- SpecColumns(t, aggs[0]);
      var rest :- Selection(t, aggs[1..]);
      Success(cs + rest)
  }

  lemma PrependAppend<T>(a: seq<T>, b: seq<T>, r: Result<seq<T>, Error>)
    ensures Prepend(a, Prepend(b, r)) == Prepend(a + b, r)
  {
    if r.Success? {
      assert a + (b + r.value) == (a + b) + r.value;
    }
  }

  lemma PrependNothing<T>(r: Result<seq<T>, Error>)
    ensures Prepend([], r) == r
  {
    if r.Success? {
      assert [] + r.value == r.value;
    }
  }

  /** One spec of the loop: its columns come first, then those of the specs after it. */
  lemma SelectionStep(t: Table, aggs: seq<AggSpec>, i: nat)
    requires i < |aggs|
    ensures SpecColumns(t, aggs[i]).Failure? ==> Selection(t, aggs[i..]) == Failure(SpecColumns(t, aggs[i]).error)
    ensures SpecColumns(t, aggs[i]).Success? ==>
      Selection(t, aggs[i..]) == Prepend(SpecColumns(t, aggs[i]).value, Selection(t, aggs[i + 1..]))
  {
    assert aggs[i..][0] == aggs[i] && aggs[i..][1..] == aggs[i + 1..];
  }

  /** One pair of the inner loop. */
  lemma CopyStep(t: Table, outs: seq<string>, results: seq<string>, k: nat)
    requires |outs| == |results| && k < |outs|
    ensures results[k] !in t ==> CopyColumns(t, outs[k..], results[k..]) == Failure(MissingColumn(results[k]))
    ensures results[k] in t ==>
      CopyColumns(t, outs[k..], results[k..]) ==
      Prepend([Column(outs[k], t[results[k]])], CopyColumns(t, outs[k + 1..], results[k + 1..]))
  {
    assert outs[k..][0] == outs[k] && results[k..][0] == results[k];
    assert outs[k..][1..] == outs[k + 1..] && results[k..][1..] == results[k + 1..];
  }

  /**
   * Lines 239-263 with every copy read from the engine's table as it came back, so that each
   * output column is a copy of its own result column whatever names earlier specs wrote.
   */
  method SelectOutputColumns(t: Table, aggs: seq<AggSpec>) returns (r: Result<seq<Column>, Error>)
    ensures r == Selection(t, aggs)
  {
    var out: seq<Column> := [];
    var i := 0;
    assert aggs[0..] == aggs;
    PrependNothing(Selection(t, aggs));
    while i < |aggs|
      invariant 0 <= i <= |aggs|
      invariant Selection(t, aggs) == Prepend(out, Selection(t, aggs[i..]))
    {
      var spec := aggs[i];
      SelectionStep(t, aggs, i);
      var results := ResultColumns(spec);
      var names :- OutputNames(spec);
      assert SpecColumns(t, spec) == CopyColumns(t, names, results);
      var copies: seq<Column> := [];
      var k := 0;
      assert names[0..] == names && results[0..] == results;
      PrependNothing(CopyColumns(t, names, results));
      while k < |names|
        invariant 0 <= k <= |names|
        invariant CopyColumns(t, names, results) == Prepend(copies, CopyColumns(t, names[k..], results[k..]))
      {
        CopyStep(t, names, results, k);
        if results[k] !in t {
          return Failure(MissingColumn(results[k]));
        }
        PrependAppend(copies, [Column(names[k], t[results[k]])], CopyColumns(t, names[k + 1..], results[k + 1..]));
        copies := copies + [Column(names[k], t[results[k]])];
        k := k + 1;
      }
      assert names[k..] == [] && results[k..] == [];
      assert CopyColumns(t, names[k..], results[k..]) == Success([]);
      assert copies + [] == copies;
      assert SpecColumns(t, spec) == Success(copies);
      PrependAppend(out, copies, Selection(t, aggs[i + 1..]));
      out := out + copies;
      i := i + 1;
    }
    assert aggs[i..] == [];
    assert Selection(t, aggs[i..]) == Success([]);
    assert out + [] == out;
    r := Success(out);
  }

  /** A successful selection has the `out_cols` names, one per statistic, each holding its own result column. */
  lemma SelectionLayout(t: Table, aggs: seq<AggSpec>)
    requires Selection(t, aggs).Success?
    ensures OutColumns(aggs) == Success(ColumnNames(Selection(t, aggs).value))
    ensures |Selection(t, aggs).value| == TotalFuncs(aggs) == |AllResultColumns(aggs)|
    ensures forall k :: 0 <= k < |AllResultColumns(aggs)| ==>
      AllResultColumns(aggs)[k] in t && Selection(t, aggs).value[k].source == t[AllResultColumns(aggs)[k]]
  {
    SelectionNames(t, aggs);
    SelectionSources(t, aggs);
    AllResultColumnsCount(aggs);
  }

  lemma SelectionUnfold(t: Table, aggs: seq<AggSpec>)
    requires aggs != [] && Selection(t, aggs).Success?
    ensures OutputNames(aggs[0]).Success?
    ensures SpecColumns(t, aggs[0]) == CopyColumns(t, OutputNames(aggs[0]).value, ResultColumns(aggs[0]))
    ensures SpecColumns(t, aggs[0]).Success? && Selection(t, aggs[1..]).Success?
    ensures Selection(t, aggs).value == SpecColumns(t, aggs[0]).value + Selection(t, aggs[1..]).value
  {
  }

  lemma {:induction false} SelectionNames(t: Table, aggs: seq<AggSpec>)
    requires Selection(t, aggs).Success?
    ensures OutColumns(aggs) == Success(ColumnNames(Selection(t, aggs).value))
  {
    if aggs != [] {
      SelectionUnfold(t, aggs);
      var names := OutputNames(aggs[0]).value;
      var cs := SpecColumns(t, aggs[0]).value;
      var rest := Selection(t, aggs[1..]).value;
      CopyColumnsLayout(t, names, ResultColumns(aggs[0]));
      SelectionNames(t, aggs[1..]);
      ColumnNamesConcat(cs, rest);
      assert OutColumns(aggs) == Success(names + OutColumns(aggs[1..]).value);
    } else {
      assert ColumnNames([]) == [];
    }
  }

  /** Each of `cols` holds the statistic of the result column at the same position. */
  predicate SourcesFrom(t: Table, cols: seq<Column>, results: seq<string>) {
    && |cols| == |results|
    && forall k :: 0 <= k < |results| ==> results[k] in t && cols[k].source == t[results[k]]
  }

  lemma SourcesFromConcat(t: Table, a: seq<Column>, ra: seq<string>, b: seq<Column>, rb: seq<string>)
    requires SourcesFrom(t, a, ra) && SourcesFrom(t, b, rb)
    ensures SourcesFrom(t, a + b, ra + rb)
  {
    forall k | 0 <= k < |ra + rb|
      ensures (ra + rb)[k] in t && (a + b)[k].source == t[(ra + rb)[k]]
    {
      if k < |ra| {
        assert (ra + rb)[k] == ra[k] && (a + b)[k] == a[k];
      } else {
        assert (ra + rb)[k] == rb[k - |ra|] && (a + b)[k] == b[k - |ra|];
      }
    }
  }

  lemma {:induction false} SelectionSources(t: Table, aggs: seq<AggSpec>)
    requires Selection(t, aggs).Success?
    ensures SourcesFrom(t, Selection(t, aggs).value, AllResultColumns(aggs))
  {
    if aggs != [] {
      SelectionUnfold(t, aggs);
      var rc := ResultColumns(aggs[0]);
      CopyColumnsLayout(t, OutputNames(aggs[0]).value, rc);
      SelectionSources(t, aggs[1..]);
      SourcesFromConcat(t, SpecColumns(t, aggs[0]).value, rc, Selection(t, aggs[1..]).value, AllResultColumns(aggs[1..]));
    }
  }

  lemma {:induction false} AllResultColumnsCount(aggs: seq<AggSpec>)
    ensures |AllResultColumns(aggs)| == TotalFuncs(aggs)
  {
    if aggs != [] {
      AllResultColumnsCount(aggs[1..]);
    }
  }

  lemma {:induction false} CopyColumnsLayout(t: Table, outs: seq<string>, results: seq<string>)
    requires |outs| == |results| && CopyColumns(t, outs, results).Success?
    ensures ColumnNames(CopyColumns(t, outs, results).value) == outs
    ensures SourcesFrom(t, CopyColumns(t, outs, results).value, results)
  {
    if outs != [] {
      CopyColumnsLayout(t, outs[1..], results[1..]);
    }
  }

  /** The selection succeeds when no output list has the wrong length and every result column is in the table. */
  lemma {:induction false} SelectionSucceeds(t: Table, aggs: seq<AggSpec>)
    requires forall a :: a in aggs ==> OutputNames(a).Success?
    requires forall a, c :: a in aggs && c in ResultColumns(a) ==> c in t
    ensures Selection(t, aggs).Success?
  {
    if aggs != [] {
      var spec := aggs[0];
      CopyColumnsSucceeds(t, OutputNames(spec).value, ResultColumns(spec));
      SelectionSucceeds(t, aggs[1..]);
    }
  }

  lemma {:induction false} CopyColumnsSucceeds(t: Table, outs: seq<string>, results: seq<string>)
    requires |outs| == |results| && forall c :: c in results ==> c in t
    ensures CopyColumns(t, outs, results).Success?
  {
    if outs != [] {
      CopyColumnsSucceeds(t, outs[1..], results[1..]);
    }
  }

  /** A failed selection raises either the assertion on a spec's output list or a `KeyError` for a result column the table lacks. */
  lemma {:induction false} SelectionFailure(t: Table, aggs: seq<AggSpec>)
    requires Selection(t, aggs).Failure?
    ensures var e := Selection(t, aggs).error;
      || (e.LengthMismatch? && exists a :: a in aggs && OutputNames(a) == Failure(e))
      || (e.MissingColumn? && e.name !in t && exists a :: a in aggs && e.name in ResultColumns(a))
  {
    var spec := aggs[0];
    if OutputNames(spec).Success? {
      var names := OutputNames(spec).value;
      if CopyColumns(t, names, ResultColumns(spec)).Failure? {
        CopyColumnsFailure(t, names, ResultColumns(spec));
      } else {
        SelectionFailure(t, aggs[1..]);
      }
    }
  }

  lemma {:induction false} CopyColumnsFailure(t: Table, outs: seq<string>, results: seq<string>)
    requires |outs| == |results| && CopyColumns(t, outs, results).Failure?
    ensures var e := CopyColumns(t, outs, results).error;
      e.MissingColumn? && e.name in results && e.name !in t
  {
    if results[0] in t {
      CopyColumnsFailure(t, outs[1..], results[1..]);
    }
  }

  // ---------------------------------------------------------------- lines 239-263 as written

  /** The result table and `out_cols` between two specs of the loop at line 240. */
  datatype Frame = Frame(table: Table, outCols: seq<string>)

  predicate Covers(f: Frame) {
    forall c :: c in f.outCols ==> c in f.table
  }

  /** Lines 258-259: `results[o] = results[r]` pair by pair, each copy reading the table as the earlier copies left it. */
  function AssignColumns(t: Table, outs: seq<string>, results: seq<string>): (r: Result<Table, Error>)
    requires |outs| == |results|
    ensures r.Success? ==> t.Keys <= r.value.Keys && forall o :: o in outs ==> o in r.value
    ensures r.Success? ==> r.value.Values <= t.Values
    decreases |outs|
  {
    if outs == [] then Success(t)
    else if results[0] !in t then Failure(MissingColumn(results[0]))
    else
      var next := t[outs[0] := t[results[0]]];
      assert next.Values <= t.Values by {
        forall v | v in next.Values
          ensures v in t.Values
        {
          var k :| k in next && next[k] == v;
          if k != outs[0] {
            assert k in t && t[k] == v;
          } else {
            assert results[0] in t && t[results[0]] == v;
          }
        }
      }
      AssignColumns(next, outs[1..], results[1..])
  }

  /** The loop of lines 240-260 from frame `f` over `aggs`. */
  function AssignAll(f: Frame, aggs: seq<AggSpec>): (r: Result<Frame, Error>)
    ensures Covers(f) && r.Success? ==> Covers(r.value)
    ensures r.Success? ==> f.table.Keys <= r.value.table.Keys && r.value.table.Values <= f.table.Values
    ensures r.Success? ==> OutColumns(aggs).Success? && r.value.outCols == f.outCols + OutColumns(aggs).value
    decreases |aggs|
  {
    if aggs == [] then
      assert f.outCols + [] == f.outCols;
      Success(f)
    else
      var names :- OutputNames(aggs[0]);
      var t :- AssignColumns(f.table, names, ResultColumns(aggs[0]));
      var r := AssignAll(Frame(t, f.outCols + names), aggs[1..]);
      assert r.Success? ==> OutColumns(aggs) == Success(names + OutColumns(aggs[1..]).value);
      assert r.Success? ==>
        (f.outCols + names) + OutColumns(aggs[1..]).value == f.outCols + (names + OutColumns(aggs[1..]).value);
      r
  }

  /** `table.loc[:, cols]`: the named columns, in the order named. */
  function Loc(table: Table, cols: seq<string>): (r: seq<Column>)
    requires forall c :: c in cols ==> c in table
    ensures ColumnNames(r) == cols
    ensures forall c :: c in r ==> c.source in table.Values
  {
    seq(|cols|, i requires 0 <= i < |cols| => Column(cols[i], table[cols[i]]))
  }

  /** Line 263: `results.loc[:, out_cols]` after the loop. */
  function SelectionAsWritten(t: Table, aggs: seq<AggSpec>): (r: Result<seq<Column>, Error>)
    ensures r.Success? ==> forall c :: c in r.value ==> c.source in t.Values
  {
    var f :- AssignAll(Frame(t, []), aggs);
    Success(Loc(f.table, f.outCols))
  }

  lemma AssignStep(t: Table, outs: seq<string>, results: seq<string>, k: nat)
    requires |outs| == |results| && k < |outs|
    ensures results[k] !in t ==> AssignColumns(t, outs[k..], results[k..]) == Failure(MissingColumn(results[k]))
    ensures results[k] in t ==>
      AssignColumns(t, outs[k..], results[k..]) ==
      AssignColumns(t[outs[k] := t[results[k]]], outs[k + 1..], results[k + 1..])
  {
    assert outs[k..][0] == outs[k] && results[k..][0] == results[k];
    assert outs[k..][1..] == outs[k + 1..] && results[k..][1..] == results[k + 1..];
  }

  lemma AssignAllStep(f: Frame, aggs: seq<AggSpec>, i: nat)
    requires i < |aggs|
    ensures OutputNames(aggs[i]).Failure? ==> AssignAll(f, aggs[i..]) == Failure(OutputNames(aggs[i]).error)
    ensures OutputNames(aggs[i]).Success? ==>
      var names := OutputNames(aggs[i]).value;
      var a := AssignColumns(f.table, names, ResultColumns(aggs[i]));
      && (a.Failure? ==> AssignAll(f, aggs[i..]) == Failure(a.error))
      && (a.Success? ==> AssignAll(f, aggs[i..]) == AssignAll(Frame(a.value, f.outCols + names), aggs[i + 1..]))
  {
    assert aggs[i..][0] == aggs[i] && aggs[i..][1..] == aggs[i + 1..];
  }

  /** Lines 258-259 as written: `results[o] = results[r]` pair by pair, on the table being edited. */
  method AssignSpecColumns(table: Table, outs: seq<string>, resultCols: seq<string>) returns (r: Result<Table, Error>)
    requires |outs| == |resultCols|
    ensures r == AssignColumns(table, outs, resultCols)
  {
    var results := table;
    var k := 0;
    assert outs[0..] == outs && resultCols[0..] == resultCols;
    while k < |outs|
      invariant 0 <= k <= |outs|
      invariant AssignColumns(table, outs, resultCols) == AssignColumns(results, outs[k..], resultCols[k..])
    {
      AssignStep(results, outs, resultCols, k);
      if resultCols[k] !in results {
        return Failure(MissingColumn(resultCols[k]));
      }
      results := results[outs[k] := results[resultCols[k]]];
      k := k + 1;
    }
    assert outs[k..] == [] && resultCols[k..] == [];
    r := Success(results);
  }

  /** Lines 239-263 as the source writes them: the loop edits the result table in place. */
  method SelectOutputColumnsAsWritten(t: Table, aggs: seq<AggSpec>) returns (r: Result<seq<Column>, Error>)
    ensures r == SelectionAsWritten(t, aggs)
  {
    var results := t;
    var outCols: seq<string> := [];
    var i := 0;
    assert aggs[0..] == aggs;
    while i < |aggs|
      invariant 0 <= i <= |aggs|
      invariant Covers(Frame(results, outCols))
      invariant AssignAll(Frame(t, []), aggs) == AssignAll(Frame(results, outCols), aggs[i..])
    {
      var spec := aggs[i];
      AssignAllStep(Frame(results, outCols), aggs, i);
      var resultCols := ResultColumns(spec);
      if OutputNames(spec).Failure? {
        assert AssignAll(Frame(t, []), aggs) == Failure(OutputNames(spec).error);
        assert SelectionAsWritten(t, aggs) == Failure(OutputNames(spec).error);
      }
      var aggOutCols :- OutputNames(spec);
      var edited := AssignSpecColumns(results, aggOutCols, resultCols);
      if edited.Failure? {
        assert AssignAll(Frame(t, []), aggs) == Failure(edited.error);
        assert SelectionAsWritten(t, aggs) == Failure(edited.error);
      }
      results :- edited;
      outCols := outCols + aggOutCols;
      i := i + 1;
    }
    assert aggs[i..] == [];
    assert AssignAll(Frame(t, []), aggs) == Success(Frame(results, outCols));
    r := Success(Loc(results, outCols));
  }

  /**
   * As written, a successful selection still carries the `out_cols` names, one per requested
   * statistic, and every selected column holds one of the engine's statistics.
   */
  lemma SelectionAsWrittenLayout(t: Table, aggs: seq<AggSpec>)
    requires SelectionAsWritten(t, aggs).Success?
    ensures OutColumns(aggs) == Success(ColumnNames(SelectionAsWritten(t, aggs).value))
    ensures |SelectionAsWritten(t, aggs).value| == TotalFuncs(aggs)
    ensures forall c :: c in SelectionAsWritten(t, aggs).value ==> c.source in t.Values
  {
    var f := AssignAll(Frame(t, []), aggs).value;
    assert [] + OutColumns(aggs).value == OutColumns(aggs).value;
    OutColumnsShape(aggs);
    assert |ColumnNames(Loc(f.table, f.outCols))| == |f.outCols|;
  }

  /** As written, the selection succeeds under the same conditions as the copy from the engine's table. */
  lemma SelectionAsWrittenSucceeds(t: Table, aggs: seq<AggSpec>)
    requires forall a :: a in aggs ==> OutputNames(a).Success?
    requires forall a, c :: a in aggs && c in ResultColumns(a) ==> c in t
    ensures SelectionAsWritten(t, aggs).Success?
  {
    AssignAllSucceeds(Frame(t, []), aggs);
  }

  lemma {:induction false} AssignAllSucceeds(f: Frame, aggs: seq<AggSpec>)
    requires forall a :: a in aggs ==> OutputNames(a).Success?
    requires forall a, c :: a in aggs && c in ResultColumns(a) ==> c in f.table
    ensures AssignAll(f, aggs).Success?
    decreases |aggs|
  {
    if aggs != [] {
      var names := OutputNames(aggs[0]).value;
      var rc := ResultColumns(aggs[0]);
      AssignColumnsSucceeds(f.table, names, rc);
      var next := AssignColumns(f.table, names, rc).value;
      assert forall a :: a in aggs[1..] ==> a in aggs;
      AssignAllSucceeds(Frame(next, f.outCols + names), aggs[1..]);
    }
  }

  lemma {:induction false} AssignColumnsSucceeds(t: Table, outs: seq<string>, results: seq<string>)
    requires |outs| == |results| && forall c :: c in results ==> c in t
    ensures AssignColumns(t, outs, results).Success?
    decreases |outs|
  {
    if outs != [] {
      AssignColumnsSucceeds(t[outs[0] := t[results[0]]], outs[1..], results[1..]);
    }
  }

  /**
   * As written, a failed selection raises either the assertion on a spec's output list or a
   * `KeyError` for a result column of some spec that the engine's table lacks.
   */
  lemma SelectionAsWrittenFailure(t: Table, aggs: seq<AggSpec>)
    requires SelectionAsWritten(t, aggs).Failure?
    ensures var e := SelectionAsWritten(t, aggs).error;
      || (e.LengthMismatch? && exists a :: a in aggs && OutputNames(a) == Failure(e))
      || (e.MissingColumn? && e.name !in t && exists a :: a in aggs && e.name in ResultColumns(a))
  {
    AssignAllFailure(Frame(t, []), aggs);
  }

  lemma {:induction false} AssignAllFailure(f: Frame, aggs: seq<AggSpec>)
    requires AssignAll(f, aggs).Failure?
    ensures var e := AssignAll(f, aggs).error;
      || (e.LengthMismatch? && exists a :: a in aggs && OutputNames(a) == Failure(e))
      || (e.MissingColumn? && e.name !in f.table && exists a :: a in aggs && e.name in ResultColumns(a))
    decreases |aggs|
  {
    var spec := aggs[0];
    if OutputNames(spec).Success? {
      var names := OutputNames(spec).value;
      var a := AssignColumns(f.table, names, ResultColumns(spec));
      if a.Failure? {
        AssignColumnsFailure(f.table, names, ResultColumns(spec));
      } else {
        AssignAllFailure(Frame(a.value, f.outCols + names), aggs[1..]);
        assert forall x :: x in aggs[1..] ==> x in aggs;
      }
    }
  }

  lemma {:induction false} AssignColumnsFailure(t: Table, outs: seq<string>, results: seq<string>)
    requires |outs| == |results| && AssignColumns(t, outs, results).Failure?
    ensures var e := AssignColumns(t, outs, results).error;
      e.MissingColumn? && e.name in results && e.name !in t
    decreases |outs|
  {
    if results[0] in t {
      var next := t[outs[0] := t[results[0]]];
      AssignColumnsFailure(next, outs[1..], results[1..]);
      assert t.Keys <= next.Keys;
    }
  }

  /**
   * Output names `band_1_sum` and `band_1_mean` for the statistics `mean` and `sum`: as written,
   * the first copy overwrites `band_1_sum` before the second copy reads it, and both selected
   * columns hold the mean. Copying from the engine's table keeps the sum.
   */
  lemma SwappedNamesLoseAColumn()
    ensures SelectionAsWritten(SwapTable(), [SwapSpec()]) ==
      Success([Column("band_1_sum", "band_1_mean"), Column("band_1_mean", "band_1_mean")])
  {
    var t := SwapTable();
    var spec := SwapSpec();
    var names := ["band_1_sum", "band_1_mean"];
    var rc := SwapCase();
    // the first copy overwrites band_1_sum, the second reads it back
    var t1 := t["band_1_sum" := "band_1_mean"];
    var t2 := t1["band_1_mean" := "band_1_mean"];
    assert AssignColumns(t1, names[1..], rc[1..]) == AssignColumns(t2, [], []) == Success(t2);
    assert AssignColumns(t, names, rc) == Success(t2);
    assert [spec][1..] == [];
    assert [] + names == names;
    assert AssignAll(Frame(t, []), [spec]) == AssignAll(Frame(t2, [] + names), []) == Success(Frame(t2, names));
    assert t2["band_1_sum"] == "band_1_mean" && t2["band_1_mean"] == "band_1_mean";
    assert Loc(t2, names) == [Column("band_1_sum", "band_1_mean"), Column("band_1_mean", "band_1_mean")];
  }

  /** The same spec copied from the engine's table keeps the sum under `band_1_mean`. */
  lemma SwappedNamesKeepBothColumns()
    ensures Selection(SwapTable(), [SwapSpec()]) ==
      Success([Column("band_1_sum", "band_1_mean"), Column("band_1_mean", "band_1_sum")])
  {
    var t := SwapTable();
    var spec := SwapSpec();
    var names := ["band_1_sum", "band_1_mean"];
    var rc := SwapCase();
    var c1 := Column("band_1_sum", "band_1_mean");
    var c2 := Column("band_1_mean", "band_1_sum");
    assert names[1..] == ["band_1_mean"] && rc[1..] == ["band_1_sum"];
    assert names[1..][1..] == [] && rc[1..][1..] == [];
    assert CopyColumns(t, names[1..][1..], rc[1..][1..]) == Success([]);
    assert [c2] + [] == [c2];
    assert [c1] + [c2] == [c1, c2];
    assert CopyColumns(t, names[1..], rc[1..]) == Success([c2]);
    assert CopyColumns(t, names, rc) == Success([c1, c2]);
    assert SpecColumns(t, spec) == CopyColumns(t, names, rc);
    assert [spec][1..] == [];
    assert Selection(t, [spec][1..]) == Success([]);
    assert [c1, c2] + [] == [c1, c2];
  }

  /** The engine's single-band answer to `["mean", "sum"]` after the rename of line 231. */
  function SwapTable(): Table {
    EngineTable(["band_1_mean", "band_1_sum"])
  }

  /** Output names `band_1_sum` and `band_1_mean` for the statistics `mean` and `sum` on band 1. */
  function SwapSpec(): AggSpec {
    AggSpec(1, ["mean", "sum"], Some(Names(["band_1_sum", "band_1_mean"])))
  }

  /** SwapTable is what post-processing starts from when a single-band engine answers `["mean", "sum"]`. */
  lemma SwapTableIsSingleBandAnswer()
    ensures ResultTable(["mean", "sum"], 1) == SwapTable()
  {
    BandOneText();
    var renamed := SingleBandRename(["mean", "sum"]);
    assert renamed[0] == BandColumn(1, "mean") == "band_1_mean";
    assert renamed[1] == BandColumn(1, "sum") == "band_1_sum";
    assert renamed == ["band_1_mean", "band_1_sum"];
  }

  /** The facts both halves of the example rest on. */
  lemma SwapCase() returns (rc: seq<string>)
    ensures rc == ResultColumns(SwapSpec()) == ["band_1_mean", "band_1_sum"]
    ensures OutputNames(SwapSpec()) == Success(["band_1_sum", "band_1_mean"])
    ensures "band_1_mean" in SwapTable() && SwapTable()["band_1_mean"] == "band_1_mean"
    ensures "band_1_sum" in SwapTable() && SwapTable()["band_1_sum"] == "band_1_sum"
  {
    BandOneText();
    rc := ResultColumns(SwapSpec());
    assert rc[0] == BandColumn(1, "mean") == "band_1_mean";
    assert rc[1] == BandColumn(1, "sum") == "band_1_sum";
  }

  /** When every spec keeps its result columns' own names, the in-place loop selects the same columns as the copy from the engine's table. */
  lemma AsWrittenAgreesWithoutRenaming(t: Table, aggs: seq<AggSpec>)
    requires NoRenaming(aggs)
    ensures SelectionAsWritten(t, aggs) == Selection(t, aggs)
  {
    AssignAllWithoutRenaming(t, [], aggs);
    if Selection(t, aggs).Success? {
      var cs := Selection(t, aggs).value;
      CopiesWithoutRenaming(t, aggs);
      var names := ColumnNames(cs);
      assert [] + names == names;
      assert AssignAll(Frame(t, []), aggs) == Success(Frame(t, names));
      assert |names| == |cs|;
      assert forall k :: 0 <= k < |cs| ==> names[k] == cs[k].name;
      assert Loc(t, names) == cs;
    }
  }

  /** Without renaming, each copy writes a column onto itself: the table stays the engine's. */
  lemma {:induction false} AssignAllWithoutRenaming(t: Table, outCols: seq<string>, aggs: seq<AggSpec>)
    requires NoRenaming(aggs)
    ensures Selection(t, aggs).Failure? ==> AssignAll(Frame(t, outCols), aggs) == Failure(Selection(t, aggs).error)
    ensures Selection(t, aggs).Success? ==>
      AssignAll(Frame(t, outCols), aggs) == Success(Frame(t, outCols + ColumnNames(Selection(t, aggs).value)))
    decreases |aggs|
  {
    if aggs != [] {
      var rc := ResultColumns(aggs[0]);
      InPlaceStep(t, outCols, aggs);
      if CopyColumns(t, rc, rc).Success? {
        AssignAllWithoutRenaming(t, outCols + rc, aggs[1..]);
        if Selection(t, aggs[1..]).Success? {
          var rest := Selection(t, aggs[1..]).value;
          ColumnNamesConcat(CopyColumns(t, rc, rc).value, rest);
          assert (outCols + rc) + ColumnNames(rest) == outCols + (rc + ColumnNames(rest));
        }
      }
    } else {
      assert Selection(t, aggs) == Success([]) && ColumnNames([]) == [];
      assert outCols + [] == outCols;
    }
  }

  /** Every spec keeps its result columns' own names. */
  predicate NoRenaming(aggs: seq<AggSpec>) {
    forall a :: a in aggs ==> OutputNames(a) == Success(ResultColumns(a))
  }

  /** The first spec of the in-place loop when it keeps its result columns' names. */
  lemma InPlaceStep(t: Table, outCols: seq<string>, aggs: seq<AggSpec>)
    requires aggs != [] && NoRenaming(aggs)
    ensures NoRenaming(aggs[1..])
    ensures var rc := ResultColumns(aggs[0]);
      var c := CopyColumns(t, rc, rc);
      && (c.Failure? ==> AssignAll(Frame(t, outCols), aggs) == Failure(c.error) && Selection(t, aggs) == Failure(c.error))
      && (c.Success? ==>
           && AssignAll(Frame(t, outCols), aggs) == AssignAll(Frame(t, outCols + rc), aggs[1..])
           && ColumnNames(c.value) == rc
           && Selection(t, aggs) == Prepend(c.value, Selection(t, aggs[1..])))
  {
    var rc := ResultColumns(aggs[0]);
    assert aggs[0] in aggs;
    assert OutputNames(aggs[0]) == Success(rc);
    AssignInPlace(t, rc);
    if CopyColumns(t, rc, rc).Success? {
      CopyColumnsLayout(t, rc, rc);
    }
  }

  lemma ColumnNamesConcat(a: seq<Column>, b: seq<Column>)
    ensures ColumnNames(a + b) == ColumnNames(a) + ColumnNames(b)
  {
  }

  lemma {:induction false} AssignInPlace(t: Table, cols: seq<string>)
    ensures (forall c :: c in cols ==> c in t) ==> AssignColumns(t, cols, cols) == Success(t)
    ensures CopyColumns(t, cols, cols).Failure? ==> AssignColumns(t, cols, cols) == Failure(CopyColumns(t, cols, cols).error)
    ensures CopyColumns(t, cols, cols).Success? <==> forall c :: c in cols ==> c in t
  {
    if cols != [] {
      if cols[0] in t {
        assert t[cols[0] := t[cols[0]]] == t;
      }
      AssignInPlace(t, cols[1..]);
    }
  }

  lemma CopiesWithoutRenaming(t: Table, aggs: seq<AggSpec>)
    requires forall a :: a in aggs ==> OutputNames(a) == Success(ResultColumns(a))
    requires Selection(t, aggs).Success?
    ensures var cs := Selection(t, aggs).value;
      forall k :: 0 <= k < |cs| ==> cs[k].name in t && cs[k] == Column(cs[k].name, t[cs[k].name])
  {
    SelectionLayout(t, aggs);
    NamesAreResultColumns(aggs);
  }

  lemma {:induction false} NamesAreResultColumns(aggs: seq<AggSpec>)
    requires forall a :: a in aggs ==> OutputNames(a) == Success(ResultColumns(a))
    ensures OutColumns(aggs) == Success(AllResultColumns(aggs))
  {
    if aggs != [] {
      NamesAreResultColumns(aggs[1..]);
    }
  }

  // ---------------------------------------------------------------- the entry point

  /** What the entry point returns: the engine's answer as it is, or the selected output columns. */
  datatype ZonalStats = RawResults(engineColumns: seq<string>) | Selected(columns: seq<Column>)

  /** `exact_extract(data, aoi, ops, **extra_args)`, reduced to the names of the columns it returns. */
  type Engine = (seq<string>, map<string, Value>) -> seq<string>

  function AsSelected(r: Result<seq<Column>, Error>): Result<ZonalStats, Error> {
    match r
    case Success(cs) => Success(Selected(cs))
    case Failure(e) => Failure(e)
  }

  /**
   * `create_exactextract_zonal_stats` up to the join with the areas of interest: `bandCount`
   * is the raster's band count, `engine` the engine. Output columns are assigned in place, as
   * the source does.
   */
  method CreateExactExtractZonalStats(args: ArgDict, aggs: seq<AggSpec>, bandCount: nat, engine: Engine)
    returns (r: Result<ZonalStats, Error>)
    modifies args
    ensures args.entries == WithDefaultOutput(old(args.entries))
    ensures RejectsOutput(old(args.entries)) ==> r == Failure(UnsupportedOutput)
    ensures !RejectsOutput(old(args.entries)) && ReturnsRaw(old(args.entries)) ==>
      r == Success(RawResults(engine(Operations(ValidAggs(aggs, bandCount)), args.entries)))
    ensures !RejectsOutput(old(args.entries)) && !ReturnsRaw(old(args.entries)) ==>
      r == AsSelected(SelectionAsWritten(
             ResultTable(engine(Operations(ValidAggs(aggs, bandCount)), args.entries), bandCount),
             ValidAggs(aggs, bandCount)))
  {
    var raw :- DecideRawResults(args);
    var validated, skipped := ValidateAggs(aggs, bandCount);
    var ops := AllOperations(validated);
    var cols := engine(ops, args.entries);
    if raw {
      return Success(RawResults(cols));
    }
    if bandCount == 1 {
      cols := SingleBandRename(cols);
    }
    var selected := SelectOutputColumnsAsWritten(EngineTable(cols), validated);
    r := AsSelected(selected);
  }

  /** The entry point with each output column copied from the engine's table, as in SelectOutputColumns. */
  method CreateExactExtractZonalStatsCorrected(args: ArgDict, aggs: seq<AggSpec>, bandCount: nat, engine: Engine)
    returns (r: Result<ZonalStats, Error>)
    modifies args
    ensures args.entries == WithDefaultOutput(old(args.entries))
    ensures RejectsOutput(old(args.entries)) ==> r == Failure(UnsupportedOutput)
    ensures !RejectsOutput(old(args.entries)) && ReturnsRaw(old(args.entries)) ==>
      r == Success(RawResults(engine(Operations(ValidAggs(aggs, bandCount)), args.entries)))
    ensures !RejectsOutput(old(args.entries)) && !ReturnsRaw(old(args.entries)) ==>
      r == AsSelected(Selection(
             ResultTable(engine(Operations(ValidAggs(aggs, bandCount)), args.entries), bandCount),
             ValidAggs(aggs, bandCount)))
  {
    var raw :- DecideRawResults(args);
    var validated, skipped := ValidateAggs(aggs, bandCount);
    var ops := AllOperations(validated);
    var cols := engine(ops, args.entries);
    if raw {
      return Success(RawResults(cols));
    }
    if bandCount == 1 {
      cols := SingleBandRename(cols);
    }
    var selected := SelectOutputColumns(EngineTable(cols), validated);
    r := AsSelected(selected);
  }

  /** What exactextract's documentation promises: `<func>` on a single band, `band_<n>_<func>` for every band otherwise. */
  predicate EngineFollowsConvention(cols: seq<string>, ops: seq<string>, bandCount: int) {
    if bandCount == 1 then
      forall f :: f in ops ==> f in cols
    else
      forall b, f :: 1 <= b <= bandCount && f in ops ==> BandColumn(b, f) in cols
  }

  /**
   * As written, with an engine that names its columns by the convention, no output list of the
   * wrong length, and no band below 1, the post-processing succeeds and the selected columns
   * carry the `out_cols` names, one per requested statistic. Which statistic each holds depends
   * on the names earlier assignments wrote (SwappedNamesLoseAColumn).
   */
  lemma PostprocessingFollowsPolicyAsWritten(engineCols: seq<string>, aggs: seq<AggSpec>, bandCount: int)
    requires EngineFollowsConvention(engineCols, Operations(ValidAggs(aggs, bandCount)), bandCount)
    requires forall a :: a in ValidAggs(aggs, bandCount) ==> 1 <= a.band && OutputNames(a).Success?
    ensures var valid := ValidAggs(aggs, bandCount);
      var sel := SelectionAsWritten(ResultTable(engineCols, bandCount), valid);
      && sel.Success?
      && OutColumns(valid) == Success(ColumnNames(sel.value))
      && |sel.value| == TotalFuncs(valid)
  {
    var valid := ValidAggs(aggs, bandCount);
    var t := ResultTable(engineCols, bandCount);
    ConventionCoversResults(engineCols, valid, bandCount);
    SelectionAsWrittenSucceeds(t, valid);
    SelectionAsWrittenLayout(t, valid);
  }

  /** Under the convention, every result column of a valid spec is in the result table. */
  lemma ConventionCoversResults(engineCols: seq<string>, valid: seq<AggSpec>, bandCount: int)
    requires EngineFollowsConvention(engineCols, Operations(valid), bandCount)
    requires forall a :: a in valid ==> 1 <= a.band <= bandCount
    ensures forall a, c :: a in valid && c in ResultColumns(a) ==> c in ResultTable(engineCols, bandCount)
  {
    forall a, c | a in valid && c in ResultColumns(a)
      ensures c in ResultTable(engineCols, bandCount)
    {
      var i :| 0 <= i < |a.func| && c == ResultColumns(a)[i];
      RequestedFuncInTable(engineCols, valid, bandCount, a, i);
    }
  }

  /**
   * With the copies read from the engine's table, under the same conditions, the selected
   * columns carry the `out_cols` names and each holds the statistic of its own band and function.
   */
  lemma PostprocessingFollowsPolicy(engineCols: seq<string>, aggs: seq<AggSpec>, bandCount: int)
    requires EngineFollowsConvention(engineCols, Operations(ValidAggs(aggs, bandCount)), bandCount)
    requires forall a :: a in ValidAggs(aggs, bandCount) ==> 1 <= a.band && OutputNames(a).Success?
    ensures var valid := ValidAggs(aggs, bandCount);
      var sel := Selection(ResultTable(engineCols, bandCount), valid);
      && sel.Success?
      && OutColumns(valid) == Success(ColumnNames(sel.value))
      && ColumnSources(sel.value) == AllResultColumns(valid)
  {
    var valid := ValidAggs(aggs, bandCount);
    var t := ResultTable(engineCols, bandCount);
    ConventionCoversResults(engineCols, valid, bandCount);
    SelectionSucceeds(t, valid);
    SelectionLayout(t, valid);
    var cs := Selection(t, valid).value;
    forall k | 0 <= k < |cs|
      ensures ColumnSources(cs)[k] == AllResultColumns(valid)[k]
    {
    }
  }

  /** Under the convention, the result column of each requested statistic is in the result table. */
  lemma RequestedFuncInTable(engineCols: seq<string>, valid: seq<AggSpec>, bandCount: int, a: AggSpec, i: nat)
    requires EngineFollowsConvention(engineCols, Operations(valid), bandCount)
    requires a in valid && 1 <= a.band <= bandCount && i < |a.func|
    ensures BandColumn(a.band, a.func[i]) in ResultTable(engineCols, bandCount)
  {
    var f := a.func[i];
    assert a in valid && f in a.func;
    assert f in Operations(valid);
    ConventionNamesColumn(engineCols, Operations(valid), bandCount, a.band, f);
  }

  /** Under the convention, each band's column of a requested statistic is in the result table. */
  lemma ConventionNamesColumn(engineCols: seq<string>, ops: seq<string>, bandCount: int, band: int, f: string)
    requires EngineFollowsConvention(engineCols, ops, bandCount)
    requires f in ops && 1 <= band <= bandCount
    ensures BandColumn(band, f) in ResultTable(engineCols, bandCount)
  {
    if bandCount == 1 {
      var j :| 0 <= j < |engineCols| && engineCols[j] == f;
      assert SingleBandRename(engineCols)[j] == BandColumn(band, f);
    }
  }
}
