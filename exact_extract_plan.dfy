/**
 * The planning half of `create_exactextract_zonal_stats`: when the engine's raw answer is
 * returned, which aggregation specs survive `_validate_aggs`, which statistics the engine is
 * asked for, and how each spec names its output columns.
 */
module ExactExtractPlan {
  import opened Wrappers
  import opened Text
  import opened Args

  /** How a spec names its output columns: `output="p"` or `output=["a", "b", ...]`. */
  datatype OutputNaming = Prefix(prefix: string) | Names(names: seq<string>)

  /** One aggregation spec: the raster band, the statistics, and the optional naming. */
  datatype AggSpec = AggSpec(band: int, func: seq<string>, output: Option<OutputNaming>)

  /** The exceptions the entry point raises. */
  datatype Error =
    | UnsupportedOutput            // ValueError for output="gdal"
    | LengthMismatch(got: nat, expected: nat)  // the failed assertion on an output list
    | MissingColumn(name: string)  // KeyError when a result column is not in the engine's table

  // ---------------------------------------------------------------- raw results

  /** `extra_args` asks for an output mode the entry point refuses. */
  predicate RejectsOutput(args: map<string, Value>) {
    "output" in args && args["output"] == Str("gdal")
  }

  /** `extra_args` asks for something the post-processing cannot handle, so the engine's answer is returned as it is. */
  predicate ReturnsRaw(args: map<string, Value>) {
    || ("output" in args && args["output"] != Str("pandas"))
    || "include_cols" in args
    || "include_geom" in args
  }

  /** `extra_args` after lines 186-187: an absent `output` becomes `"pandas"`. */
  function WithDefaultOutput(args: map<string, Value>): (r: map<string, Value>)
    ensures "output" in r && r.Keys == args.Keys + {"output"}
    ensures forall k :: k in args ==> r[k] == args[k]
    ensures !RejectsOutput(args) ==> !RejectsOutput(r)
    ensures ReturnsRaw(r) == ReturnsRaw(args)
  {
    if "output" in args then args else args["output" := Str("pandas")]
  }

  /** Lines 185-200: the `RETURN_RAW_RESULTS` flag, raised step by step, and the `ValueError` for `"gdal"`. */
  method DecideRawResults(args: ArgDict) returns (r: Result<bool, Error>)
    modifies args
    ensures args.entries == WithDefaultOutput(old(args.entries))
    ensures r.Failure? <==> RejectsOutput(old(args.entries))
    ensures r.Failure? ==> r.error == UnsupportedOutput
    ensures r.Success? ==> (r.value <==> ReturnsRaw(old(args.entries)))
  {
    var raw := false;
    if "output" !in args.entries {
      args.Put("output", Str("pandas"));
    } else {
      if args.entries["output"] != Str("pandas") {
        raw := true;
      }
      if args.entries["output"] == Str("gdal") {
        return Failure(UnsupportedOutput);
      }
    }
    if "include_cols" in args.entries {
      raw := true;
    }
    if "include_geom" in args.entries {
      raw := true;
    }
    r := Success(raw);
  }

  // ---------------------------------------------------------------- _validate_aggs

  /** The specs `_validate_aggs` keeps: those whose band is at most the raster's band count. */
  function ValidAggs(aggs: seq<AggSpec>, bandCount: int): (r: seq<AggSpec>)
    ensures |r| <= |aggs|
    ensures forall a :: a in r ==> a in aggs && a.band <= bandCount
    decreases |aggs|
  {
    if aggs == [] then []
    else
      var front := ValidAggs(aggs[..|aggs| - 1], bandCount);
      var last := aggs[|aggs| - 1];
      if last.band > bandCount then front else front + [last]
  }

  /** Lines 107-121; `skipped` lists the specs a warning is issued for, in order. */
  method ValidateAggs(aggs: seq<AggSpec>, bandCount: int) returns (validated: seq<AggSpec>, skipped: seq<AggSpec>)
    ensures validated == ValidAggs(aggs, bandCount)
    ensures |validated| + |skipped| == |aggs|
    ensures forall a :: a in skipped <==> a in aggs && a.band > bandCount
  {
    validated, skipped := [], [];
    for i := 0 to |aggs|
      invariant validated == ValidAggs(aggs[..i], bandCount)
      invariant skipped == SkippedAggs(aggs[..i], bandCount)
    {
      ValidAggsStep(aggs, bandCount, i);
      if aggs[i].band > bandCount {
        skipped := skipped + [aggs[i]];
        continue;
      }
      validated := validated + [aggs[i]];
    }
    assert aggs[..|aggs|] == aggs;
    SkippedAggsSplit(aggs, bandCount);
  }

  /** The specs the loop at lines 112-118 warns about and drops, in order. */
  function SkippedAggs(aggs: seq<AggSpec>, bandCount: int): seq<AggSpec>
    decreases |aggs|
  {
    if aggs == [] then []
    else
      var front := SkippedAggs(aggs[..|aggs| - 1], bandCount);
      var last := aggs[|aggs| - 1];
      if last.band > bandCount then front + [last] else front
  }

  /** Validation splits the specs in two: the kept ones and exactly those whose band exceeds the band count. */
  lemma {:induction false} SkippedAggsSplit(aggs: seq<AggSpec>, bandCount: int)
    ensures |ValidAggs(aggs, bandCount)| + |SkippedAggs(aggs, bandCount)| == |aggs|
    ensures forall a :: a in SkippedAggs(aggs, bandCount) <==> a in aggs && a.band > bandCount
    decreases |aggs|
  {
    if aggs != [] {
      var n := |aggs| - 1;
      SkippedAggsSplit(aggs[..n], bandCount);
      assert aggs == aggs[..n] + [aggs[n]];
    }
  }

  /** One more spec of the loop at lines 112-118. */
  lemma ValidAggsStep(aggs: seq<AggSpec>, bandCount: int, i: nat)
    requires i < |aggs|
    ensures ValidAggs(aggs[..i + 1], bandCount) ==
      if aggs[i].band > bandCount then ValidAggs(aggs[..i], bandCount) else ValidAggs(aggs[..i], bandCount) + [aggs[i]]
    ensures SkippedAggs(aggs[..i + 1], bandCount) ==
      if aggs[i].band > bandCount then SkippedAggs(aggs[..i], bandCount) + [aggs[i]] else SkippedAggs(aggs[..i], bandCount)
  {
    assert aggs[..i + 1][..i] == aggs[..i];
  }

  /** Validation distributes over concatenation: each spec is kept or dropped on its own, in place. */
  lemma {:induction false} ValidAggsAppend(a: seq<AggSpec>, b: seq<AggSpec>, bandCount: int)
    ensures ValidAggs(a + b, bandCount) == ValidAggs(a, bandCount) + ValidAggs(b, bandCount)
    decreases |b|
  {
    if b != [] {
      var n := |b| - 1;
      assert (a + b)[..|a + b| - 1] == a + b[..n];
      ValidAggsAppend(a, b[..n], bandCount);
    } else {
      assert a + b == a;
    }
  }

  /** Every spec occurs in the result as often as in the input if its band is valid, and not at all otherwise. */
  lemma {:induction false} ValidAggsCount(aggs: seq<AggSpec>, bandCount: int, x: AggSpec)
    ensures multiset(ValidAggs(aggs, bandCount))[x] == if x.band <= bandCount then multiset(aggs)[x] else 0
    decreases |aggs|
  {
    if aggs != [] {
      var n := |aggs| - 1;
      ValidAggsCount(aggs[..n], bandCount, x);
      assert aggs == aggs[..n] + [aggs[n]];
    }
  }

  /** The kept specs appear in their original relative order: the result picks positions of the input in increasing order. */
  lemma {:induction false} ValidAggsOrder(aggs: seq<AggSpec>, bandCount: int) returns (pos: seq<nat>)
    ensures |pos| == |ValidAggs(aggs, bandCount)|
    ensures forall k :: 0 <= k < |pos| ==> pos[k] < |aggs| && ValidAggs(aggs, bandCount)[k] == aggs[pos[k]]
    ensures forall k, l :: 0 <= k < l < |pos| ==> pos[k] < pos[l]
    decreases |aggs|
  {
    if aggs == [] {
      pos := [];
    } else {
      var n := |aggs| - 1;
      var front := ValidAggsOrder(aggs[..n], bandCount);
      if aggs[n].band > bandCount {
        pos := front;
      } else {
        pos := front + [n];
      }
    }
  }

  /** Validating an already validated list changes nothing. */
  lemma {:induction false} ValidAggsIdempotent(aggs: seq<AggSpec>, bandCount: int)
    ensures ValidAggs(ValidAggs(aggs, bandCount), bandCount) == ValidAggs(aggs, bandCount)
    decreases |aggs|
  {
    if aggs != [] {
      var n := |aggs| - 1;
      var front := ValidAggs(aggs[..n], bandCount);
      ValidAggsIdempotent(aggs[..n], bandCount);
      if aggs[n].band <= bandCount {
        ValidAggsAppend(front, [aggs[n]], bandCount);
        assert ValidAggs([aggs[n]], bandCount) == [aggs[n]] by {
          assert [aggs[n]][..0] == [];
        }
      }
    }
  }

  /** Nothing is dropped exactly when every band is in range. */
  lemma {:induction false} ValidAggsKeepsAll(aggs: seq<AggSpec>, bandCount: int)
    ensures ValidAggs(aggs, bandCount) == aggs <==> forall a :: a in aggs ==> a.band <= bandCount
    decreases |aggs|
  {
    if aggs != [] {
      var n := |aggs| - 1;
      ValidAggsKeepsAll(aggs[..n], bandCount);
      assert aggs == aggs[..n] + [aggs[n]];
      if aggs[n].band > bandCount {
        assert |ValidAggs(aggs, bandCount)| <= n;
      }
    }
  }

  // ---------------------------------------------------------------- all_operations

  /** Every statistic some spec asks for. */
  function RequestedFuncs(aggs: seq<AggSpec>): (r: set<string>)
    ensures forall a, f :: a in aggs && f in a.func ==> f in r
    ensures forall f :: f in r ==> exists a :: a in aggs && f in a.func
  {
    set a, f | a in aggs && f in a.func :: f
  }

  /** The `all_operations` list given to the engine: sorted, each statistic once. */
  function Operations(aggs: seq<AggSpec>): (r: seq<string>)
    ensures StrictlySorted(r)
    ensures forall f :: f in r <==> exists a :: a in aggs && f in a.func
  {
    SortedStrings(RequestedFuncs(aggs))
  }

  /** Lines 214-217: a set updated spec by spec, then sorted. */
  method AllOperations(aggs: seq<AggSpec>) returns (ops: seq<string>)
    ensures StrictlySorted(ops)
    ensures forall f :: f in ops <==> exists a :: a in aggs && f in a.func
    ensures ops == Operations(aggs)
  {
    var all: set<string> := {};
    for i := 0 to |aggs|
      invariant forall f :: f in all <==> exists k :: 0 <= k < i && f in aggs[k].func
    {
      all := all + set f | f in aggs[i].func;
    }
    assert all == RequestedFuncs(aggs);
    ops := SortedStrings(all);
  }

  /** The engine is asked for each statistic once however many specs request it. */
  lemma OperationsHaveNoDuplicates(aggs: seq<AggSpec>)
    ensures forall i, j :: 0 <= i < j < |Operations(aggs)| ==> Operations(aggs)[i] != Operations(aggs)[j]
  {
    var ops := Operations(aggs);
    forall i, j | 0 <= i < j < |ops|
      ensures ops[i] != ops[j]
    {
      BelowIrreflexive(ops[i]);
    }
  }

  // ---------------------------------------------------------------- naming

  /** `f"band_{band}_{func}"`, the engine's own column name for a statistic of a band. */
  function BandColumn(band: int, f: string): (r: string)
    ensures |r| == 6 + |IntToString(band)| + |f|
    ensures r[..5] == "band_" && r[|r| - |f|..] == f
  {
    "band_" + IntToString(band) + "_" + f
  }

  /** Line 241: the result column of each of a spec's statistics, in `func` order. */
  function ResultColumns(spec: AggSpec): (r: seq<string>)
    ensures |r| == |spec.func|
    ensures forall i, j :: 0 <= i < |r| && 0 <= j < |r| && spec.func[i] != spec.func[j] ==> r[i] != r[j]
  {
    var r := seq(|spec.func|, i requires 0 <= i < |spec.func| => BandColumn(spec.band, spec.func[i]));
    assert forall i, j :: 0 <= i < |r| && 0 <= j < |r| && r[i] == r[j] ==> spec.func[i] == spec.func[j] by {
      forall i, j | 0 <= i < |r| && 0 <= j < |r| && r[i] == r[j]
        ensures spec.func[i] == spec.func[j]
      {
        var fi, fj := spec.func[i], spec.func[j];
        assert |fi| == |fj|;
        assert fi == r[i][|r[i]| - |fi|..] == r[j][|r[j]| - |fj|..] == fj;
      }
    }
    r
  }

  /** The naming policy of lines 243-255: default, prefix, or an explicit list that must match `func` in length. */
  function OutputNames(spec: AggSpec): (r: Result<seq<string>, Error>)
    ensures r.Failure? <==> spec.output.Some? && spec.output.value.Names? && |spec.output.value.names| != |spec.func|
    ensures r.Failure? ==> r.error == LengthMismatch(|spec.output.value.names|, |spec.func|)
    ensures r.Success? ==> |r.value| == |spec.func|
    ensures r.Success? && spec.output == None ==> r.value == ResultColumns(spec)
    ensures r.Success? && spec.output.Some? && spec.output.value.Prefix? ==>
      var p := spec.output.value.prefix;
      forall i :: 0 <= i < |spec.func| ==>
        |r.value[i]| > |p| && r.value[i][..|p| + 1] == p + "_" && r.value[i][|p| + 1..] == spec.func[i]
    ensures r.Success? && spec.output.Some? && spec.output.value.Names? ==> r.value == spec.output.value.names
  {
    match spec.output
    case None => Success(ResultColumns(spec))
    case Some(Prefix(p)) =>
      var names := seq(|spec.func|, i requires 0 <= i < |spec.func| => p + "_" + spec.func[i]);
      assert forall i :: 0 <= i < |spec.func| ==>
        |names[i]| > |p| && names[i][..|p| + 1] == p + "_" && names[i][|p| + 1..] == spec.func[i];
      Success(names)
    case Some(Names(ns)) =>
      if |ns| != |spec.func| then Failure(LengthMismatch(|ns|, |spec.func|)) else Success(ns)
  }

  /** Default names read back: the band number and the statistic are recovered from the name. */
  lemma BandColumnParts(band: int, f: string)
    ensures var s := BandColumn(band, f);
            var b := IntToString(band);
            s[..5] == "band_" && IsIntLiteral(s[5..5 + |b|]) && ParseInt(s[5..5 + |b|]) == band
            && s[5 + |b|] == '_' && s[6 + |b|..] == f
  {
    IntToStringRoundTrip(band);
    var s := BandColumn(band, f);
    var b := IntToString(band);
    assert s == "band_" + b + "_" + f;
    assert s[5..5 + |b|] == b;
  }

  /** The `out_cols` list of lines 239-260: each spec's output names in spec order, or the first failed assertion. */
  function OutColumns(aggs: seq<AggSpec>): (r: Result<seq<string>, Error>)
    ensures r.Success? ==> |r.value| == TotalFuncs(aggs)
    ensures r.Failure? ==> r.error.LengthMismatch?
  {
    if aggs == [] then Success([])
    else
      var names :- OutputNames(aggs[0]);
      var rest :- OutColumns(aggs[1..]);
      Success(names + rest)
  }

  function TotalFuncs(aggs: seq<AggSpec>): nat {
    if aggs == [] then 0 else |aggs[0].func| + TotalFuncs(aggs[1..])
  }

  /** `out_cols` holds one name per requested statistic, and fails only on an output list of the wrong length. */
  lemma {:induction false} OutColumnsShape(aggs: seq<AggSpec>)
    ensures OutColumns(aggs).Success? ==> |OutColumns(aggs).value| == TotalFuncs(aggs)
    ensures OutColumns(aggs).Failure? <==> exists a :: a in aggs && OutputNames(a).Failure?
    ensures OutColumns(aggs).Failure? ==> OutColumns(aggs).error.LengthMismatch?
  {
    if aggs != [] {
      OutColumnsShape(aggs[1..]);
      assert forall a :: a in aggs <==> a == aggs[0] || a in aggs[1..];
    }
  }
}
