/**
 * `create_raster_zonal_stats`: the thin layer over `rasterstats.zonal_stats`. The model covers
 * what the entry point decides itself: which of the caller's `extra_args` reach the engine,
 * the nodata value filled in from the raster, and the renaming of the engine's columns.
 */
module RasterStats {
  import opened Wrappers
  import opened Args

  /**
   * An aggregation after `_fix_agg`: the column used as the prefix, the statistics, and one
   * output name per statistic. The pairing of `output` with `func` is what `_fix_agg` establishes.
   */
  datatype FixedAgg = FixedAgg(column: string, func: seq<string>, output: seq<string>)

  predicate WellFormed(agg: FixedAgg) {
    |agg.output| == |agg.func|
  }

  /** The keys lines 50-65 remove from `extra_args`. */
  const StrippedKeysAsWritten: set<string> :=
    {"stats", "geojson_out", "categorical", "categorical_map", "prefix", "add_stats"}

  /** The same keys plus `category_map`, the name under which the call passes the category map itself. */
  const StrippedKeys: set<string> := StrippedKeysAsWritten + {"category_map"}

  /** The keyword arguments the call to the engine spells out next to `**extra_args`. */
  const ExplicitKeywords: set<string> :=
    {"vectors", "raster", "stats", "geojson_out", "categorical", "category_map", "prefix"}

  /** The value of `extra_args` when the caller passes none; Python builds it once, when the function is defined. */
  function DefaultExtraArgs(): (r: map<string, Value>)
    ensures "nodata" in r && r["nodata"] == NoneValue
    ensures r.Keys !! StrippedKeys && Clashes(r) == {}
  {
    map["layer" := Int(0), "band_num" := Int(1), "nodata" := NoneValue, "affine" := NoneValue,
        "all_touched" := Bool(false)]
  }

  /**
   * `extra_args` after its normalisation: the keys in `stripped` are gone, a `nodata` of `None`
   * is replaced by the raster's own nodata value, and every other entry is left as it was.
   */
  function Normalised(args: map<string, Value>, rasterNodata: Value, stripped: set<string>): (r: map<string, Value>)
    requires "nodata" !in stripped
    ensures forall k :: k in stripped ==> k !in r
    ensures "nodata" in r <==> "nodata" in args
    ensures "nodata" in args ==>
      r["nodata"] == if args["nodata"] == NoneValue then rasterNodata else args["nodata"]
    ensures forall k :: k !in stripped ==> (k in r <==> k in args)
    ensures forall k :: k in r && k != "nodata" ==> k in args && r[k] == args[k]
  {
    var kept := args - stripped;
    if "nodata" in kept && kept["nodata"] == NoneValue then kept["nodata" := rasterNodata] else kept
  }

  /** `if key in d: d.pop(key)`, the guarded removal each of lines 50-65 performs. */
  method PopIfPresent(args: ArgDict, key: string)
    modifies args
    ensures args.entries == old(args.entries) - {key}
  {
    if key in args.entries {
      var popped := args.Pop(key);
    }
  }

  lemma RemoveOneMore(m: map<string, Value>, gone: set<string>, key: string)
    ensures (m - gone) - {key} == m - (gone + {key})
  {
  }

  /** Lines 67-72: a `nodata` of `None` is replaced by the raster's own nodata value. */
  method FillNodata(args: ArgDict, rasterNodata: Value)
    modifies args
    ensures args.entries ==
      if "nodata" in old(args.entries) && old(args.entries)["nodata"] == NoneValue
      then old(args.entries)["nodata" := rasterNodata] else old(args.entries)
  {
    if "nodata" in args.entries {
      var nodata := args.entries["nodata"];
      if nodata == NoneValue {
        var popped := args.Pop("nodata");
        args.Put("nodata", rasterNodata);
        assert args.entries == old(args.entries)["nodata" := rasterNodata];
      }
    }
  }

  /** Lines 50-65: the guarded removals, one key after another. */
  method StripKeys(args: ArgDict)
    modifies args
    ensures args.entries == old(args.entries) - StrippedKeysAsWritten
  {
    ghost var start := args.entries;
    PopIfPresent(args, "stats");
    PopIfPresent(args, "geojson_out");
    RemoveOneMore(start, {"stats"}, "geojson_out");
    PopIfPresent(args, "categorical");
    RemoveOneMore(start, {"stats", "geojson_out"}, "categorical");
    PopIfPresent(args, "categorical_map");
    RemoveOneMore(start, {"stats", "geojson_out", "categorical"}, "categorical_map");
    PopIfPresent(args, "prefix");
    RemoveOneMore(start, {"stats", "geojson_out", "categorical", "categorical_map"}, "prefix");
    PopIfPresent(args, "add_stats");
    RemoveOneMore(start, {"stats", "geojson_out", "categorical", "categorical_map", "prefix"}, "add_stats");
  }

  /** Lines 50-72, editing the caller's dictionary in place; `rasterNodata` is what `rasterio.open(data).nodata` reads. */
  method NormaliseExtraArgs(args: ArgDict, rasterNodata: Value)
    modifies args
    ensures args.entries == Normalised(old(args.entries), rasterNodata, StrippedKeysAsWritten)
  {
    StripKeys(args);
    FillNodata(args, rasterNodata);
  }

  /**
   * Two calls that both leave `extra_args` to its default, on rasters whose nodata values are
   * `nodataA` and `nodataB`: the `nodata` each engine call receives. The default dictionary is
   * one object, so the first call's edit is still there when the second call reads it.
   */
  method SharedDefaultCalls(agg: FixedAgg, engineColumns: seq<string>, nodataA: Value, nodataB: Value)
    returns (first: Value, second: Value)
    requires WellFormed(agg) && nodataA != NoneValue
    ensures first == nodataA
    ensures second == nodataA
  {
    var defaults := new ArgDict(DefaultExtraArgs());
    var runA := CreateRasterZonalStats(agg, defaults, nodataA, engineColumns);
    first := NodataSent(runA);
    var runB := CreateRasterZonalStats(agg, defaults, nodataB, engineColumns);
    second := NodataSent(runB);
  }

  /** The `nodata` keyword an engine call received, or `None` when there was no call. */
  function NodataSent(r: Result<EngineRun, CallError>): Value {
    if r.Success? && "nodata" in r.value.kwargs then r.value.kwargs["nodata"] else NoneValue
  }

  /**
   * The keyword arguments the engine receives, normalised on a copy so that the caller's
   * dictionary, and the shared default, stay as they were.
   */
  method CallArgs(args: ArgDict, rasterNodata: Value) returns (call: map<string, Value>)
    ensures call == Normalised(args.entries, rasterNodata, StrippedKeys)
  {
    var scratch := new ArgDict(args.entries);
    NormaliseExtraArgs(scratch, rasterNodata);
    if "category_map" in scratch.entries {
      var popped := scratch.Pop("category_map");
    }
    call := scratch.entries;
  }

  /** The two calls of SharedDefaultCalls through the corrected entry point: each sees its own raster's nodata. */
  method SharedDefaultCallsCorrected(agg: FixedAgg, engineColumns: seq<string>, nodataA: Value, nodataB: Value)
    returns (first: Value, second: Value)
    requires WellFormed(agg)
    ensures first == nodataA
    ensures second == nodataB
  {
    var defaults := new ArgDict(DefaultExtraArgs());
    var runA := CreateRasterZonalStatsCorrected(agg, defaults, nodataA, engineColumns);
    first := NodataSent(runA);
    var runB := CreateRasterZonalStatsCorrected(agg, defaults, nodataB, engineColumns);
    second := NodataSent(runB);
  }

  /** Keywords that reach the call twice, once spelled out and once through `**extra_args`; Python raises `TypeError` for each. */
  function Clashes(kwargs: map<string, Value>): (r: set<string>)
    ensures r <= ExplicitKeywords && r <= kwargs.Keys
    ensures forall k :: k in kwargs && k in ExplicitKeywords ==> k in r
  {
    kwargs.Keys * ExplicitKeywords
  }

  /** A category map passed as `category_map` survives lines 50-72 and reaches the call twice. */
  lemma CategoryMapClashes(categories: Value, rasterNodata: Value)
    ensures Clashes(Normalised(map["category_map" := categories], rasterNodata, StrippedKeysAsWritten)) == {"category_map"}
  {
    var r := Normalised(map["category_map" := categories], rasterNodata, StrippedKeysAsWritten);
    assert r == map["category_map" := categories];
  }

  /** With `category_map` stripped too, only `vectors` and `raster`, which no option of the engine uses, can clash. */
  lemma ClashesOnlyOnInputs(args: map<string, Value>, rasterNodata: Value)
    ensures Clashes(Normalised(args, rasterNodata, StrippedKeys)) <= {"vectors", "raster"}
    ensures "vectors" !in args && "raster" !in args ==> Clashes(Normalised(args, rasterNodata, StrippedKeys)) == {}
  {
    var r := Normalised(args, rasterNodata, StrippedKeys);
    forall k | k in Clashes(r)
      ensures k == "vectors" || k == "raster"
    {
      assert k in ExplicitKeywords && k !in StrippedKeys;
    }
  }

  /**
   * `renamed_columns` (lines 77-81) over `funcs` and `outputs`, with `prefix` the column name and
   * an underscore. A dictionary comprehension keeps the last value written for a key.
   */
  function RenameMap(prefix: string, funcs: seq<string>, outputs: seq<string>): (r: map<string, string>)
    requires |funcs| == |outputs|
    ensures forall k :: k in r ==> r[k] != k
    decreases |funcs|
  {
    if funcs == [] then map[]
    else
      var n := |funcs| - 1;
      var m := RenameMap(prefix, funcs[..n], outputs[..n]);
      var key := prefix + funcs[n];
      if key != outputs[n] then m[key := outputs[n]] else m
  }

  /** Position `i` asks for a renaming: its output name differs from the engine's column name. */
  predicate Renames(prefix: string, funcs: seq<string>, outputs: seq<string>, i: int)
    requires |funcs| == |outputs| && 0 <= i < |funcs|
  {
    prefix + funcs[i] != outputs[i]
  }

  /** No later position with the same statistic asks for a renaming: position `i` writes the key last. */
  predicate LastRenaming(prefix: string, funcs: seq<string>, outputs: seq<string>, i: int)
    requires |funcs| == |outputs| && 0 <= i < |funcs|
  {
    forall j :: i < j < |funcs| && funcs[j] == funcs[i] ==> !Renames(prefix, funcs, outputs, j)
  }

  /** The keys of `renamed_columns` are exactly the engine columns whose requested name differs. */
  lemma {:induction false} RenameMapKeys(prefix: string, funcs: seq<string>, outputs: seq<string>, k: string)
    requires |funcs| == |outputs|
    ensures k in RenameMap(prefix, funcs, outputs) <==>
      exists i :: 0 <= i < |funcs| && prefix + funcs[i] == k && Renames(prefix, funcs, outputs, i)
    decreases |funcs|
  {
    if funcs != [] {
      var n := |funcs| - 1;
      var fs, os := funcs[..n], outputs[..n];
      RenameMapKeys(prefix, fs, os, k);
      assert forall i :: 0 <= i < n ==> fs[i] == funcs[i] && os[i] == outputs[i];
      if k in RenameMap(prefix, funcs, outputs) && !(k == prefix + funcs[n] && Renames(prefix, funcs, outputs, n)) {
        var i :| 0 <= i < n && prefix + fs[i] == k && Renames(prefix, fs, os, i);
        assert Renames(prefix, funcs, outputs, i);
      }
      if exists i :: 0 <= i < |funcs| && prefix + funcs[i] == k && Renames(prefix, funcs, outputs, i) {
        var i :| 0 <= i < |funcs| && prefix + funcs[i] == k && Renames(prefix, funcs, outputs, i);
        if i < n {
          assert Renames(prefix, fs, os, i);
        }
      }
    }
  }

  /** The value under a key is the output name of the last position that renames it. */
  lemma {:induction false} RenameMapValue(prefix: string, funcs: seq<string>, outputs: seq<string>, i: int)
    requires |funcs| == |outputs| && 0 <= i < |funcs|
    requires Renames(prefix, funcs, outputs, i) && LastRenaming(prefix, funcs, outputs, i)
    ensures prefix + funcs[i] in RenameMap(prefix, funcs, outputs)
    ensures RenameMap(prefix, funcs, outputs)[prefix + funcs[i]] == outputs[i]
    decreases |funcs|
  {
    var n := |funcs| - 1;
    if i < n {
      var fs, os := funcs[..n], outputs[..n];
      assert forall j :: 0 <= j < n ==> fs[j] == funcs[j] && os[j] == outputs[j];
      assert Renames(prefix, fs, os, i);
      assert LastRenaming(prefix, fs, os, i);
      RenameMapValue(prefix, fs, os, i);
      if prefix + funcs[n] == prefix + funcs[i] {
        PrefixCancels(prefix, funcs[n], funcs[i]);
      }
    }
  }

  function RenamedColumns(agg: FixedAgg): map<string, string>
    requires WellFormed(agg)
  {
    RenameMap(agg.column + "_", agg.func, agg.output)
  }

  /** `DataFrame.rename(columns=m)`: a label that `m` maps is replaced, any other label stays. */
  function RenameColumns(cols: seq<string>, m: map<string, string>): (r: seq<string>)
    ensures |r| == |cols|
    ensures forall i :: 0 <= i < |cols| && cols[i] in m ==> r[i] == m[cols[i]]
    ensures forall i :: 0 <= i < |cols| && cols[i] !in m ==> r[i] == cols[i]
  {
    seq(|cols|, i requires 0 <= i < |cols| => if cols[i] in m then m[cols[i]] else cols[i])
  }

  /** The columns `rs.zonal_stats` produces for `stats` under `prefix`: the prefix followed by each statistic. */
  function EngineColumns(agg: FixedAgg): seq<string> {
    seq(|agg.func|, i requires 0 <= i < |agg.func| => agg.column + "_" + agg.func[i])
  }

  predicate Distinct(xs: seq<string>) {
    forall i, j :: 0 <= i < j < |xs| ==> xs[i] != xs[j]
  }

  lemma PrefixCancels(prefix: string, a: string, b: string)
    requires prefix + a == prefix + b
    ensures a == b
  {
    assert a == (prefix + a)[|prefix|..];
    assert b == (prefix + b)[|prefix|..];
  }

  /** Renaming the engine's columns with `renamed_columns` gives exactly the requested output names, in order. */
  lemma RenamedEngineColumnsAreOutputs(agg: FixedAgg)
    requires WellFormed(agg) && Distinct(agg.func)
    ensures RenameColumns(EngineColumns(agg), RenamedColumns(agg)) == agg.output
  {
    var prefix := agg.column + "_";
    var m := RenamedColumns(agg);
    var cols := EngineColumns(agg);
    var r := RenameColumns(cols, m);
    forall i | 0 <= i < |agg.func|
      ensures r[i] == agg.output[i]
    {
      assert cols[i] == prefix + agg.func[i];
      if Renames(prefix, agg.func, agg.output, i) {
        RenameMapValue(prefix, agg.func, agg.output, i);
      } else {
        RenameMapKeys(prefix, agg.func, agg.output, cols[i]);
        if cols[i] in m {
          var j :| 0 <= j < |agg.func| && prefix + agg.func[j] == cols[i] && Renames(prefix, agg.func, agg.output, j);
          PrefixCancels(prefix, agg.func[j], agg.func[i]);
        }
      }
    }
  }

  /** What `create_raster_zonal_stats` hands to the engine, and the columns it keeps from its answer. */
  datatype EngineRun = EngineRun(stats: seq<string>, prefix: string, kwargs: map<string, Value>, columns: seq<string>)

  datatype CallError = DuplicateKeywords(names: set<string>)

  /**
   * `create_raster_zonal_stats` up to the join with the areas of interest. Lines 50-72 edit the
   * caller's `extra_args`, or the shared default, in place. `engineColumns` are the columns of
   * the engine's records.
   */
  method CreateRasterZonalStats(agg: FixedAgg, args: ArgDict, rasterNodata: Value, engineColumns: seq<string>)
    returns (r: Result<EngineRun, CallError>)
    requires WellFormed(agg)
    modifies args
    ensures args.entries == Normalised(old(args.entries), rasterNodata, StrippedKeysAsWritten)
    ensures r.Failure? <==> Clashes(args.entries) != {}
    ensures r.Failure? ==> r.error.names == Clashes(args.entries)
    ensures "category_map" in old(args.entries) ==> r.Failure? && "category_map" in r.error.names
    ensures r.Success? ==> r.value.stats == agg.func && r.value.prefix == agg.column + "_"
    ensures r.Success? ==> r.value.kwargs == args.entries
    ensures r.Success? ==> r.value.columns == RenameColumns(engineColumns, RenamedColumns(agg))
    ensures r.Success? && engineColumns == EngineColumns(agg) && Distinct(agg.func) ==>
      r.value.columns == agg.output
  {
    NormaliseExtraArgs(args, rasterNodata);
    var clashes := Clashes(args.entries);
    if clashes != {} {
      return Failure(DuplicateKeywords(clashes));
    }
    var renamed := RenamedColumns(agg);
    var columns := RenameColumns(engineColumns, renamed);
    if engineColumns == EngineColumns(agg) && Distinct(agg.func) {
      RenamedEngineColumnsAreOutputs(agg);
    }
    r := Success(EngineRun(agg.func, agg.column + "_", args.entries, columns));
  }

  /**
   * The entry point with `extra_args` normalised on a copy, `category_map` stripped as well, so
   * that the caller's dictionary and the shared default stay as they were.
   */
  method CreateRasterZonalStatsCorrected(agg: FixedAgg, args: ArgDict, rasterNodata: Value, engineColumns: seq<string>)
    returns (r: Result<EngineRun, CallError>)
    requires WellFormed(agg)
    ensures r.Failure? <==> Clashes(Normalised(args.entries, rasterNodata, StrippedKeys)) != {}
    ensures r.Failure? ==> r.error.names <= {"vectors", "raster"}
    ensures r.Success? ==> r.value.stats == agg.func && r.value.prefix == agg.column + "_"
    ensures r.Success? ==> r.value.kwargs == Normalised(args.entries, rasterNodata, StrippedKeys)
    ensures r.Success? ==> r.value.columns == RenameColumns(engineColumns, RenamedColumns(agg))
    ensures r.Success? && engineColumns == EngineColumns(agg) && Distinct(agg.func) ==>
      r.value.columns == agg.output
  {
    var kwargs := CallArgs(args, rasterNodata);
    var clashes := Clashes(kwargs);
    if clashes != {} {
      ClashesOnlyOnInputs(args.entries, rasterNodata);
      return Failure(DuplicateKeywords(clashes));
    }
    var renamed := RenamedColumns(agg);
    var columns := RenameColumns(engineColumns, renamed);
    if engineColumns == EngineColumns(agg) && Distinct(agg.func) {
      RenamedEngineColumnsAreOutputs(agg);
    }
    r := Success(EngineRun(agg.func, agg.column + "_", kwargs, columns));
  }
}
