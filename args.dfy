/**
 * The `extra_args` keyword dictionaries of both entry points. Python passes a `dict` by
 * reference and the entry points edit it with `pop` and item assignment, so the dictionary
 * is an object whose one field, `entries`, those edits reassign.
 */
module Args {

  /** The Python values that appear in `extra_args`; anything else is `Other`, known only by its text. */
  datatype Value =
    | NoneValue
    | Bool(b: bool)
    | Int(i: int)
    | Real(r: real)
    | Str(s: string)
    | Other(repr: string)

  class ArgDict {
    var entries: map<string, Value>

    constructor (initial: map<string, Value>)
      ensures entries == initial
    {
      entries := initial;
    }

    /** `d.pop(key)`: removes the key and returns its value; without a default it raises `KeyError` on a missing key. */
    method Pop(key: string) returns (v: Value)
      requires key in entries
      modifies this
      ensures v == old(entries)[key]
      ensures entries == old(entries) - {key}
    {
      v := entries[key];
      entries := entries - {key};
    }

    /** `d[key] = v`. */
    method Put(key: string, v: Value)
      modifies this
      ensures entries == old(entries)[key := v]
    {
      entries := entries[key := v];
    }
  }
}
