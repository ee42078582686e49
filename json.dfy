/** JSON values as Python's `json` module produces them: dicts become
    `JObj` (keys unique), lists `JArr`, numbers `JNum` (exact). */
module Json {
  import opened Wrappers

  datatype Json =
    | JNull
    | JBool(b: bool)
    | JNum(n: real)
    | JStr(s: string)
    | JArr(items: seq<Json>)
    | JObj(fields: map<string, Json>)

  /** The empty object `{}`. */
  const EmptyObject: Json := JObj(map[])

  /** `j[key]` on an object; `None` where Python would raise. */
  function Get(j: Json, key: string): (r: Option<Json>)
    ensures r.Some? <==> j.JObj? && key in j.fields
  {
    if j.JObj? && key in j.fields then Some(j.fields[key]) else None
  }

  /** `j[k1][k2]...` along a path of object keys. */
  function At(j: Json, path: seq<string>): Option<Json> {
    if path == [] then Some(j)
    else match Get(j, path[0])
      case None => None
      case Some(child) => At(child, path[1..])
  }

  /** A list of strings, `["a", "b"]`. */
  function Strings(ss: seq<string>): (r: Json)
    ensures r.JArr? && |r.items| == |ss|
    ensures forall i :: 0 <= i < |ss| ==> r.items[i] == JStr(ss[i])
  {
    JArr(seq(|ss|, i requires 0 <= i < |ss| => JStr(ss[i])))
  }

  lemma AtCons(j: Json, key: string, rest: seq<string>)
    ensures At(j, [key] + rest) == if Get(j, key).Some? then At(Get(j, key).value, rest) else None
  {
    assert ([key] + rest)[1..] == rest;
  }

  /** Following `p + q` is following `p`, then `q`. */
  lemma {:induction false} AtConcat(j: Json, p: seq<string>, q: seq<string>)
    ensures At(j, p + q) == if At(j, p).Some? then At(At(j, p).value, q) else None
  {
    if p == [] {
      assert p + q == q;
    } else {
      assert (p + q)[0] == p[0];
      assert (p + q)[1..] == p[1..] + q;
      if Get(j, p[0]).Some? {
        AtConcat(Get(j, p[0]).value, p[1..], q);
      }
    }
  }
}
