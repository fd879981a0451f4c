/** Decoded JSON as the Python code sees it (dicts keep insertion order), with the
    Python operations the core applies to such values: `dict.get`, truthiness,
    `str()`, iteration and the merge `{**a, **b}`. */
module Json {
  import opened Wrappers
  import opened Strings

  datatype Json =
    | Null
    | Bool(b: bool)
    | Int(i: int)
    | Str(s: string)
    | Arr(items: seq<Json>)
    | Obj(fields: seq<(string, Json)>)

  function Keys(fields: seq<(string, Json)>): (ks: seq<string>)
    ensures |ks| == |fields|
    ensures forall i :: 0 <= i < |fields| ==> ks[i] == fields[i].0
  {
    seq(|fields|, i requires 0 <= i < |fields| => fields[i].0)
  }

  /** `d.get(key)`: the value stored under the first occurrence of `key`. */
  function Get(fields: seq<(string, Json)>, key: string): (r: Option<Json>)
    ensures r.None? <==> key !in Keys(fields)
    ensures r.Some? ==> exists i :: 0 <= i < |fields| && fields[i] == (key, r.value)
  {
    if fields == [] then None
    else if fields[0].0 == key then Some(fields[0].1)
    else
      assert Keys(fields) == [fields[0].0] + Keys(fields[1..]);
      var r := Get(fields[1..], key);
      assert r.Some? ==> exists i :: 0 <= i < |fields| && fields[i] == (key, r.value) by {
        if r.Some? {
          var i :| 0 <= i < |fields[1..]| && fields[1..][i] == (key, r.value);
          assert fields[i + 1] == (key, r.value);
        }
      }
      r
  }

  /** `key in d` for a value that is a dict. */
  predicate HasKey(j: Json, key: string)
  {
    j.Obj? && key in Keys(j.fields)
  }

  /** Python truthiness: None, False, 0, "" and empty containers are false. */
  predicate Truthy(j: Json)
  {
    match j
    case Null => false
    case Bool(b) => b
    case Int(i) => i != 0
    case Str(s) => s != []
    case Arr(items) => items != []
    case Obj(fields) => fields != []
  }

  /** `str(j)`: a string is itself, anything else its repr. */
  function PyStr(j: Json): string
  {
    if j.Str? then j.s else PyRepr(j)
  }

  /** `repr(j)`, with strings single-quoted (escaping is not modelled). */
  function PyRepr(j: Json): string
    decreases j, 1
  {
    match j
    case Null => "None"
    case Bool(b) => if b then "True" else "False"
    case Int(i) => IntStr(i)
    case Str(s) => "'" + s + "'"
    case Arr(items) => "[" + ReprItems(j, 0) + "]"
    case Obj(fields) => "{" + ReprFields(j, 0) + "}"
  }

  function ReprItems(j: Json, k: nat): string
    requires j.Arr? && k <= |j.items|
    decreases j, 0, |j.items| - k
  {
    if k == |j.items| then ""
    else (if k > 0 then ", " else "") + PyRepr(j.items[k]) + ReprItems(j, k + 1)
  }

  function ReprFields(j: Json, k: nat): string
    requires j.Obj? && k <= |j.fields|
    decreases j, 0, |j.fields| - k
  {
    if k == |j.fields| then ""
    else
      assert j.fields[k].1 < j;
      (if k > 0 then ", " else "") + "'" + j.fields[k].0 + "': " + PyRepr(j.fields[k].1) + ReprFields(j, k + 1)
  }

  /** `for x in j`: a list yields its items, a string its characters, a dict its keys;
      anything else is not iterable. */
  function Iterate(j: Json): (r: Result<seq<Json>>)
    ensures r.Ok? <==> (j.Arr? || j.Str? || j.Obj?)
    ensures j.Arr? ==> r == Ok(j.items)
    ensures j.Str? ==> r.Ok? && |r.value| == |j.s|
    ensures j.Obj? ==> r.Ok? && |r.value| == |j.fields|
  {
    match j
    case Arr(items) => Ok(items)
    case Str(s) => Ok(seq(|s|, i requires 0 <= i < |s| => Str([s[i]])))
    case Obj(fields) => Ok(seq(|fields|, i requires 0 <= i < |fields| => Str(fields[i].0)))
    case _ => Err(TypeError("object is not iterable"))
  }

  /** `{**a, **b}`: the keys of `a` in their order, then the keys only `b` has;
      where both have a key, `b`'s value. */
  function Merge(a: seq<(string, Json)>, b: seq<(string, Json)>): (r: seq<(string, Json)>)
    ensures forall key :: Get(r, key) == (if Get(b, key).Some? then Get(b, key) else Get(a, key))
  {
    var front := seq(|a|, i requires 0 <= i < |a| =>
      (a[i].0, match Get(b, a[i].0) { case Some(v) => v case None => a[i].1 }));
    var back := OnlyIn(b, a);
    MergeGet(a, b, front, back);
    front + back
  }

  /** The entries of `b` whose key `a` does not have, in `b`'s order. */
  function OnlyIn(b: seq<(string, Json)>, a: seq<(string, Json)>): (r: seq<(string, Json)>)
    ensures forall key :: key !in Keys(a) ==> Get(r, key) == Get(b, key)
    ensures forall key :: key in Keys(a) ==> Get(r, key).None?
  {
    if b == [] then []
    else
      var rest := OnlyIn(b[1..], a);
      if b[0].0 in Keys(a) then rest else [b[0]] + rest
  }

  lemma {:induction false} GetAppend(x: seq<(string, Json)>, y: seq<(string, Json)>, key: string)
    ensures Get(x + y, key) == (if Get(x, key).Some? then Get(x, key) else Get(y, key))
  {
    if x != [] {
      var xy := x + y;
      assert xy != [] && xy[0] == x[0] && xy[1..] == x[1..] + y;
      if x[0].0 != key {
        assert Get(xy, key) == Get(xy[1..], key);
        assert Get(x, key) == Get(x[1..], key);
        GetAppend(x[1..], y, key);
      }
    } else {
      assert x + y == y;
    }
  }

  lemma {:induction false} MergeGet(a: seq<(string, Json)>, b: seq<(string, Json)>,
                                    front: seq<(string, Json)>, back: seq<(string, Json)>)
    requires |front| == |a|
    requires forall i :: 0 <= i < |a| ==> front[i] == (a[i].0, match Get(b, a[i].0) { case Some(v) => v case None => a[i].1 })
    requires back == OnlyIn(b, a)
    ensures forall key :: Get(front + back, key) == (if Get(b, key).Some? then Get(b, key) else Get(a, key))
  {
    forall key ensures Get(front + back, key) == (if Get(b, key).Some? then Get(b, key) else Get(a, key)) {
      GetAppend(front, back, key);
      FrontGet(a, b, front, key);
    }
  }

  lemma {:induction false} FrontGet(a: seq<(string, Json)>, b: seq<(string, Json)>,
                                    front: seq<(string, Json)>, key: string)
    requires |front| == |a|
    requires forall i :: 0 <= i < |a| ==> front[i] == (a[i].0, match Get(b, a[i].0) { case Some(v) => v case None => a[i].1 })
    ensures Get(front, key).Some? <==> Get(a, key).Some?
    ensures Get(a, key).Some? ==> Get(front, key) == (if Get(b, key).Some? then Get(b, key) else Get(a, key))
  {
    if a != [] {
      FrontGet(a[1..], b, front[1..], key);
    }
  }
}
