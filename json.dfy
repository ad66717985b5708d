/** Decoded JSON values as `json.loads` hands them to the tool, and the few
    Python operations the tool applies to them: truthiness, `d[key]`,
    `xs[0]` and iteration over a dict's keys. */
module Json {
  import opened Wrappers

  /** An object keeps its members in document order, duplicates included,
      because Python's dict keeps the first position and the last value. */
  datatype Json =
    | Null
    | Bool(b: bool)
    | Num(n: int)
    | Str(s: string)
    | Arr(items: seq<Json>)
    | Obj(fields: seq<(string, Json)>)

  /** Python's `bool(value)` for a decoded value. */
  predicate Truthy(j: Json) {
    match j
    case Null => false
    case Bool(b) => b
    case Num(n) => n != 0
    case Str(s) => s != ""
    case Arr(items) => items != []
    case Obj(fields) => fields != []
  }

  predicate Distinct<T(==)>(xs: seq<T>) {
    forall i, j :: 0 <= i < j < |xs| ==> xs[i] != xs[j]
  }

  predicate HasKey(fields: seq<(string, Json)>, key: string) {
    exists i :: 0 <= i < |fields| && fields[i].0 == key
  }

  /** The value a Python dict built from `fields` holds under `key`: the
      last member with that name wins. */
  function Lookup(fields: seq<(string, Json)>, key: string): (r: Option<Json>)
    ensures r.None? <==> !HasKey(fields, key)
    ensures r.Some? ==> exists i :: 0 <= i < |fields| && fields[i] == (key, r.value) &&
                                    forall j :: i < j < |fields| ==> fields[j].0 != key
  {
    if fields == [] then None
    else if fields[|fields| - 1].0 == key then Some(fields[|fields| - 1].1)
    else
      var r := Lookup(fields[..|fields| - 1], key);
      assert forall i :: 0 <= i < |fields| - 1 ==> fields[..|fields| - 1][i] == fields[i];
      r
  }

  /** The keys of the dict built from `fields`, in the order Python iterates
      them: each name once, at the position of its first occurrence. */
  function Keys(fields: seq<(string, Json)>): (r: seq<string>)
    ensures Distinct(r)
    ensures forall k :: k in r <==> HasKey(fields, k)
  {
    if fields == [] then []
    else
      var init := fields[..|fields| - 1];
      var ks := Keys(init);
      var k := fields[|fields| - 1].0;
      assert forall i :: 0 <= i < |init| ==> init[i] == fields[i];
      if k in ks then ks else ks + [k]
  }

  /** Keys come in first-occurrence order: the keys of the first `n` members
      are, in the same order, the first keys of the whole object. */
  lemma {:induction false} KeysInOrder(fields: seq<(string, Json)>, n: nat)
    requires n <= |fields|
    ensures Keys(fields[..n]) <= Keys(fields)
    decreases |fields| - n
  {
    if n == |fields| {
      assert fields[..n] == fields;
    } else {
      var init := fields[..|fields| - 1];
      KeysInOrder(init, n);
      assert init[..n] == fields[..n];
      assert Keys(init) <= Keys(fields);
    }
  }

  /** `j[key]`: a KeyError or TypeError unless `j` is an object holding `key`. */
  function Member(j: Json, key: string): (r: Result<Json>)
    ensures r.Ok? <==> j.Obj? && HasKey(j.fields, key)
    ensures r.Ok? ==> Some(r.value) == Lookup(j.fields, key)
    ensures r.Err? ==> r.error == Malformed
  {
    if !j.Obj? then Err(Malformed)
    else match Lookup(j.fields, key)
      case None => Err(Malformed)
      case Some(v) => Ok(v)
  }

  /** `j[0]`: the first element of a non-empty array. */
  function First(j: Json): (r: Result<Json>)
    ensures r.Ok? <==> j.Arr? && j.items != []
    ensures r.Ok? ==> r.value == j.items[0]
    ensures r.Err? ==> r.error == Malformed
  {
    if j.Arr? && j.items != [] then Ok(j.items[0]) else Err(Malformed)
  }

  /** `record[key]` read as an identifier: the member must be a string. */
  function Text(record: Json, key: string): (r: Result<string>)
    ensures r.Ok? <==> record.Obj? && HasKey(record.fields, key) &&
                       Lookup(record.fields, key).value.Str?
    ensures r.Ok? ==> Lookup(record.fields, key) == Some(Str(r.value))
    ensures r.Err? ==> r.error == Malformed
  {
    var v :- Member(record, key);
    if v.Str? then Ok(v.s) else Err(Malformed)
  }
}
