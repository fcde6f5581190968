/** The Python value `json.load` returns and `json.dump` writes, abstracted
    from JSON text: objects are dicts whose fields keep insertion order. */
module Json {
  import opened Results

  /** Numbers are integers: every coordinate the tool produces comes from an
      integer pointer event. */
  datatype JValue =
    | JNull
    | JBool(b: bool)
    | JNum(n: int)
    | JStr(s: string)
    | JArr(items: seq<JValue>)
    | JObj(fields: seq<(string, JValue)>)

  /** `d[key]` on a dict built by assigning `fields` in order: the last
      assignment to `key` is the one that is kept. */
  function Lookup(fields: seq<(string, JValue)>, key: string): (r: Option<JValue>)
    ensures r.None? <==> forall i :: 0 <= i < |fields| ==> fields[i].0 != key
    ensures r.Some? ==> exists i :: 0 <= i < |fields| && fields[i] == (key, r.value)
                                    && forall j :: i < j < |fields| ==> fields[j].0 != key
    decreases |fields|
  {
    if |fields| == 0 then None
    else if fields[|fields| - 1].0 == key then Some(fields[|fields| - 1].1)
    else Lookup(fields[..|fields| - 1], key)
  }

  /** No key is assigned twice, as in every dict `json.load` returns. */
  predicate DistinctKeys(fields: seq<(string, JValue)>) {
    forall i, j :: 0 <= i < j < |fields| ==> fields[i].0 != fields[j].0
  }

  /** In a dict without repeated keys, `d[key]` is the value stored with `key`. */
  lemma {:induction false} LookupDistinct(fields: seq<(string, JValue)>, i: nat)
    requires DistinctKeys(fields) && i < |fields|
    ensures Lookup(fields, fields[i].0) == Some(fields[i].1)
    decreases |fields|
  {
    if i < |fields| - 1 {
      var prefix := fields[..|fields| - 1];
      assert fields[i] == prefix[i];
      LookupDistinct(prefix, i);
    }
  }

  /** The keys of a dict, in insertion order. */
  function Keys(fields: seq<(string, JValue)>): (ks: seq<string>)
    ensures |ks| == |fields|
    ensures forall i :: 0 <= i < |fields| ==> ks[i] == fields[i].0
  {
    seq(|fields|, i requires 0 <= i < |fields| => fields[i].0)
  }

  /** What Python's iteration protocol yields for a decoded JSON value (as in
      `tuple(v)` or `for x in v`): the items of a list, the one-character
      strings of a string, the keys of a dict; numbers, booleans and `None`
      are not iterable (`TypeError`), modelled as `None`. */
  function Iterate(v: JValue): (r: Option<seq<JValue>>)
    ensures r.None? <==> v.JNull? || v.JBool? || v.JNum?
    ensures v.JArr? ==> r == Some(v.items)
    ensures v.JStr? ==> |r.value| == |v.s|
                        && forall i :: 0 <= i < |v.s| ==> r.value[i] == JStr([v.s[i]])
    ensures v.JObj? ==> |r.value| == |v.fields|
                        && forall i :: 0 <= i < |v.fields| ==> r.value[i] == JStr(v.fields[i].0)
  {
    match v
    case JArr(items) => Some(items)
    case JStr(s) => Some(seq(|s|, i requires 0 <= i < |s| => JStr([s[i]])))
    case JObj(fields) => Some(seq(|fields|, i requires 0 <= i < |fields| => JStr(fields[i].0)))
    case _ => None
  }
}
