/** A label: a text tag on a rectangular region of one page, and its
    dict codec `to_dict` / `from_dict`. */
module Labels {
  import opened Results
  import opened Json

  /** The constructor copies its four arguments unchanged: nothing ties `x`
      and `y` to the box, and the box may have any number of coordinates. */
  datatype Label = Label(x: int, y: int, text: string, bbox: seq<int>)

  /** Why a decoded JSON value could not be turned into labels. */
  datatype DecodeError =
    | NotSubscriptable            // `data['x']` on a value that is not a dict
    | MissingKey(key: string)     // `KeyError` for one of the four record keys
    | NotIterable                 // `tuple(...)` or a `for` over a number, boolean or null
    | WrongType(key: string)      // a field of a type the model does not store
    | BadPageKey(key: string)     // `int(...)` rejects a page key
    | NotADict                    // `.items()` on a top level that is not a dict

  /** The four keys of a serialised label, in the order `to_dict` writes them. */
  const RecordKeys: seq<string> := ["x", "y", "label", "bbox"]

  function Numbers(ns: seq<int>): (r: seq<JValue>)
    ensures |r| == |ns|
    ensures forall i :: 0 <= i < |ns| ==> r[i] == JNum(ns[i])
  {
    seq(|ns|, i requires 0 <= i < |ns| => JNum(ns[i]))
  }

  predicate AllNumbers(vs: seq<JValue>) {
    forall i :: 0 <= i < |vs| ==> vs[i].JNum?
  }

  function NumberValues(vs: seq<JValue>): (ns: seq<int>)
    requires AllNumbers(vs)
    ensures Numbers(ns) == vs
  {
    seq(|vs|, i requires 0 <= i < |vs| => vs[i].n)
  }

  /** `to_dict`: the text is written under the key `label`, the box as an array. */
  function ToDict(l: Label): (v: JValue)
    ensures v.JObj? && Keys(v.fields) == RecordKeys
    ensures Lookup(v.fields, "x") == Some(JNum(l.x))
    ensures Lookup(v.fields, "y") == Some(JNum(l.y))
    ensures Lookup(v.fields, "label") == Some(JStr(l.text))
    ensures Lookup(v.fields, "bbox") == Some(JArr(Numbers(l.bbox)))
  {
    var v := JObj([("x", JNum(l.x)), ("y", JNum(l.y)), ("label", JStr(l.text)),
                   ("bbox", JArr(Numbers(l.bbox)))]);
    assert Keys(v.fields) == RecordKeys;
    assert DistinctKeys(v.fields);
    LookupDistinct(v.fields, 0);
    LookupDistinct(v.fields, 1);
    LookupDistinct(v.fields, 2);
    LookupDistinct(v.fields, 3);
    v
  }

  predicate HasRecordKeys(fields: seq<(string, JValue)>) {
    forall i :: 0 <= i < |RecordKeys| ==> Lookup(fields, RecordKeys[i]).Some?
  }

  /** A record the model decodes: a dict with the four keys, numbers under
      `x` and `y`, a string under `label`, and a box whose iteration yields
      numbers. */
  predicate Decodable(v: JValue) {
    && v.JObj?
    && Lookup(v.fields, "x").Some? && Lookup(v.fields, "x").value.JNum?
    && Lookup(v.fields, "y").Some? && Lookup(v.fields, "y").value.JNum?
    && Lookup(v.fields, "label").Some? && Lookup(v.fields, "label").value.JStr?
    && Lookup(v.fields, "bbox").Some? && Iterate(Lookup(v.fields, "bbox").value).Some?
    && AllNumbers(Iterate(Lookup(v.fields, "bbox").value).value)
  }

  /** `from_dict`: the four keys are looked up in the order `x`, `y`, `label`,
      `bbox`, the first missing one raising `KeyError`; the box is whatever
      `tuple(...)` yields, of any length.  Each field is copied on its own. */
  function FromDict(v: JValue): (r: Result<Label, DecodeError>)
    ensures !v.JObj? ==> r == Failure(NotSubscriptable)
    ensures v.JObj? && !HasRecordKeys(v.fields) ==>
              r.Failure? && r.error.MissingKey? && Lookup(v.fields, r.error.key).None?
    ensures v.JObj? ==>
              forall i :: 0 <= i < |RecordKeys| && Lookup(v.fields, RecordKeys[i]).None?
                          && (forall j :: 0 <= j < i ==> Lookup(v.fields, RecordKeys[j]).Some?)
                          ==> r == Failure(MissingKey(RecordKeys[i]))
    ensures v.JObj? && HasRecordKeys(v.fields) ==>
              (Lookup(v.fields, "bbox").Some? && Iterate(Lookup(v.fields, "bbox").value).None? ==>
                 r == Failure(NotIterable))
    ensures r.Success? <==> Decodable(v)
    ensures r.Success? ==>
              && v.JObj?
              && Lookup(v.fields, "x") == Some(JNum(r.value.x))
              && Lookup(v.fields, "y") == Some(JNum(r.value.y))
              && Lookup(v.fields, "label") == Some(JStr(r.value.text))
              && Lookup(v.fields, "bbox").Some?
              && Iterate(Lookup(v.fields, "bbox").value) == Some(Numbers(r.value.bbox))
  {
    if !v.JObj? then Failure(NotSubscriptable)
    else
      var x := Lookup(v.fields, "x");
      var y := Lookup(v.fields, "y");
      var text := Lookup(v.fields, "label");
      var bbox := Lookup(v.fields, "bbox");
      assert RecordKeys[0] == "x" && RecordKeys[1] == "y" && RecordKeys[2] == "label" && RecordKeys[3] == "bbox";
      assert HasRecordKeys(v.fields) <==> x.Some? && y.Some? && text.Some? && bbox.Some?;
      if x.None? then Failure(MissingKey("x"))
      else if y.None? then Failure(MissingKey("y"))
      else if text.None? then Failure(MissingKey("label"))
      else if bbox.None? then Failure(MissingKey("bbox"))
      else
        var coords := Iterate(bbox.value);
        if coords.None? then Failure(NotIterable)
        else if !x.value.JNum? then Failure(WrongType("x"))
        else if !y.value.JNum? then Failure(WrongType("y"))
        else if !text.value.JStr? then Failure(WrongType("label"))
        else if !AllNumbers(coords.value) then Failure(WrongType("bbox"))
        else Success(Label(x.value.n, y.value.n, text.value.s, NumberValues(coords.value)))
  }

  /** `from_dict(to_dict(l))` gives back `l` field for field; the box goes
      from a tuple to a JSON array and back unchanged. */
  lemma DictRoundTrip(l: Label)
    ensures FromDict(ToDict(l)) == Success(l)
  {
    var v := ToDict(l);
    assert Iterate(JArr(Numbers(l.bbox))) == Some(Numbers(l.bbox));
    assert AllNumbers(Numbers(l.bbox));
    assert NumberValues(Numbers(l.bbox)) == l.bbox;
  }

  /** A record whose box has three coordinates, and whose `x` differs from the
      box's first coordinate, is still accepted: neither arity nor the anchor
      is checked. */
  lemma FromDictChecksNeitherArityNorAnchor(x: int, y: int, text: string, a: int, b: int, c: int)
    requires x != a
    ensures FromDict(JObj([("x", JNum(x)), ("y", JNum(y)), ("label", JStr(text)),
                           ("bbox", JArr([JNum(a), JNum(b), JNum(c)]))]))
            == Success(Label(x, y, text, [a, b, c]))
  {
    var l := Label(x, y, text, [a, b, c]);
    assert Numbers(l.bbox) == [JNum(a), JNum(b), JNum(c)];
    DictRoundTrip(l);
  }
}
