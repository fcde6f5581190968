/** The label store: page number to the ordered labels on that page, with
    the page entries kept in the insertion order of the Python dict, and
    its persistence as a JSON object keyed by decimal page numbers. */
module LabelStore {
  import opened Results
  import opened Decimal
  import opened Json
  import opened Labels

  /** `order` lists the dict's keys in insertion order; `pages` holds the lists. */
  datatype Store = Store(order: seq<int>, pages: map<int, seq<Label>>)

  predicate Distinct(xs: seq<int>) {
    forall i, j :: 0 <= i < j < |xs| ==> xs[i] != xs[j]
  }

  /** Every key appears exactly once in `order`, and `order` lists only keys. */
  ghost predicate Valid(s: Store) {
    && Distinct(s.order)
    && forall p :: p in s.pages <==> p in s.order
  }

  /** `LabelManager()` and `clear_all`: no pages at all. */
  const Empty: Store := Store([], map[])

  /** `get_labels`: the page's list, or the empty list for an absent page;
      reading never adds a key. */
  function Get(s: Store, p: int): (r: seq<Label>)
    ensures |r| > 0 ==> p in s.pages
    ensures p in s.pages ==> r == s.pages[p]
  {
    if p in s.pages then s.pages[p] else []
  }

  /** Dict assignment `labels[p] = ls`: a new key goes to the end of the order,
      an existing key keeps its place. */
  function Put(s: Store, p: int, ls: seq<Label>): (r: Store)
    ensures r.pages == s.pages[p := ls]
    ensures r.order == if p in s.pages then s.order else s.order + [p]
    ensures Valid(s) ==> Valid(r)
  {
    if p in s.pages then Store(s.order, s.pages[p := ls]) else Store(s.order + [p], s.pages[p := ls])
  }

  /** `add_label`: appends `l` to page `p`, creating the page if absent. */
  function Add(s: Store, p: int, l: Label): (r: Store)
    ensures Get(r, p) == Get(s, p) + [l]
    ensures forall q :: q != p ==> Get(r, q) == Get(s, q)
    ensures r.pages.Keys == s.pages.Keys + {p}
    ensures Valid(s) ==> Valid(r)
  {
    Put(s, p, Get(s, p) + [l])
  }

  /** `delete_label`: removes element `i` of page `p` when the page exists and
      `0 <= i < len`; otherwise nothing happens. */
  function Delete(s: Store, p: int, i: int): (r: Store)
    ensures p in s.pages && 0 <= i < |s.pages[p]| ==>
              && |Get(r, p)| == |Get(s, p)| - 1
              && (forall j :: 0 <= j < i ==> Get(r, p)[j] == Get(s, p)[j])
              && (forall j :: i <= j < |Get(r, p)| ==> Get(r, p)[j] == Get(s, p)[j + 1])
    ensures !(p in s.pages && 0 <= i < |s.pages[p]|) ==> r == s
    ensures forall q :: q != p ==> Get(r, q) == Get(s, q)
    ensures r.order == s.order && r.pages.Keys == s.pages.Keys
    ensures Valid(s) ==> Valid(r)
  {
    if p in s.pages && 0 <= i < |s.pages[p]| then
      Store(s.order, s.pages[p := s.pages[p][..i] + s.pages[p][i + 1..]])
    else s
  }

  /** `clear_page`: empties a present page; an absent page stays absent. */
  function ClearPage(s: Store, p: int): (r: Store)
    ensures p in s.pages ==> p in r.pages && Get(r, p) == []
    ensures p !in s.pages ==> r == s
    ensures forall q :: q != p ==> Get(r, q) == Get(s, q)
    ensures r.order == s.order && r.pages.Keys == s.pages.Keys
    ensures Valid(s) ==> Valid(r)
  {
    if p in s.pages then Store(s.order, s.pages[p := []]) else s
  }

  /** `clear_all`: every page is dropped, so no labels remain. */
  function ClearAll(s: Store): (r: Store)
    ensures r.pages == map[] && Valid(r)
    ensures forall p :: Get(r, p) == []
    ensures Total(r) == 0
  {
    Empty
  }

  /** The number of labels on the pages `ks`. */
  function SumLengths(s: Store, ks: seq<int>): nat
    decreases |ks|
  {
    if |ks| == 0 then 0 else |Get(s, ks[0])| + SumLengths(s, ks[1..])
  }

  /** Total number of labels: the sum of the lengths of the page lists. */
  function Total(s: Store): nat {
    SumLengths(s, s.order)
  }

  /** `get_total_labels`: sums the page lengths in dict order. */
  method CountLabels(s: Store) returns (n: nat)
    ensures n == Total(s)
    ensures Valid(s) && (forall p :: p in s.pages ==> s.pages[p] == []) ==> n == 0
  {
    n := 0;
    var i := |s.order|;
    while i > 0
      invariant 0 <= i <= |s.order|
      invariant n == SumLengths(s, s.order[i..])
    {
      i := i - 1;
      assert s.order[i..][1..] == s.order[i + 1..];
      n := n + |Get(s, s.order[i])|;
    }
    assert s.order[0..] == s.order;
    if Valid(s) && (forall p :: p in s.pages ==> s.pages[p] == []) {
      AllEmptyTotal(s, s.order);
    }
  }

  lemma {:induction false} AllEmptyTotal(s: Store, ks: seq<int>)
    requires forall p :: p in s.pages ==> s.pages[p] == []
    ensures SumLengths(s, ks) == 0
    decreases |ks|
  {
    if |ks| > 0 {
      AllEmptyTotal(s, ks[1..]);
    }
  }

  /** Changing one page that occurs once in `ks` changes the sum by the
      difference of that page's lengths. */
  lemma {:induction false} SumLengthsUpdate(s: Store, r: Store, ks: seq<int>, p: int)
    requires Distinct(ks)
    requires forall q :: q != p ==> Get(r, q) == Get(s, q)
    ensures p in ks ==> SumLengths(r, ks) == SumLengths(s, ks) - |Get(s, p)| + |Get(r, p)|
    ensures p !in ks ==> SumLengths(r, ks) == SumLengths(s, ks)
    decreases |ks|
  {
    if |ks| > 0 {
      DistinctTail(ks);
      SumLengthsUpdate(s, r, ks[1..], p);
      if ks[0] != p {
        assert p in ks ==> p in ks[1..] by {
          if p in ks {
            var j :| 0 <= j < |ks| && ks[j] == p;
            assert ks[1..][j - 1] == p;
          }
        }
      }
    }
  }

  lemma {:induction false} SumLengthsAppend(s: Store, ks: seq<int>, k: int)
    ensures SumLengths(s, ks + [k]) == SumLengths(s, ks) + |Get(s, k)|
    decreases |ks|
  {
    if |ks| > 0 {
      assert (ks + [k])[1..] == ks[1..] + [k];
      SumLengthsAppend(s, ks[1..], k);
    } else {
      assert ks + [k] == [k];
    }
  }

  /** Adding a label raises the total by one. */
  lemma TotalAdd(s: Store, p: int, l: Label)
    requires Valid(s)
    ensures Total(Add(s, p, l)) == Total(s) + 1
  {
    var r := Add(s, p, l);
    if p in s.pages {
      SumLengthsUpdate(s, r, s.order, p);
    } else {
      SumLengthsUpdate(s, r, s.order, p);
      SumLengthsAppend(r, s.order, p);
    }
  }

  /** An in-range delete lowers the total by one; any other delete keeps it. */
  lemma TotalDelete(s: Store, p: int, i: int)
    requires Valid(s)
    ensures p in s.pages && 0 <= i < |s.pages[p]| ==> Total(Delete(s, p, i)) == Total(s) - 1
    ensures !(p in s.pages && 0 <= i < |s.pages[p]|) ==> Total(Delete(s, p, i)) == Total(s)
  {
    SumLengthsUpdate(s, Delete(s, p, i), s.order, p);
  }

  /** Clearing a page lowers the total by that page's length. */
  lemma TotalClearPage(s: Store, p: int)
    requires Valid(s)
    ensures Total(ClearPage(s, p)) == Total(s) - |Get(s, p)|
  {
    SumLengthsUpdate(s, ClearPage(s, p), s.order, p);
  }

  // ---------------------------------------------------------------------
  // Persistence: `save_to_file` and `load_from_file` over a decoded JSON value.

  /** `[label.to_dict() for label in labels]`. */
  function EncodeLabels(ls: seq<Label>): (vs: seq<JValue>)
    ensures |vs| == |ls|
    ensures forall i :: 0 <= i < |ls| ==> vs[i] == ToDict(ls[i])
    decreases |ls|
  {
    if |ls| == 0 then [] else [ToDict(ls[0])] + EncodeLabels(ls[1..])
  }

  /** One entry per page of `ks`: the page number in decimal, then its labels. */
  function EncodePages(s: Store, ks: seq<int>): (fields: seq<(string, JValue)>)
    ensures |fields| == |ks|
    ensures forall i :: 0 <= i < |ks| ==>
              fields[i] == (IntToString(ks[i]), JArr(EncodeLabels(Get(s, ks[i]))))
    decreases |ks|
  {
    if |ks| == 0 then []
    else [(IntToString(ks[0]), JArr(EncodeLabels(Get(s, ks[0]))))] + EncodePages(s, ks[1..])
  }

  /** `save_to_file`: the dict written to the file, one `str(page)` key per
      page in dict order; keys of different pages never collide, and loading
      the dict gives back the same store: the same pages in the same order,
      each with the same labels in the same order, and no error. */
  function Save(s: Store): (v: JValue)
    ensures v.JObj? && |v.fields| == |s.order|
    ensures forall i :: 0 <= i < |s.order| ==> ParseInt(v.fields[i].0) == Some(s.order[i])
    ensures Distinct(s.order) ==> DistinctKeys(v.fields)
    ensures Valid(s) ==> Load(v) == Loaded(s, None)
  {
    EncodedKeysParse(s, s.order);
    assert Distinct(s.order) ==> DistinctKeys(EncodePages(s, s.order)) by {
      if Distinct(s.order) {
        EncodedKeysDistinct(s, s.order);
      }
    }
    assert Valid(s) ==> Load(JObj(EncodePages(s, s.order))) == Loaded(s, None) by {
      if Valid(s) {
        LoadEncoded(s);
      }
    }
    JObj(EncodePages(s, s.order))
  }

  /** Each key written for a page reads back with `int` as that page. */
  lemma EncodedKeysParse(s: Store, ks: seq<int>)
    ensures forall i :: 0 <= i < |ks| ==> ParseInt(EncodePages(s, ks)[i].0) == Some(ks[i])
  {
    forall i | 0 <= i < |ks| ensures ParseInt(EncodePages(s, ks)[i].0) == Some(ks[i]) {
      IntRoundTrip(ks[i]);
    }
  }

  /** Different pages are written under different keys. */
  lemma EncodedKeysDistinct(s: Store, ks: seq<int>)
    requires Distinct(ks)
    ensures DistinctKeys(EncodePages(s, ks))
  {
    var fields := EncodePages(s, ks);
    forall i, j | 0 <= i < j < |fields| ensures fields[i].0 != fields[j].0 {
      IntToStringInjective(ks[i], ks[j]);
    }
  }

  /** Loading the encoded pages of a consistent store gives the store back. */
  lemma LoadEncoded(s: Store)
    requires Valid(s)
    ensures Load(JObj(EncodePages(s, s.order))) == Loaded(s, None)
  {
    var fields := EncodePages(s, s.order);
    EncodedPagesDecode(s, s.order);
    LoadDecodablePages(fields, s, Empty, s.order);
    assert Empty.order + s.order == s.order;
    PagesFromOrder(s);
  }

  /** `[Label.from_dict(ld) for ld in labels_data]`: the first record that
      fails to decode aborts the whole list with its error. */
  function DecodeAll(items: seq<JValue>): (r: Result<seq<Label>, DecodeError>)
    ensures r.Success? <==> forall i :: 0 <= i < |items| ==> FromDict(items[i]).Success?
    ensures r.Success? ==> |r.value| == |items|
                           && forall i :: 0 <= i < |items| ==> FromDict(items[i]) == Success(r.value[i])
    ensures r.Failure? ==> exists i :: 0 <= i < |items| && FromDict(items[i]) == Failure(r.error)
                                       && forall j :: 0 <= j < i ==> FromDict(items[j]).Success?
  {
    MapAll(FromDict, items)
  }

  /** Decoding one page value: whatever iterating it yields, record by record. */
  function DecodePage(v: JValue): (r: Result<seq<Label>, DecodeError>)
    ensures Iterate(v).None? ==> r == Failure(NotIterable)
    ensures Iterate(v).Some? ==> r == DecodeAll(Iterate(v).value)
  {
    match Iterate(v)
    case None => Failure(NotIterable)
    case Some(items) => DecodeAll(items)
  }

  /** What `load_from_file` leaves in the store, and the exception it raised. */
  datatype LoadResult = Loaded(store: Store, error: Option<DecodeError>)

  /** The loop of `load_from_file`: each entry is parsed and assigned in turn,
      so an entry that fails stops the loop with the earlier pages kept. */
  function LoadPages(acc: Store, fields: seq<(string, JValue)>): (r: LoadResult)
    ensures Valid(acc) ==> Valid(r.store)
    ensures forall p :: p in acc.pages ==> p in r.store.pages
    decreases |fields|
  {
    if |fields| == 0 then Loaded(acc, None)
    else
      match ParseInt(fields[0].0)
      case None => Loaded(acc, Some(BadPageKey(fields[0].0)))
      case Some(p) =>
        match DecodePage(fields[0].1)
        case Failure(e) => Loaded(acc, Some(e))
        case Success(ls) => LoadPages(Put(acc, p, ls), fields[1..])
  }

  /** `load_from_file` after the file was read and parsed: the store is reset
      to empty first, so the result never depends on the previous contents;
      a top level that is not a dict fails with the store already empty. */
  function Load(data: JValue): (r: LoadResult)
    ensures Valid(r.store)
    ensures !data.JObj? ==> r == Loaded(Empty, Some(NotADict))
    ensures r.error.None? ==> data.JObj? && |r.store.order| <= |data.fields|
  {
    if !data.JObj? then Loaded(Empty, Some(NotADict))
    else
      var r := LoadPages(Empty, data.fields);
      LoadPagesCount(Empty, data.fields);
      r
  }

  lemma {:induction false} LoadPagesCount(acc: Store, fields: seq<(string, JValue)>)
    ensures LoadPages(acc, fields).error.None? ==>
              |LoadPages(acc, fields).store.order| <= |acc.order| + |fields|
    decreases |fields|
  {
    if |fields| > 0 {
      match ParseInt(fields[0].0)
      case None =>
      case Some(p) =>
        match DecodePage(fields[0].1)
        case Failure(e) =>
        case Success(ls) => LoadPagesCount(Put(acc, p, ls), fields[1..]);
    }
  }

  /** Load works entry by entry: loading `fs + gs` is loading `fs` and, if that
      raised nothing, continuing with `gs` from the store it left. */
  lemma {:induction false} LoadPagesAppend(acc: Store, fs: seq<(string, JValue)>, gs: seq<(string, JValue)>)
    ensures LoadPages(acc, fs + gs) ==
              var r := LoadPages(acc, fs);
              if r.error.Some? then r else LoadPages(r.store, gs)
    decreases |fs|
  {
    if |fs| == 0 {
      assert fs + gs == gs;
    } else {
      assert (fs + gs)[0] == fs[0];
      assert (fs + gs)[1..] == fs[1..] + gs;
      match ParseInt(fs[0].0)
      case None =>
      case Some(p) =>
        match DecodePage(fs[0].1)
        case Failure(e) =>
        case Success(ls) => LoadPagesAppend(Put(acc, p, ls), fs[1..], gs);
    }
  }

  /** Load is not all-or-nothing: when an entry's key is not an integer, the
      pages of the entries before it stay loaded and the exception is raised. */
  lemma LoadKeepsPagesBeforeBadKey(fs: seq<(string, JValue)>, key: string, v: JValue,
                                   gs: seq<(string, JValue)>)
    requires LoadPages(Empty, fs).error.None?
    requires ParseInt(key).None?
    ensures Load(JObj(fs + [(key, v)] + gs)) == Loaded(LoadPages(Empty, fs).store, Some(BadPageKey(key)))
  {
    LoadPagesAppend(Empty, fs, [(key, v)] + gs);
    assert fs + [(key, v)] + gs == fs + ([(key, v)] + gs);
  }

  lemma DecodeEncodeLabels(ls: seq<Label>)
    ensures DecodeAll(EncodeLabels(ls)) == Success(ls)
  {
    var items := EncodeLabels(ls);
    forall i | 0 <= i < |ls| ensures FromDict(items[i]) == Success(ls[i]) {
      DictRoundTrip(ls[i]);
    }
    var r := DecodeAll(items);
    assert r.Success?;
    assert forall i :: 0 <= i < |ls| ==> r.value[i] == ls[i] by {
      forall i | 0 <= i < |ls| ensures r.value[i] == ls[i] {
        assert FromDict(items[i]) == Success(r.value[i]);
      }
    }
    assert r.value == ls;
  }


  /** One step of the load loop on an entry whose key and records decode. */
  lemma LoadPagesStep(acc: Store, fields: seq<(string, JValue)>, p: int, ls: seq<Label>)
    requires |fields| > 0
    requires ParseInt(fields[0].0) == Some(p) && DecodePage(fields[0].1) == Success(ls)
    ensures LoadPages(acc, fields) == LoadPages(Put(acc, p, ls), fields[1..])
  {
  }

  lemma DistinctTail(ks: seq<int>)
    requires |ks| > 0 && Distinct(ks)
    ensures Distinct(ks[1..]) && ks[0] !in ks[1..]
    ensures forall q :: q in ks[1..] ==> q in ks
  {
    var rest := ks[1..];
    forall i, j | 0 <= i < j < |rest| ensures rest[i] != rest[j] {
      assert rest[i] == ks[i + 1] && rest[j] == ks[j + 1];
    }
    forall j | 0 <= j < |rest| ensures rest[j] != ks[0] {
      assert rest[j] == ks[j + 1];
    }
  }

  /** Adding the first page of `ks` and then the rest is adding all of them. */
  lemma AppendFirstPage(s: Store, acc: Store, ks: seq<int>)
    requires |ks| > 0
    requires forall q :: q in ks ==> q in s.pages
    ensures Store(acc.order + [ks[0]] + ks[1..],
                  acc.pages[ks[0] := Get(s, ks[0])] + (map q | q in ks[1..] :: Get(s, q)))
            == Store(acc.order + ks, acc.pages + (map q | q in ks :: Get(s, q)))
  {
    var lhs := acc.pages[ks[0] := Get(s, ks[0])] + (map q | q in ks[1..] :: Get(s, q));
    var rhs := acc.pages + (map q | q in ks :: Get(s, q));
    assert ks == [ks[0]] + ks[1..];
    assert forall q :: q in ks <==> q == ks[0] || q in ks[1..];
    assert lhs.Keys == rhs.Keys;
    forall q | q in lhs.Keys ensures lhs[q] == rhs[q] {
    }
    assert acc.order + [ks[0]] + ks[1..] == acc.order + ks;
  }

  lemma DecodesToTail(fields: seq<(string, JValue)>, s: Store, ks: seq<int>)
    requires |ks| > 0 && DecodesTo(fields, s, ks)
    ensures DecodesTo(fields[1..], s, ks[1..])
    ensures ParseInt(fields[0].0) == Some(ks[0]) && DecodePage(fields[0].1) == Success(Get(s, ks[0]))
    ensures forall q :: q in ks ==> q in s.pages
  {
    forall i | 0 <= i < |ks[1..]|
      ensures ks[1..][i] in s.pages
      ensures ParseInt(fields[1..][i].0) == Some(ks[1..][i])
      ensures DecodePage(fields[1..][i].1) == Success(Get(s, ks[1..][i]))
    {
      assert fields[1..][i] == fields[i + 1] && ks[1..][i] == ks[i + 1];
    }
    forall q | q in ks ensures q in s.pages {
      var j :| 0 <= j < |ks| && ks[j] == q;
    }
  }

  lemma DecodeEncodedPage(ls: seq<Label>)
    ensures DecodePage(JArr(EncodeLabels(ls))) == Success(ls)
  {
    DecodeEncodeLabels(ls);
  }

  /** `fields` are entries whose keys read back as the pages `ks` and whose
      values decode to those pages' lists in `s`. */
  ghost predicate DecodesTo(fields: seq<(string, JValue)>, s: Store, ks: seq<int>) {
    && |fields| == |ks|
    && forall i :: 0 <= i < |ks| ==>
         && ks[i] in s.pages
         && ParseInt(fields[i].0) == Some(ks[i])
         && DecodePage(fields[i].1) == Success(Get(s, ks[i]))
  }

  lemma EncodedPagesDecode(s: Store, ks: seq<int>)
    requires forall k :: k in ks ==> k in s.pages
    ensures DecodesTo(EncodePages(s, ks), s, ks)
  {
    var fields := EncodePages(s, ks);
    forall i | 0 <= i < |ks|
      ensures ParseInt(fields[i].0) == Some(ks[i])
      ensures DecodePage(fields[i].1) == Success(Get(s, ks[i]))
    {
      IntRoundTrip(ks[i]);
      DecodeEncodedPage(Get(s, ks[i]));
    }
  }

  /** Entries that decode to the pages `ks` of `s`, loaded onto `acc`: the
      pages are appended to its order, their lists taken from `s`. */
  lemma {:induction false} LoadDecodablePages(fields: seq<(string, JValue)>, s: Store, acc: Store, ks: seq<int>)
    requires Valid(acc) && Distinct(ks) && DecodesTo(fields, s, ks)
    requires forall k :: k in ks ==> k !in acc.pages
    ensures LoadPages(acc, fields)
            == Loaded(Store(acc.order + ks, acc.pages + (map k | k in ks :: Get(s, k))), None)
    decreases |ks|
  {
    if |ks| == 0 {
      assert acc.order + ks == acc.order;
      assert acc.pages + (map k | k in ks :: Get(s, k)) == acc.pages;
    } else {
      DecodesToTail(fields, s, ks);
      DistinctTail(ks);
      var acc' := Put(acc, ks[0], Get(s, ks[0]));
      LoadPagesStep(acc, fields, ks[0], Get(s, ks[0]));
      LoadDecodablePages(fields[1..], s, acc', ks[1..]);
      AppendFirstPage(s, acc, ks);
    }
  }

  lemma PagesFromOrder(s: Store)
    requires Valid(s)
    ensures Empty.pages + (map k | k in s.order :: Get(s, k)) == s.pages
  {
    var m := map k | k in s.order :: Get(s, k);
    assert forall k :: k in m <==> k in s.pages;
    assert m.Keys == s.pages.Keys;
    assert Empty.pages + m == m;
  }
}
