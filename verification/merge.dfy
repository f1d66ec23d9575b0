/** The three ways records are merged into a stored catalog:
      - the YouTube fetcher's overwrite-by-id, sorted by the raw date string;
      - the board scraper's first-seen-by-id-or-link, sorted by parsed date;
      - the webhook's insert-at-front-if-absent (in module Webhook). */
module Merge {
  import opened Wrappers
  import opened Ordering
  import opened OrderedIndex
  import opened Videos
  import opened Dates

  /** Python compares `upload_date` strings code point by code point. */
  function UploadKey(v: Video): seq<int> { Codes(v.uploadDate) }

  /** The board scraper sorts by `parse_date` of the record. */
  function DateKey(v: Video): seq<int> { Key(ParseDate(v.uploadDate)) }

  lemma IdsAreKeyList(vs: Catalog)
    ensures Ids(vs) == KeyList(vs, IdOf)
  {
    forall i | 0 <= i < |vs|
      ensures Ids(vs)[i] == KeyList(vs, IdOf)[i]
    {
      assert KeyList(vs, IdOf)[i] == IdOf(vs[i]) == vs[i].id;
    }
  }

  // ---------------------------------------------------------------------
  // YouTube fetcher: overwrite by id
  // ---------------------------------------------------------------------

  /** `{v['id']: v for v in existing}`, then `d[v['id']] = v` for each new record. */
  function FetcherIndex(existing: Catalog, incoming: Catalog): Index<Video> {
    PutAll(PutAll([], existing, IdOf), incoming, IdOf)
  }

  /** `merge_videos`: the index's values, newest date string first; records
      with equal date strings keep their index order (Python's sort is stable). */
  function FetcherMerge(existing: Catalog, incoming: Catalog): (r: Catalog)
    ensures multiset(r) == multiset(Values(FetcherIndex(existing, incoming)))
    ensures SortedDesc(r, UploadKey)
    ensures forall k :: WithKey(r, UploadKey, k) == WithKey(Values(FetcherIndex(existing, incoming)), UploadKey, k)
  {
    SortDesc(Values(FetcherIndex(existing, incoming)), UploadKey)
  }

  lemma FetcherIndexShape(existing: Catalog, incoming: Catalog)
    ensures KeyedBy(FetcherIndex(existing, incoming), IdOf)
    ensures KeysDistinct(FetcherIndex(existing, incoming))
    ensures forall k :: HasKey(FetcherIndex(existing, incoming), k) <==> k in Ids(existing) || k in Ids(incoming)
    ensures forall k :: Lookup(FetcherIndex(existing, incoming), k) ==
                        if LastBy(incoming, IdOf, k).Some? then LastBy(incoming, IdOf, k) else LastBy(existing, IdOf, k)
  {
    var e: Index<Video> := [];
    var ix1 := PutAll(e, existing, IdOf);
    PutAllKeyed(e, existing, IdOf);
    PutAllKeyed(ix1, incoming, IdOf);
    PutAllFacts(e, existing, IdOf);
    PutAllFacts(ix1, incoming, IdOf);
    assert Keys(e) + KeyList(existing, IdOf) == KeyList(existing, IdOf);
    IdsAreKeyList(existing);
    IdsAreKeyList(incoming);
  }

  /** The merged catalog holds each id of either list exactly once. */
  lemma FetcherMergeIds(existing: Catalog, incoming: Catalog)
    ensures IdsDistinct(FetcherMerge(existing, incoming))
    ensures forall k :: k in Ids(FetcherMerge(existing, incoming)) <==> k in Ids(existing) || k in Ids(incoming)
  {
    var ix := FetcherIndex(existing, incoming);
    var r := FetcherMerge(existing, incoming);
    FetcherIndexShape(existing, incoming);
    KeyedKeys(ix, IdOf);
    IdsAreKeyList(Values(ix));
    IdsAreKeyList(r);
    PermutationKeepsDistinct(Values(ix), r, IdOf);
    forall k
      ensures k in Ids(r) <==> k in Ids(Values(ix))
    {
      if k in Ids(r) {
        IdsOfPermutation(r, Values(ix), k);
      }
      if k in Ids(Values(ix)) {
        IdsOfPermutation(Values(ix), r, k);
      }
    }
  }

  /** Reordering a catalog keeps its ids. */
  lemma IdsOfPermutation(a: Catalog, b: Catalog, k: string)
    requires multiset(a) == multiset(b) && k in Ids(a)
    ensures k in Ids(b)
  {
    var i :| 0 <= i < |a| && Ids(a)[i] == k;
    assert a[i] in multiset(b);
    IdOfMember(b, a[i]);
  }

  lemma IdOfMember(vs: Catalog, v: Video)
    requires v in vs
    ensures v.id in Ids(vs)
  {
    var j :| 0 <= j < |vs| && vs[j] == v;
    assert Ids(vs)[j] == v.id;
  }

  /** Each merged record is the last incoming record with its id, or, when
      no incoming record has that id, the last stored one. */
  lemma FetcherMergeLastWins(existing: Catalog, incoming: Catalog, v: Video)
    requires v in FetcherMerge(existing, incoming)
    ensures Some(v) == if LastBy(incoming, IdOf, v.id).Some? then LastBy(incoming, IdOf, v.id) else LastBy(existing, IdOf, v.id)
  {
    var ix := FetcherIndex(existing, incoming);
    FetcherIndexShape(existing, incoming);
    assert v in multiset(Values(ix));
    var j :| 0 <= j < |Values(ix)| && Values(ix)[j] == v;
    LookupAt(ix, j);
  }

  // ---------------------------------------------------------------------
  // Board scraper: first seen by id or external link
  // ---------------------------------------------------------------------

  /** The stored records that carry a non-empty external link. */
  function WithUrl(vs: Catalog): (r: Catalog)
    ensures forall i :: 0 <= i < |r| ==> r[i] in vs && r[i].externalUrl.Some? && r[i].externalUrl.value != ""
    decreases |vs|
  {
    if |vs| == 0 then []
    else
      var rest := WithUrl(vs[1..]);
      if vs[0].externalUrl.Some? && vs[0].externalUrl.value != "" then [vs[0]] + rest else rest
  }

  function UrlOf(v: Video): string {
    match v.externalUrl
    case Some(u) => u
    case None => ""
  }

  /** The index `update_json_files` builds from the stored file: every record
      under its id, then every linked record under its link too. */
  function StoredIndex(existing: Catalog): Index<Video> {
    PutAll(PutAll([], existing, IdOf), WithUrl(existing), UrlOf)
  }

  /** An incoming record is admitted when neither its id nor its link is a key. */
  predicate Admits(ix: Index<Video>, v: Video) {
    !HasKey(ix, v.id) && (v.externalUrl.None? || !HasKey(ix, v.externalUrl.value))
  }

  /** The loop over incoming records, in order. */
  function AddNew(ix: Index<Video>, incoming: Catalog): Index<Video>
    decreases |incoming|
  {
    if |incoming| == 0 then ix
    else
      var p := AddNew(ix, incoming[..|incoming| - 1]);
      var v := incoming[|incoming| - 1];
      if Admits(p, v) then Put(p, v.id, v) else p
  }

  function BoardIndex(existing: Catalog, incoming: Catalog): Index<Video> {
    AddNew(StoredIndex(existing), incoming)
  }

  /** The board merge: all index values, latest parsed date first, stable on ties. */
  function BoardMerge(existing: Catalog, incoming: Catalog): (r: Catalog)
    ensures multiset(r) == multiset(Values(BoardIndex(existing, incoming)))
    ensures SortedDesc(r, DateKey)
    ensures forall k :: WithKey(r, DateKey, k) == WithKey(Values(BoardIndex(existing, incoming)), DateKey, k)
  {
    SortDesc(Values(BoardIndex(existing, incoming)), DateKey)
  }

  /** Adding records never removes a key nor changes the value under a key
      that was present before. */
  lemma {:induction false} AddNewKeepsEntries(ix: Index<Video>, incoming: Catalog)
    ensures forall k :: HasKey(ix, k) ==> HasKey(AddNew(ix, incoming), k)
    ensures forall k :: HasKey(ix, k) ==> Lookup(AddNew(ix, incoming), k) == Lookup(ix, k)
    decreases |incoming|
  {
    if |incoming| > 0 {
      var p := AddNew(ix, incoming[..|incoming| - 1]);
      var v := incoming[|incoming| - 1];
      AddNewKeepsEntries(ix, incoming[..|incoming| - 1]);
      if Admits(p, v) {
        forall k | HasKey(ix, k)
          ensures HasKey(Put(p, v.id, v), k) && Lookup(Put(p, v.id, v), k) == Lookup(ix, k)
        {
          PutKeepsKeys(p, v.id, v, k);
          PutLookup(p, v.id, v, k);
        }
      }
    }
  }

  /** Every value of the result is a stored value or an incoming record
      that was admitted: its id and its link were keys of neither the
      stored index nor anything added before it.  `AddNewAdmitted` states
      the converse. */
  lemma {:induction false} AddNewValues(ix: Index<Video>, incoming: Catalog, x: Video)
    requires x in Values(AddNew(ix, incoming))
    ensures x in Values(ix) || (x in incoming && Admits(ix, x))
    decreases |incoming|
  {
    if |incoming| > 0 {
      var init := incoming[..|incoming| - 1];
      var p := AddNew(ix, init);
      var v := incoming[|incoming| - 1];
      if Admits(p, v) && x == v {
        AddNewKeepsEntries(ix, init);
      } else {
        if Admits(p, v) {
          PutValues(p, v.id, v, x);
        }
        AddNewValues(ix, init, x);
      }
    }
  }

  /** Adding a list in two parts is adding the first part, then the second. */
  lemma {:induction false} AddNewConcat(ix: Index<Video>, a: Catalog, b: Catalog)
    ensures AddNew(ix, a + b) == AddNew(AddNew(ix, a), b)
    decreases |b|
  {
    if |b| == 0 {
      assert a + b == a;
    } else {
      assert (a + b)[..|a + b| - 1] == a + b[..|b| - 1];
      assert (a + b)[|a + b| - 1] == b[|b| - 1];
      AddNewConcat(ix, a, b[..|b| - 1]);
    }
  }

  /** An incoming record that is admitted at its turn (neither its id nor its
      link is a key of the stored index or of anything added before it) is in
      the result, under its id. */
  lemma AddNewAdmitted(ix: Index<Video>, incoming: Catalog, i: nat)
    requires i < |incoming| && Admits(AddNew(ix, incoming[..i]), incoming[i])
    ensures Lookup(AddNew(ix, incoming), incoming[i].id) == Some(incoming[i])
    ensures incoming[i] in Values(AddNew(ix, incoming))
  {
    var v := incoming[i];
    var head := incoming[..i + 1];
    assert head[..|head| - 1] == incoming[..i] && head[|head| - 1] == v;
    var p := AddNew(ix, head);
    PutLookup(AddNew(ix, incoming[..i]), v.id, v, v.id);
    AddNewKeepsEntries(p, incoming[i + 1..]);
    assert incoming == head + incoming[i + 1..];
    AddNewConcat(ix, head, incoming[i + 1..]);
    LookupIn(AddNew(ix, incoming), v.id);
  }

  /** The board merge adds every incoming record admitted at its turn. */
  lemma BoardAddsAdmitted(existing: Catalog, incoming: Catalog, i: nat)
    requires i < |incoming| && Admits(AddNew(StoredIndex(existing), incoming[..i]), incoming[i])
    ensures Lookup(BoardIndex(existing, incoming), incoming[i].id) == Some(incoming[i])
    ensures incoming[i] in BoardMerge(existing, incoming)
  {
    AddNewAdmitted(StoredIndex(existing), incoming, i);
    assert incoming[i] in multiset(Values(BoardIndex(existing, incoming)));
  }

  /** The board merge never overwrites: whatever the stored file put under
      a key is still there after the incoming records are added. */
  lemma BoardKeepsStored(existing: Catalog, incoming: Catalog, k: string)
    requires HasKey(StoredIndex(existing), k)
    ensures Lookup(BoardIndex(existing, incoming), k) == Lookup(StoredIndex(existing), k)
  {
    AddNewKeepsEntries(StoredIndex(existing), incoming);
  }

  /** An incoming record reaches the output only if no stored record has its
      id and no stored record has its link as id or link. */
  lemma BoardAdmitsOnlyNew(existing: Catalog, incoming: Catalog, x: Video)
    requires x in BoardMerge(existing, incoming) && x !in existing
    ensures x in incoming
    ensures x.id !in Ids(existing)
    ensures x.externalUrl.Some? ==> x.externalUrl.value !in Ids(existing)
    ensures x.externalUrl.Some? ==> forall w :: w in WithUrl(existing) ==> UrlOf(w) != x.externalUrl.value
  {
    var st := StoredIndex(existing);
    assert x in multiset(Values(BoardIndex(existing, incoming)));
    AddNewValues(st, incoming, x);
    StoredIndexKeys(existing);
    if x in Values(st) {
      StoredValues(existing, x);
    }
  }

  lemma StoredIndexKeys(existing: Catalog)
    ensures forall k :: HasKey(StoredIndex(existing), k) <==>
      k in Ids(existing) || exists w :: w in WithUrl(existing) && UrlOf(w) == k
  {
    var e: Index<Video> := [];
    var ix1 := PutAll(e, existing, IdOf);
    PutAllFacts(e, existing, IdOf);
    PutAllFacts(ix1, WithUrl(existing), UrlOf);
    PutAllKeyed(e, existing, IdOf);
    assert Keys(e) + KeyList(existing, IdOf) == KeyList(existing, IdOf);
    IdsAreKeyList(existing);
    forall k
      ensures k in KeyList(WithUrl(existing), UrlOf) <==> exists w :: w in WithUrl(existing) && UrlOf(w) == k
    {
      KeyListMember(WithUrl(existing), UrlOf, k);
    }
  }

  /** The stored index holds stored records only. */
  lemma StoredValues(existing: Catalog, x: Video)
    requires x in Values(StoredIndex(existing))
    ensures x in existing
  {
    var e: Index<Video> := [];
    var ix1 := PutAll(e, existing, IdOf);
    PutAllValues(ix1, WithUrl(existing), UrlOf, x);
    if x in Values(ix1) {
      PutAllValues(e, existing, IdOf, x);
    }
  }

  /** A stored id survives the merge, with its last stored record, unless a
      stored link is equal to it (see BoardLinkShadowsId). */
  lemma BoardKeepsStoredIds(existing: Catalog, incoming: Catalog, k: string)
    requires k in Ids(existing)
    requires forall w :: w in WithUrl(existing) ==> UrlOf(w) != k
    ensures LastBy(existing, IdOf, k).Some?
    ensures LastBy(existing, IdOf, k).value in BoardMerge(existing, incoming)
    ensures k in Ids(BoardMerge(existing, incoming))
  {
    StoredLookup(existing, k);
    var v := LastBy(existing, IdOf, k).value;
    BoardKeepsStored(existing, incoming, k);
    LookupIn(BoardIndex(existing, incoming), k);
    var r := BoardMerge(existing, incoming);
    assert v in multiset(r);
    IdOfMember(r, v);
  }

  /** An id no stored link shadows finds its last stored record. */
  lemma StoredLookup(existing: Catalog, k: string)
    requires k in Ids(existing)
    requires forall w :: w in WithUrl(existing) ==> UrlOf(w) != k
    ensures LastBy(existing, IdOf, k).Some?
    ensures Lookup(StoredIndex(existing), k) == LastBy(existing, IdOf, k)
  {
    var e: Index<Video> := [];
    var ix1 := PutAll(e, existing, IdOf);
    var i :| 0 <= i < |existing| && Ids(existing)[i] == k;
    assert IdOf(existing[i]) == k;
    PutAllFacts(e, existing, IdOf);
    PutAllFacts(ix1, WithUrl(existing), UrlOf);
    assert LastBy(WithUrl(existing), UrlOf, k).None?;
  }

  /** A stored record with a link is listed under its id and under its
      link, so the merged file holds it twice. */
  lemma BoardStoresLinkedTwice(v: Video, u: string)
    requires v.externalUrl == Some(u) && u != "" && u != v.id
    ensures BoardMerge([v], []) == [v, v]
  {
    var e: Index<Video> := [];
    var ix1 := PutAll(e, [v], IdOf);
    PutAllOne(e, v, IdOf);
    assert ix1 == [Entry(v.id, v)];
    assert WithUrl([v]) == [v];
    PutAllOne(ix1, v, UrlOf);
    assert Put(ix1, u, v) == [Entry(v.id, v)] + Put([], u, v);
    assert Values(BoardIndex([v], [])) == [v, v];
    LexLeRefl(DateKey(v));
    SortDescOfSorted([v, v], DateKey);
  }

  /** A stored link equal to another stored record's id replaces that
      record in the index: the record is lost and the linked one doubled. */
  lemma BoardLinkShadowsId(a: Video, b: Video)
    requires a.id != b.id && a.externalUrl.None? && b.externalUrl == Some(a.id) && a.id != ""
    ensures BoardMerge([a, b], []) == [b, b]
    ensures a !in BoardMerge([a, b], [])
  {
    var e: Index<Video> := [];
    var ab := [a, b];
    assert ab[..1] == [a] && [a][..0] == [];
    var ix0 := PutAll(e, [a], IdOf);
    PutAllOne(e, a, IdOf);
    var ix1 := PutAll(e, ab, IdOf);
    assert ix1 == Put(ix0, IdOf(b), b);
    assert Put(ix0, b.id, b) == [Entry(a.id, a)] + Put([], b.id, b);
    assert WithUrl(ab[1..]) == [b];
    assert WithUrl(ab) == [b];
    PutAllOne(ix1, b, UrlOf);
    assert Put(ix1, a.id, b) == [Entry(a.id, b), Entry(b.id, b)];
    assert Values(BoardIndex(ab, [])) == [b, b];
    LexLeRefl(DateKey(b));
    SortDescOfSorted([b, b], DateKey);
  }
}
