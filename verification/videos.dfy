/** A catalog record, as the JSON files store it.  Keys that only some
    producers write are optional. */
module Videos {
  import opened Wrappers

  datatype Video = Video(
    id: string,
    title: string,
    thumbnailUrl: string,
    externalUrl: Option<string>,   // board scraper only
    duration: Option<string>,      // ISO 8601 duration, YouTube records only
    views: string,
    category: string,
    teams: seq<string>,
    channelId: Option<string>,     // YouTube records only
    channelName: string,
    source: Option<string>,        // board scraper only
    uploadDate: string,
    disclaimer: Option<string>)    // board scraper only

  type Catalog = seq<Video>

  function IdOf(v: Video): string { v.id }

  /** The ids of a catalog, in order. */
  function Ids(vs: Catalog): seq<string> {
    seq(|vs|, i requires 0 <= i < |vs| => vs[i].id)
  }

  predicate IdsDistinct(vs: Catalog) {
    forall i, j :: 0 <= i < j < |vs| ==> vs[i].id != vs[j].id
  }

  /** `[v for v in vs if v['category'] == c]`. */
  function OfCategory(vs: Catalog, c: string): (r: Catalog)
    ensures forall i :: 0 <= i < |r| ==> r[i].category == c && r[i] in vs
    decreases |vs|
  {
    if |vs| == 0 then []
    else
      var rest := OfCategory(vs[1..], c);
      if vs[0].category == c then [vs[0]] + rest else rest
  }

  /** Number of records of category `c`. */
  function CountCategory(vs: Catalog, c: string): nat
    decreases |vs|
  {
    if |vs| == 0 then 0 else (if vs[0].category == c then 1 else 0) + CountCategory(vs[1..], c)
  }

  lemma {:induction false} OfCategoryCount(vs: Catalog, c: string)
    ensures |OfCategory(vs, c)| == CountCategory(vs, c)
    decreases |vs|
  {
    if |vs| > 0 {
      OfCategoryCount(vs[1..], c);
    }
  }

  /** The filter keeps exactly the records of the category, each as often as it occurs. */
  lemma {:induction false} OfCategoryMultiset(vs: Catalog, c: string)
    ensures forall v :: multiset(OfCategory(vs, c))[v] == if v.category == c then multiset(vs)[v] else 0
    decreases |vs|
  {
    if |vs| > 0 {
      OfCategoryMultiset(vs[1..], c);
      assert vs == [vs[0]] + vs[1..];
    }
  }

  /** Filtering distributes over concatenation (the filter keeps order). */
  lemma {:induction false} OfCategoryConcat(a: Catalog, b: Catalog, c: string)
    ensures OfCategory(a + b, c) == OfCategory(a, c) + OfCategory(b, c)
    decreases |a|
  {
    if |a| > 0 {
      OfCategoryConcat(a[1..], b, c);
      assert (a + b)[1..] == a[1..] + b;
    } else {
      assert a + b == b;
    }
  }
}
