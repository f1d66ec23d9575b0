/** How the YouTube fetcher writes a batch of new records: each category
    file that receives records is merged, the all-videos file is always
    merged, and the team statistics are recomputed from the merged
    all-videos file.  Stored files are given as a map from file key
    ("all" or a category) to contents; a missing file reads as empty. */
module FetcherFiles {
  import opened Videos
  import opened Merge
  import opened TeamStats
  import opened OrderedIndex

  const FetcherCategories: seq<string> := ["matches", "interviews", "classic", "other"]

  /** `load_existing_json`: the stored list, or the empty list. */
  function Load(files: map<string, Catalog>, key: string): Catalog {
    if key in files then files[key] else []
  }

  /** The category loop over `cats`, in order. */
  function UpdateCategories(files: map<string, Catalog>, incoming: Catalog, cats: seq<string>): map<string, Catalog>
    decreases |cats|
  {
    if |cats| == 0 then files
    else
      var rest := UpdateCategories(files, incoming, cats[1..]);
      var c := cats[0];
      var batch := OfCategory(incoming, c);
      if |batch| > 0 then rest[c := FetcherMerge(Load(files, c), batch)] else rest
  }

  datatype Written = Written(files: map<string, Catalog>, teams: Index<Tally>)

  /** `update_json_files` of the fetcher. */
  function UpdateFiles(files: map<string, Catalog>, incoming: Catalog): (r: Written)
    ensures "all" in r.files
    ensures r.teams == FetcherStats(r.files["all"])
  {
    var cats := UpdateCategories(files, incoming, FetcherCategories);
    var merged := FetcherMerge(Load(files, "all"), incoming);
    Written(cats["all" := merged], FetcherStats(merged))
  }

  lemma {:induction false} UpdateCategoriesFacts(files: map<string, Catalog>, incoming: Catalog, cats: seq<string>, key: string)
    requires forall i, j :: 0 <= i < j < |cats| ==> cats[i] != cats[j]
    ensures key in UpdateCategories(files, incoming, cats) <==>
      key in files || (key in cats && |OfCategory(incoming, key)| > 0)
    ensures key in cats && |OfCategory(incoming, key)| > 0 ==>
      UpdateCategories(files, incoming, cats)[key] == FetcherMerge(Load(files, key), OfCategory(incoming, key))
    ensures !(key in cats && |OfCategory(incoming, key)| > 0) && key in files ==>
      UpdateCategories(files, incoming, cats)[key] == files[key]
    decreases |cats|
  {
    if |cats| > 0 {
      UpdateCategoriesFacts(files, incoming, cats[1..], key);
      assert key in cats <==> key == cats[0] || key in cats[1..];
      if key == cats[0] {
        assert key !in cats[1..] by {
          assert forall i :: 0 <= i < |cats[1..]| ==> cats[1..][i] == cats[i + 1];
        }
      }
    }
  }

  /** A category file is rewritten exactly when the batch holds records of
      that category, and then it is the merge of the stored file with them;
      the all-videos file is always the merge of the stored one with the
      whole batch. */
  lemma UpdateFilesSpec(files: map<string, Catalog>, incoming: Catalog, c: string)
    requires c in FetcherCategories
    ensures UpdateFiles(files, incoming).files["all"] == FetcherMerge(Load(files, "all"), incoming)
    ensures |OfCategory(incoming, c)| > 0 ==>
      c in UpdateFiles(files, incoming).files &&
      UpdateFiles(files, incoming).files[c] == FetcherMerge(Load(files, c), OfCategory(incoming, c))
    ensures |OfCategory(incoming, c)| == 0 ==>
      (c in UpdateFiles(files, incoming).files <==> c in files) &&
      (c in files ==> UpdateFiles(files, incoming).files[c] == files[c])
  {
    FetcherCategoriesDistinct();
    var cats := UpdateCategories(files, incoming, FetcherCategories);
    var merged := FetcherMerge(Load(files, "all"), incoming);
    assert UpdateFiles(files, incoming).files == cats["all" := merged];
    UpdateCategoriesFacts(files, incoming, FetcherCategories, c);
  }

  lemma FetcherCategoriesDistinct()
    ensures forall i, j :: 0 <= i < j < |FetcherCategories| ==> FetcherCategories[i] != FetcherCategories[j]
    ensures "all" !in FetcherCategories
  {
  }

  /** Files of other keys are left alone. */
  lemma OtherFilesUntouched(files: map<string, Catalog>, incoming: Catalog, key: string)
    requires key != "all" && key !in FetcherCategories && key in files
    ensures key in UpdateFiles(files, incoming).files && UpdateFiles(files, incoming).files[key] == files[key]
  {
    FetcherCategoriesDistinct();
    var cats := UpdateCategories(files, incoming, FetcherCategories);
    assert UpdateFiles(files, incoming).files == cats["all" := FetcherMerge(Load(files, "all"), incoming)];
    UpdateCategoriesFacts(files, incoming, FetcherCategories, key);
  }

  lemma IdInFilter(vs: Catalog, v: Video)
    requires v in vs
    ensures |OfCategory(vs, v.category)| > 0 && v.id in Ids(OfCategory(vs, v.category))
  {
    var batch := OfCategory(vs, v.category);
    OfCategoryMultiset(vs, v.category);
    assert v in multiset(batch);
    var j :| 0 <= j < |batch| && batch[j] == v;
    assert Ids(batch)[j] == v.id;
  }

  /** After the update every new record's id is in the all-videos file. */
  lemma NewIdsInAll(files: map<string, Catalog>, incoming: Catalog, v: Video)
    requires v in incoming
    ensures v.id in Ids(UpdateFiles(files, incoming).files["all"])
  {
    var cats := UpdateCategories(files, incoming, FetcherCategories);
    var merged := FetcherMerge(Load(files, "all"), incoming);
    assert UpdateFiles(files, incoming).files == cats["all" := merged];
    var i :| 0 <= i < |incoming| && incoming[i] == v;
    assert Ids(incoming)[i] == v.id;
    FetcherMergeIds(Load(files, "all"), incoming);
  }

  /** A new record of one of the four categories also lands in its category file. */
  lemma NewIdsInCategory(files: map<string, Catalog>, incoming: Catalog, v: Video)
    requires v in incoming && v.category in FetcherCategories
    ensures v.category in UpdateFiles(files, incoming).files
    ensures v.id in Ids(UpdateFiles(files, incoming).files[v.category])
  {
    var c := v.category;
    var batch := OfCategory(incoming, c);
    IdInFilter(incoming, v);
    UpdateFilesSpec(files, incoming, c);
    FetcherMergeIds(Load(files, c), batch);
  }
}
