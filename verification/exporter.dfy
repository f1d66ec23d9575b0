/** The database exporter's file layout: the whole table in one file and
    one file per listed category.  The table rows arrive as the catalog,
    already in the order the query returned them. */
module Exporter {
  import opened Videos

  const DbCategories: seq<string> := ["matches", "interviews", "training", "classic", "other"]

  /** The files written, by name. */
  function Export(all: Catalog): (r: map<string, Catalog>)
    ensures "all" in r && r["all"] == all
    ensures forall i :: 0 <= i < |DbCategories| ==> DbCategories[i] in r
    ensures forall c :: c in r ==> c == "all" || c in DbCategories
  {
    map c | c in ["all"] + DbCategories :: if c == "all" then all else OfCategory(all, c)
  }

  /** The records whose category is none of the listed ones. */
  function Unlisted(all: Catalog): (r: Catalog)
    ensures forall i :: 0 <= i < |r| ==> r[i] in all && r[i].category !in DbCategories
    decreases |all|
  {
    if |all| == 0 then []
    else
      var rest := Unlisted(all[1..]);
      if all[0].category in DbCategories then rest else [all[0]] + rest
  }

  lemma {:induction false} UnlistedMultiset(all: Catalog)
    ensures forall v :: multiset(Unlisted(all))[v] == if v.category in DbCategories then 0 else multiset(all)[v]
    decreases |all|
  {
    if |all| > 0 {
      UnlistedMultiset(all[1..]);
      assert all == [all[0]] + all[1..];
    }
  }

  /** Each category file is the order-preserving filter of the whole table. */
  lemma CategoryFileIsFilter(all: Catalog, i: nat)
    requires i < |DbCategories|
    ensures Export(all)[DbCategories[i]] == OfCategory(all, DbCategories[i])
    ensures forall v :: multiset(Export(all)[DbCategories[i]])[v]
                        == if v.category == DbCategories[i] then multiset(all)[v] else 0
  {
    ExportCategory(all, DbCategories[i]);
    OfCategoryMultiset(all, DbCategories[i]);
  }

  lemma ExportCategory(all: Catalog, c: string)
    requires c in DbCategories
    ensures Export(all)[c] == OfCategory(all, c)
  {
    assert c != "all";
    assert c in ["all"] + DbCategories;
  }

  /** A record of an unlisted category is in no category file. */
  lemma UnlistedOnlyInAll(all: Catalog, v: Video)
    requires v.category !in DbCategories
    ensures forall c :: c in Export(all) && c != "all" ==> v !in Export(all)[c]
  {
  }

  /** The category files and the unlisted records split the table exactly:
      every record is in one of them, as often as it is in the table. */
  lemma ExportPartitions(all: Catalog)
    ensures multiset(all) ==
      multiset(OfCategory(all, "matches")) + multiset(OfCategory(all, "interviews"))
      + multiset(OfCategory(all, "training")) + multiset(OfCategory(all, "classic"))
      + multiset(OfCategory(all, "other")) + multiset(Unlisted(all))
  {
    var parts := multiset(OfCategory(all, "matches")) + multiset(OfCategory(all, "interviews"))
      + multiset(OfCategory(all, "training")) + multiset(OfCategory(all, "classic"))
      + multiset(OfCategory(all, "other")) + multiset(Unlisted(all));
    forall v
      ensures multiset(all)[v] == parts[v]
    {
      PartitionAt(all, v);
    }
  }

  lemma PartitionAt(all: Catalog, v: Video)
    ensures multiset(all)[v] ==
      multiset(OfCategory(all, "matches"))[v] + multiset(OfCategory(all, "interviews"))[v]
      + multiset(OfCategory(all, "training"))[v] + multiset(OfCategory(all, "classic"))[v]
      + multiset(OfCategory(all, "other"))[v] + multiset(Unlisted(all))[v]
  {
    OfCategoryMultiset(all, "matches");
    OfCategoryMultiset(all, "interviews");
    OfCategoryMultiset(all, "training");
    OfCategoryMultiset(all, "classic");
    OfCategoryMultiset(all, "other");
    UnlistedMultiset(all);
  }
}
