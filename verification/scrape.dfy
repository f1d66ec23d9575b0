/** Turning scraped or fetched attributes into catalog records: the board
    scraper's record construction and the YouTube fetcher's thumbnail
    choice.  Page parsing is outside the model; each video element is given
    as its attribute map. */
module Scrape {
  import opened Wrappers
  import opened Text
  import opened Teams
  import opened Videos

  /** The attributes a record cannot be built without. */
  predicate HasRequired(attrs: map<string, string>) {
    "data-videoid" in attrs && "data-title" in attrs && "data-thumbnile" in attrs && "data-videodate" in attrs
  }

  /** `element.get('data-share') or <link built from the slug>`. */
  function VideoLink(attrs: map<string, string>, source: string): (r: string)
    ensures "data-share" in attrs && attrs["data-share"] != "" ==> r == attrs["data-share"]
    ensures !("data-share" in attrs && attrs["data-share"] != "") ==>
      exists slug :: r == "https://www." + Lower(source) + ".tv/videos/" + slug
  {
    if "data-share" in attrs && attrs["data-share"] != "" then attrs["data-share"]
    else
      var slug := if "data-videoslug" in attrs then attrs["data-videoslug"] else "";
      "https://www." + Lower(source) + ".tv/videos/" + slug
  }

  /** One element of the board's video list; `None` where a required
      attribute is missing (the scraper logs the error and skips the element). */
  function BoardRecord(attrs: map<string, string>, source: string, disclaimer: string): (r: Option<Video>)
    ensures r.Some? <==> HasRequired(attrs)
    ensures r.Some? ==>
      && r.value.id == Lower(source) + "_" + attrs["data-videoid"]
      && r.value.title == attrs["data-title"]
      && r.value.category == "matches"
      && r.value.teams == BoardTeams(attrs["data-title"])
      && r.value.views == (if "data-videoview" in attrs then attrs["data-videoview"] else "N/A")
      && r.value.externalUrl == Some(VideoLink(attrs, source))
      && r.value.uploadDate == attrs["data-videodate"]
      && r.value.source == Some(source) && r.value.channelName == source
  {
    if HasRequired(attrs) then
      Some(Video(
        id := Lower(source) + "_" + attrs["data-videoid"],
        title := attrs["data-title"],
        thumbnailUrl := attrs["data-thumbnile"],
        externalUrl := Some(VideoLink(attrs, source)),
        duration := None,
        views := if "data-videoview" in attrs then attrs["data-videoview"] else "N/A",
        category := "matches",
        teams := BoardTeams(attrs["data-title"]),
        channelId := None,
        channelName := source,
        source := Some(source),
        uploadDate := attrs["data-videodate"],
        disclaimer := Some(disclaimer)))
    else None
  }

  /** The records of a page, in element order, skipping elements that fail. */
  function BoardRecords(elements: seq<map<string, string>>, source: string, disclaimer: string): (r: Catalog)
    ensures |r| <= |elements|
    ensures forall i :: 0 <= i < |r| ==> r[i].category == "matches" && |r[i].teams| >= 1
    decreases |elements|
  {
    if |elements| == 0 then []
    else
      var rest := BoardRecords(elements[1..], source, disclaimer);
      match BoardRecord(elements[0], source, disclaimer)
      case Some(v) =>
        BoardTeamsSpec(v.title);
        [v] + rest
      case None => rest
  }

  /** Every kept record comes from an element that had all required attributes. */
  lemma {:induction false} BoardRecordsFromElements(elements: seq<map<string, string>>, source: string, disclaimer: string)
    ensures forall v :: v in BoardRecords(elements, source, disclaimer) ==>
      exists i :: 0 <= i < |elements| && BoardRecord(elements[i], source, disclaimer) == Some(v)
    decreases |elements|
  {
    if |elements| > 0 {
      BoardRecordsFromElements(elements[1..], source, disclaimer);
      forall v | v in BoardRecords(elements, source, disclaimer)
        ensures exists i :: 0 <= i < |elements| && BoardRecord(elements[i], source, disclaimer) == Some(v)
      {
        if BoardRecord(elements[0], source, disclaimer) != Some(v) {
          var i :| 0 <= i < |elements[1..]| && BoardRecord(elements[1..][i], source, disclaimer) == Some(v);
          assert elements[i + 1] == elements[1..][i];
        }
      }
    }
  }

  /** Two elements of one page with distinct video ids give distinct record ids. */
  lemma BoardIdsInjective(a: map<string, string>, b: map<string, string>, source: string, disclaimer: string)
    requires HasRequired(a) && HasRequired(b) && a["data-videoid"] != b["data-videoid"]
    ensures BoardRecord(a, source, disclaimer).Some? && BoardRecord(b, source, disclaimer).Some?
    ensures BoardRecord(a, source, disclaimer).value.id != BoardRecord(b, source, disclaimer).value.id
  {
    var p := Lower(source) + "_";
    assert BoardRecord(a, source, disclaimer).value.id[|p|..] == a["data-videoid"];
    assert BoardRecord(b, source, disclaimer).value.id[|p|..] == b["data-videoid"];
  }

  // ---------------------------------------------------------------------
  // YouTube thumbnails
  // ---------------------------------------------------------------------

  /** Thumbnail sizes, best first. */
  const Qualities: seq<string> := ["maxres", "high", "medium", "default"]

  function FirstPresent(thumbnails: map<string, string>, qs: seq<string>): (r: Option<string>)
    ensures r.None? <==> forall i :: 0 <= i < |qs| ==> qs[i] !in thumbnails
    ensures r.Some? ==> exists i :: 0 <= i < |qs| && qs[i] in thumbnails && r.value == thumbnails[qs[i]]
                                    && forall j :: 0 <= j < i ==> qs[j] !in thumbnails
    decreases |qs|
  {
    if |qs| == 0 then None
    else if qs[0] in thumbnails then Some(thumbnails[qs[0]])
    else
      var r := FirstPresent(thumbnails, qs[1..]);
      if r.Some? then
        ghost var i :| 0 <= i < |qs[1..]| && qs[1..][i] in thumbnails && r.value == thumbnails[qs[1..][i]]
                       && forall j :: 0 <= j < i ==> qs[1..][j] !in thumbnails;
        assert qs[i + 1] == qs[1..][i];
        r
      else r
  }

  /** `get_best_thumbnail`: the URL of the largest size present, else the
      standard high-quality URL built from the video id.  `thumbnails`
      maps each size present to its URL. */
  function BestThumbnail(thumbnails: map<string, string>, id: string): (r: string)
    ensures "maxres" in thumbnails ==> r == thumbnails["maxres"]
    ensures "maxres" !in thumbnails && "high" in thumbnails ==> r == thumbnails["high"]
    ensures (forall i :: 0 <= i < |Qualities| ==> Qualities[i] !in thumbnails) ==>
      r == "https://i.ytimg.com/vi/" + id + "/hqdefault.jpg"
    ensures forall i ::
      (0 <= i < |Qualities| && Qualities[i] in thumbnails && forall j :: 0 <= j < i ==> Qualities[j] !in thumbnails)
      ==> r == thumbnails[Qualities[i]]
    ensures (exists i :: 0 <= i < |Qualities| && Qualities[i] in thumbnails) ==> r in thumbnails.Values
  {
    match FirstPresent(thumbnails, Qualities)
    case Some(u) => u
    case None => "https://i.ytimg.com/vi/" + id + "/hqdefault.jpg"
  }
}
