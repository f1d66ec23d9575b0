/** The push-notification handler: the verification handshake, the feed
    checks, the short-clip filter, categorisation and the insertion of the
    new record at the front of the all-videos file and its category file.

    The XML feed, the YouTube lookup and storage are outside the model: the
    handler receives the parsed feed, the looked-up details and the stored
    files.  A stored file that does not exist reads as empty. */
module Webhook {
  import opened Wrappers
  import opened Text
  import opened Videos
  import opened Shorts
  import opened Classifier

  /** The channel ids of the channel table. */
  const MonitoredChannels: seq<string> := [
    "UCkBY0aHJP9BwjZLDYxAQrKg", "UCz1D0n02BR3t51KuBOPmfTQ", "UCiWrjBhlICf_L_RK5y6Vrxw",
    "UC2MHTOXktfTK26aDKyQs3cQ", "UCJA-NQ4MtcRIog66wziD8fA", "UCpNzXJ5jpcJojC5mHQvGA8w"
  ]

  // ---------------------------------------------------------------------
  // Storage update
  // ---------------------------------------------------------------------

  /** `if not any(v['id'] == new['id'] ...): videos.insert(0, new)`.
      The flag says whether the file was written. */
  function InsertIfAbsent(vs: Catalog, v: Video): (r: (Catalog, bool))
    ensures r.1 <==> v.id !in Ids(vs)
    ensures r.1 ==> r.0 == [v] + vs
    ensures !r.1 ==> r.0 == vs
  {
    if v.id in Ids(vs) then (vs, false) else ([v] + vs, true)
  }

  /** Inserting keeps a file free of repeated ids and leaves `v`'s id in it. */
  lemma InsertKeepsIdsDistinct(vs: Catalog, v: Video)
    requires IdsDistinct(vs)
    ensures IdsDistinct(InsertIfAbsent(vs, v).0)
    ensures v.id in Ids(InsertIfAbsent(vs, v).0)
  {
    var r := InsertIfAbsent(vs, v).0;
    if v.id !in Ids(vs) {
      forall j | 0 <= j < |vs|
        ensures vs[j].id != v.id
      {
        assert Ids(vs)[j] == vs[j].id;
      }
      assert Ids(r)[0] == v.id;
    } else {
      var j :| 0 <= j < |vs| && Ids(vs)[j] == v.id;
      assert Ids(r)[j] == v.id;
    }
  }

  /** Delivering the same record twice stores it once. */
  lemma InsertIdempotent(vs: Catalog, v: Video)
    ensures InsertIfAbsent(InsertIfAbsent(vs, v).0, v) == (InsertIfAbsent(vs, v).0, false)
  {
    var r := InsertIfAbsent(vs, v).0;
    if v.id !in Ids(vs) {
      assert Ids(r)[0] == v.id;
    }
  }

  function Load(files: map<string, Catalog>, key: string): Catalog {
    if key in files then files[key] else []
  }

  /** `update_json_files(new_video, category)`: the 'all' file, then the
      category file; true when either was written. */
  function UpdateFiles(files: map<string, Catalog>, v: Video, category: string): (r: (map<string, Catalog>, bool))
    requires category != "all"
  {
    var (all, a) := InsertIfAbsent(Load(files, "all"), v);
    var f1 := if a then files["all" := all] else files;
    var (cat, b) := InsertIfAbsent(Load(f1, category), v);
    var f2 := if b then f1[category := cat] else f1;
    (f2, a || b)
  }

  /** The update reports success exactly when one of the two files lacked
      the id; a file already holding it is left as it was; a file that
      lacked it gets the record in front. */
  lemma UpdateFilesSpec(files: map<string, Catalog>, v: Video, category: string)
    requires category != "all"
    ensures var (out, updated) := UpdateFiles(files, v, category);
      && (updated <==> v.id !in Ids(Load(files, "all")) || v.id !in Ids(Load(files, category)))
      && (v.id in Ids(Load(files, "all")) ==> Load(out, "all") == Load(files, "all"))
      && (v.id !in Ids(Load(files, "all")) ==> out["all"] == [v] + Load(files, "all"))
      && (v.id in Ids(Load(files, category)) ==> Load(out, category) == Load(files, category))
      && (v.id !in Ids(Load(files, category)) ==> out[category] == [v] + Load(files, category))
      && (forall k :: k != "all" && k != category ==> (k in out <==> k in files) && (k in files ==> out[k] == files[k]))
  {
  }

  // ---------------------------------------------------------------------
  // The handler
  // ---------------------------------------------------------------------

  /** `event['queryStringParameters']`: absent, null, or a parameter map. */
  datatype Query = NoQuery | NullQuery | Params(params: map<string, string>)

  /** An `<entry>` element: how many children it has, and the text of its
      video id and channel id children (outer `None`: no such child;
      inner `None`: a child without text). */
  datatype FeedEntry = FeedEntry(children: nat, videoId: Option<Option<string>>, channelId: Option<Option<string>>)

  /** What parsing the body gave: not XML, or the feed's first entry if any. */
  datatype Feed = Malformed | Parsed(entry: Option<FeedEntry>)

  /** The fields of the API's answer the handler reads; `None` where a key is missing. */
  datatype Details = Details(
    title: Option<string>,
    description: Option<string>,
    seconds: Option<int>,           // parsed duration, `None` if missing or unparsable
    duration: Option<string>,
    thumbnailHigh: Option<string>,
    views: Option<Option<string>>,  // outer `None`: no `statistics`; inner `None`: no `viewCount`
    channelTitle: Option<string>,
    publishedAt: Option<string>)

  datatype Body =
    | Text(text: string)
    | Message(message: string)      // `json.dumps({'message': ...})`
    | Processed(success: bool, videoId: string, category: string)
    | ErrorText                     // `str(e)` of the exception caught

  datatype Response = Response(status: int, body: Body)

  datatype Outcome = Outcome(response: Response, files: map<string, Catalog>)

  /** The record the handler stores; `None` where a field it reads is missing. */
  function NewRecord(videoId: string, channelId: string, d: Details, category: Category, teams: seq<string>): (r: Option<Video>)
    ensures r.Some? <==> d.title.Some? && d.thumbnailHigh.Some? && d.duration.Some?
                         && d.views.Some? && d.channelTitle.Some? && d.publishedAt.Some?
    ensures r.Some? ==> r.value.id == videoId && r.value.category == category.Label()
                        && r.value.channelId == Some(channelId)
                        && r.value.views == d.views.value.GetOr("N/A")
  {
    if d.title.Some? && d.thumbnailHigh.Some? && d.duration.Some? && d.views.Some?
       && d.channelTitle.Some? && d.publishedAt.Some? then
      Some(Video(
        id := videoId,
        title := d.title.value,
        thumbnailUrl := d.thumbnailHigh.value,
        externalUrl := None,
        duration := d.duration,
        views := d.views.value.GetOr("N/A"),
        category := category.Label(),
        teams := teams,
        channelId := Some(channelId),
        channelName := d.channelTitle.value,
        source := None,
        uploadDate := d.publishedAt.value,
        disclaimer := None))
    else None
  }

  /** `event.get('queryStringParameters', {}).get('hub.challenge')`, with
      a missing value read as the empty string (both are falsy). */
  function Challenge(query: Query): string {
    match query
    case Params(p) => if "hub.challenge" in p then p["hub.challenge"] else ""
    case _ => ""
  }

  /** The steps after the channel check: the short filter, categorisation,
      the record and the storage update. */
  function Process(videoId: string, channelId: string, d: Details, files: map<string, Catalog>): (o: Outcome)
    ensures !(o.response.body.Processed? && o.response.body.success) ==> o.files == files
  {
    if WebhookIsShort(d.seconds, d.title) then Outcome(Response(200, Message("Ignored short video")), files)
    else if d.title.None? then Outcome(Response(500, ErrorText), files)
    else
      var cls := Categorize(d.title.value, d.description.GetOr(""), channelId);
      Store(videoId, channelId, d, cls, files)
  }

  function Store(videoId: string, channelId: string, d: Details, cls: Classification,
                 files: map<string, Catalog>): (o: Outcome)
    ensures !(o.response.body.Processed? && o.response.body.success) ==> o.files == files
  {
    match NewRecord(videoId, channelId, d, cls.category, cls.teams)
    case None => Outcome(Response(500, ErrorText), files)
    case Some(v) =>
      var (out, ok) := UpdateFiles(files, v, cls.category.Label());
      Outcome(Response(200, Processed(ok, videoId, cls.category.Label())), out)
  }

  /** `lambda_handler`.  `details` is what the API lookup returned for the
      entry's video id. */
  function Handle(query: Query, body: Option<string>, feed: Feed, details: Option<Details>,
                  files: map<string, Catalog>): (o: Outcome)
    ensures o.response.status == 200 || o.response.status == 400 || o.response.status == 500
    ensures o.response.body.Processed? ==> o.response.status == 200 && details.Some? && body.Some?
  {
    if query.NullQuery? then Outcome(Response(500, ErrorText), files)
    else
      var challenge := Challenge(query);
      if challenge != "" then Outcome(Response(200, Text(challenge)), files)
      else if body.None? || body.value == "" then Outcome(Response(400, Text("No body in request")), files)
      else
        match feed
        case Malformed => Outcome(Response(500, ErrorText), files)
        case Parsed(entry) =>
          if entry.None? || entry.value.children == 0 then Outcome(Response(400, Text("No entry in feed")), files)
          else
            var e := entry.value;
            if e.videoId.None? || e.channelId.None? then Outcome(Response(500, ErrorText), files)
            else if e.channelId.value.None? || e.channelId.value.value !in MonitoredChannels then
              Outcome(Response(200, Text("Not from monitored channel")), files)
            else if e.videoId.value.None? || details.None? then
              Outcome(Response(400, Text("Could not get video details")), files)
            else Process(e.videoId.value.value, e.channelId.value.value, details.value, files)
  }

  /** A non-empty `hub.challenge` is echoed before anything else is looked at. */
  lemma ChallengeEchoed(params: map<string, string>, body: Option<string>, feed: Feed,
                        details: Option<Details>, files: map<string, Catalog>)
    requires "hub.challenge" in params && params["hub.challenge"] != ""
    ensures Handle(Params(params), body, feed, details, files)
            == Outcome(Response(200, Text(params["hub.challenge"])), files)
  {
  }

  predicate NoChallenge(query: Query) {
    query.NoQuery? || (query.Params? && ("hub.challenge" !in query.params || query.params["hub.challenge"] == ""))
  }

  /** Without a challenge, an empty or missing body is a bad request. */
  lemma EmptyBodyRejected(query: Query, body: Option<string>, feed: Feed, details: Option<Details>,
                          files: map<string, Catalog>)
    requires NoChallenge(query) && (body.None? || body.value == "")
    ensures Handle(query, body, feed, details, files) == Outcome(Response(400, Text("No body in request")), files)
  {
  }

  /** An entry from a channel outside the table is acknowledged and dropped
      without categorisation or lookup: the details do not matter. */
  lemma UnmonitoredIgnored(query: Query, body: string, e: FeedEntry, details: Option<Details>,
                           files: map<string, Catalog>)
    requires NoChallenge(query) && body != ""
    requires e.children > 0 && e.videoId.Some? && e.channelId.Some?
    requires e.channelId.value.None? || e.channelId.value.value !in MonitoredChannels
    ensures Handle(query, Some(body), Parsed(Some(e)), details, files)
            == Outcome(Response(200, Text("Not from monitored channel")), files)
  {
  }

  /** Storage changes only on the last step: every other answer leaves the
      files as they were, and a success is reported exactly when a file changed. */
  lemma FilesChangeOnlyWhenProcessed(query: Query, body: Option<string>, feed: Feed,
                                     details: Option<Details>, files: map<string, Catalog>)
    ensures var o := Handle(query, body, feed, details, files);
      !o.response.body.Processed? ==> o.files == files
    ensures var o := Handle(query, body, feed, details, files);
      o.response.body.Processed? && !o.response.body.success ==> o.files == files
  {
  }

  /** A stored video is at the front of the all-videos file unless that
      file already had its id; either way the id is there afterwards. */
  lemma StoreSpec(videoId: string, channelId: string, d: Details, cls: Classification, files: map<string, Catalog>)
    requires Store(videoId, channelId, d, cls, files).response.body.Processed?
    ensures "all" in Store(videoId, channelId, d, cls, files).files
    ensures videoId in Ids(Store(videoId, channelId, d, cls, files).files["all"])
  {
    var v := NewRecord(videoId, channelId, d, cls.category, cls.teams).value;
    UpdateFilesSpec(files, v, cls.category.Label());
    InsertKeepsId(Load(files, "all"), v);
  }

  /** A video that reaches the storage step is not a short. */
  lemma ProcessSkipsShorts(videoId: string, channelId: string, d: Details, files: map<string, Catalog>)
    requires Process(videoId, channelId, d, files).response.body.Processed?
    ensures !WebhookIsShort(d.seconds, d.title) && d.title.Some?
  {
  }

  lemma InsertKeepsId(vs: Catalog, v: Video)
    ensures v.id in Ids(InsertIfAbsent(vs, v).0)
  {
    var r := InsertIfAbsent(vs, v).0;
    if v.id !in Ids(vs) {
      assert Ids(r)[0] == v.id;
    }
  }
}
