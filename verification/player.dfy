/** The browser video player: duration formatting, twenty-per-page paging,
    and the state kept across category changes, team selection and "load
    more".  The JSON files the page fetches are a map from category name to
    catalog; a category without a file is a failed fetch. */
module Player {
  import opened Wrappers
  import opened Text
  import opened Teams
  import opened Videos

  // ---------------------------------------------------------------------
  // formatDuration
  // ---------------------------------------------------------------------

  /** The first position of "PT" in `s`, where the unanchored pattern matches. */
  function FindPT(s: string): (r: Option<nat>)
    ensures r.None? <==> !Contains(s, "PT")
    ensures r.Some? ==> r.value + 2 <= |s| && s[r.value..r.value + 2] == "PT"
    decreases |s|
  {
    if StartsWith(s, "PT") then Some(0)
    else if |s| == 0 then None
    else match FindPT(s[1..])
      case None => None
      case Some(i) => assert s[1..][i..i + 2] == s[i + 1..i + 3]; Some(i + 1)
  }

  /** The longest run of digits at the start of `s` (what a greedy `\d+` takes). */
  function DigitRun(s: string): (r: string)
    ensures AllDigits(r) && |r| <= |s| && r == s[..|r|]
    ensures |r| < |s| ==> !IsDigit(s[|r|])
    decreases |s|
  {
    if |s| > 0 && IsDigit(s[0]) then [s[0]] + DigitRun(s[1..]) else ""
  }

  /** One optional group `(?:(\d+)U)?` of the pattern: its number and the
      text after it, or 0 and the text untouched when the group is absent. */
  function Component(s: string, unit: char): (nat, string) {
    var ds := DigitRun(s);
    if 0 < |ds| < |s| && s[|ds|] == unit then (DigitsValue(ds), s[|ds| + 1..]) else (0, s)
  }

  /** The three optional groups after "PT", in order. */
  function Clock(t: string): (nat, nat, nat) {
    var (h, afterH) := Component(t, 'H');
    var (m, sec) := MinSec(afterH);
    (h, m, sec)
  }

  /** The minutes and seconds groups. */
  function MinSec(t: string): (nat, nat) {
    var (m, afterM) := Component(t, 'M');
    var (sec, _) := Component(afterM, 'S');
    (m, sec)
  }

  /** Hours, minutes and seconds of `PT(?:(\d+)H)?(?:(\d+)M)?(?:(\d+)S)?`,
      or `None` when the pattern does not match. */
  function DurationParts(s: string): (r: Option<(nat, nat, nat)>)
    ensures r.None? <==> !Contains(s, "PT")
  {
    match FindPT(s)
    case None => None
    case Some(i) => Some(Clock(s[i + 2..]))
  }

  /** `formatDuration`: "H:MM:SS" with hours, "M:SS" without; a string the
      pattern does not match comes back unchanged. */
  function FormatDuration(d: string): (r: string)
    ensures !Contains(d, "PT") ==> r == d
    ensures Contains(d, "PT") ==> ':' in r
  {
    match DurationParts(d)
    case None => d
    case Some((h, m, s)) =>
      if h > 0 then NatToString(h) + ":" + PadStart2(NatToString(m)) + ":" + PadStart2(NatToString(s))
      else NatToString(m) + ":" + PadStart2(NatToString(s))
  }

  /** An optional duration component as written in ISO 8601: "12M", or nothing. */
  function Part(x: Option<nat>, unit: char): string {
    if x.Some? then NatToString(x.value) + [unit] else ""
  }

  lemma {:induction false} DigitRunOf(a: string, rest: string)
    requires AllDigits(a) && (|rest| == 0 || !IsDigit(rest[0]))
    ensures DigitRun(a + rest) == a
    decreases |a|
  {
    if |a| == 0 {
      assert a + rest == rest;
    } else {
      assert (a + rest)[1..] == a[1..] + rest;
      DigitRunOf(a[1..], rest);
      assert [a[0]] + a[1..] == a;
    }
  }

  /** A present group yields its number and moves past its unit letter. */
  lemma ComponentPresent(n: nat, unit: char, rest: string)
    requires !IsDigit(unit)
    ensures Component(NatToString(n) + [unit] + rest, unit) == (n, rest)
  {
    var s := NatToString(n) + [unit] + rest;
    assert s == NatToString(n) + ([unit] + rest);
    DigitRunOf(NatToString(n), [unit] + rest);
    DigitsValueOfNatToString(n);
    assert s[|NatToString(n)| + 1..] == rest;
  }

  /** A group for another unit is left for a later group. */
  lemma ComponentOther(n: nat, other: char, rest: string, unit: char)
    requires !IsDigit(other) && other != unit
    ensures Component(NatToString(n) + [other] + rest, unit) == (0, NatToString(n) + [other] + rest)
  {
    var s := NatToString(n) + [other] + rest;
    assert s == NatToString(n) + ([other] + rest);
    DigitRunOf(NatToString(n), [other] + rest);
  }

  /** Every component present in an ISO 8601 duration is read back, and a
      missing one counts as zero. */
  lemma DurationPartsRoundTrip(h: Option<nat>, m: Option<nat>, s: Option<nat>)
    ensures DurationParts("PT" + Part(h, 'H') + Part(m, 'M') + Part(s, 'S'))
            == Some((h.GetOr(0), m.GetOr(0), s.GetOr(0)))
  {
    var rest := Part(h, 'H') + Part(m, 'M') + Part(s, 'S');
    assert "PT" + Part(h, 'H') + Part(m, 'M') + Part(s, 'S') == "PT" + rest;
    DurationPartsAfterPT(rest);
    ClockRoundTrip(h, m, s);
  }

  lemma DurationPartsAfterPT(rest: string)
    ensures DurationParts("PT" + rest) == Some(Clock(rest))
  {
    assert StartsWith("PT" + rest, "PT");
    assert ("PT" + rest)[2..] == rest;
  }

  lemma ClockRoundTrip(h: Option<nat>, m: Option<nat>, s: Option<nat>)
    ensures Clock(Part(h, 'H') + Part(m, 'M') + Part(s, 'S')) == (h.GetOr(0), m.GetOr(0), s.GetOr(0))
  {
    var ms := Part(m, 'M') + Part(s, 'S');
    assert Part(h, 'H') + Part(m, 'M') + Part(s, 'S') == Part(h, 'H') + ms;
    LaterPartsShape(m, s);
    ComponentStep(h, 'H', ms, ['M', 'S']);
    MinSecRoundTrip(m, s);
  }

  lemma MinSecRoundTrip(m: Option<nat>, s: Option<nat>)
    ensures MinSec(Part(m, 'M') + Part(s, 'S')) == (m.GetOr(0), s.GetOr(0))
  {
    LaterPartsShape(None, s);
    assert Part(None, 'M') + Part(s, 'S') == Part(s, 'S');
    ComponentStep(m, 'M', Part(s, 'S'), ['S']);
    ComponentStep(s, 'S', "", []);
    assert Part(s, 'S') + "" == Part(s, 'S');
  }

  /** What follows the hours group is empty or starts with a number and a
      later unit letter. */
  lemma LaterPartsShape(m: Option<nat>, s: Option<nat>)
    ensures var ms := Part(m, 'M') + Part(s, 'S');
      ms == "" || exists n: nat, c, tail :: c in (if m.Some? then ['M', 'S'] else ['S']) && ms == NatToString(n) + [c] + tail
  {
    var ms := Part(m, 'M') + Part(s, 'S');
    if m.Some? {
      assert ms == NatToString(m.value) + ['M'] + Part(s, 'S');
    } else if s.Some? {
      assert ms == NatToString(s.value) + ['S'] + "";
    }
  }

  /** One group of a well-formed duration: its own part is consumed, and a
      rest made of parts for later units is left alone. */
  lemma ComponentStep(x: Option<nat>, unit: char, rest: string, later: seq<char>)
    requires !IsDigit(unit) && unit !in later
    requires forall c :: c in later ==> !IsDigit(c)
    requires rest == "" || exists n: nat, c, tail :: c in later && rest == NatToString(n) + [c] + tail
    ensures Component(Part(x, unit) + rest, unit) == (x.GetOr(0), rest)
  {
    if x.Some? {
      assert Part(x, unit) + rest == NatToString(x.value) + [unit] + rest;
      ComponentPresent(x.value, unit, rest);
    } else {
      assert Part(x, unit) + rest == rest;
      if rest != "" {
        var n: nat, c, tail :| c in later && rest == NatToString(n) + [c] + tail;
        ComponentOther(n, c, tail, unit);
      }
    }
  }

  /** For any ISO 8601 duration "PT[nH][nM][nS]" (each component optional,
      a missing one read as zero): with hours the clock reads H:MM:SS,
      without them M:SS, minutes after hours and seconds zero-padded to two
      digits; seconds below 100 are the two digits after the last colon. */
  lemma FormatDurationSpec(h: Option<nat>, m: Option<nat>, s: Option<nat>)
    ensures var r := FormatDuration("PT" + Part(h, 'H') + Part(m, 'M') + Part(s, 'S'));
      var (hh, mm, ss) := (h.GetOr(0), m.GetOr(0), s.GetOr(0));
      && (hh > 0 ==> r == NatToString(hh) + ":" + PadStart2(NatToString(mm)) + ":" + PadStart2(NatToString(ss)))
      && (hh == 0 ==> r == NatToString(mm) + ":" + PadStart2(NatToString(ss)))
      && (ss < 100 ==> |r| >= 3 && r[|r| - 3] == ':' && r[|r| - 2..] == PadStart2(NatToString(ss))
                       && AllDigits(r[|r| - 2..]) && DigitsValue(r[|r| - 2..]) == ss)
  {
    DurationPartsRoundTrip(h, m, s);
    var (hh, mm, ss) := (h.GetOr(0), m.GetOr(0), s.GetOr(0));
    if ss < 100 {
      PadSeconds(ss);
      if hh > 0 {
        ColonBeforeSeconds(NatToString(hh) + ":" + PadStart2(NatToString(mm)), PadStart2(NatToString(ss)));
      } else {
        ColonBeforeSeconds(NatToString(mm), PadStart2(NatToString(ss)));
      }
    }
  }

  lemma ColonBeforeSeconds(prefix: string, secs: string)
    requires |secs| == 2
    ensures var r := prefix + ":" + secs; |r| >= 3 && r[|r| - 3] == ':' && r[|r| - 2..] == secs
  {
  }

  lemma PadSeconds(s: nat)
    requires s < 100
    ensures |PadStart2(NatToString(s))| == 2 && AllDigits(PadStart2(NatToString(s)))
    ensures DigitsValue(PadStart2(NatToString(s))) == s
  {
    DigitsValueOfNatToString(s);
    var t := NatToString(s);
    if s < 10 {
      assert t == [DigitChar(s)];
      assert PadStart2(t) == "0" + t;
      assert ("0" + t)[..1] == "0";
    } else {
      assert t == NatToString(s / 10) + [DigitChar(s % 10)];
      assert NatToString(s / 10) == [DigitChar(s / 10)];
    }
  }

  /** The example in the page's own comment. */
  lemma FormatDurationExample(iso: string)
    requires iso == "PT1H2M10S"
    ensures FormatDuration(iso) == "1:02:10"
  {
    ExampleParts(iso);
    FormatDurationSpec(Some(1), Some(2), Some(10));
    ExampleDigits();
    ExampleClock(NatToString(1), NatToString(2), NatToString(10));
  }

  lemma ExampleParts(iso: string)
    requires iso == "PT1H2M10S"
    ensures iso == "PT" + Part(Some(1), 'H') + Part(Some(2), 'M') + Part(Some(10), 'S')
  {
    ExampleDigits();
  }

  lemma ExampleDigits()
    ensures NatToString(1) == "1" && NatToString(2) == "2" && NatToString(10) == "10"
  {
    assert NatToString(10) == NatToString(1) + [DigitChar(0)];
  }

  lemma ExampleClock(one: string, two: string, ten: string)
    requires one == "1" && two == "2" && ten == "10"
    ensures one + ":" + PadStart2(two) + ":" + PadStart2(ten) == "1:02:10"
  {
  }

  /** Missing components are zero: a bare "PT" reads as no time at all. */
  lemma FormatDurationEmpty()
    ensures FormatDuration("PT") == "0:00"
  {
    assert "PT" == "PT" + Part(None, 'H') + Part(None, 'M') + Part(None, 'S');
    DurationPartsRoundTrip(None, None, None);
  }

  // ---------------------------------------------------------------------
  // Paging
  // ---------------------------------------------------------------------

  const PageSize := 20

  function Min(a: int, b: int): int { if a <= b then a else b }

  /** `list.slice((page - 1) * 20, page * 20)`. */
  function PageOf<T>(s: seq<T>, page: nat): (r: seq<T>)
    requires page >= 1
    ensures |r| <= PageSize
    ensures |r| == if (page - 1) * PageSize >= |s| then 0 else Min(PageSize, |s| - (page - 1) * PageSize)
    ensures forall i :: 0 <= i < |r| ==> r[i] == s[(page - 1) * PageSize + i]
  {
    var start := Min((page - 1) * PageSize, |s|);
    var end := Min(page * PageSize, |s|);
    s[start..end]
  }

  /** What the first `pages` pages show together. */
  function Shown<T>(s: seq<T>, pages: nat): (r: seq<T>)
    ensures |r| == Min(pages * PageSize, |s|)
    ensures r == s[..|r|]
  {
    s[..Min(pages * PageSize, |s|)]
  }

  /** "Load more" is offered after page `page` when the list goes on. */
  predicate HasMore<T>(s: seq<T>, page: nat) {
    page * PageSize < |s|
  }

  /** Pages follow one another without gap or overlap. */
  lemma PagesConcat<T>(s: seq<T>, p: nat)
    ensures Shown(s, p) + PageOf(s, p + 1) == Shown(s, p + 1)
  {
    var a, b := Min(p * PageSize, |s|), Min((p + 1) * PageSize, |s|);
    assert PageOf(s, p + 1) == s[a..b];
    assert s[..a] + s[a..b] == s[..b];
  }

  /** The first page is the start of the list. */
  lemma FirstPage<T>(s: seq<T>)
    ensures PageOf(s, 1) == Shown(s, 1)
  {
  }

  /** "Load more" is offered exactly while some of the list is not shown yet. */
  lemma HasMoreIff<T>(s: seq<T>, p: nat)
    ensures HasMore(s, p) <==> Shown(s, p) != s
  {
    if !HasMore(s, p) {
      assert Shown(s, p) == s[..|s|] == s;
    } else {
      assert |Shown(s, p)| < |s|;
    }
  }

  // ---------------------------------------------------------------------
  // Team filter
  // ---------------------------------------------------------------------

  /** The page's team table: key, display name. */
  const TeamTable: seq<(string, string)> := [
    ("australia", "Australia"), ("india", "India"), ("england", "England"),
    ("pakistan", "Pakistan"), ("south africa", "South Africa"), ("new zealand", "New Zealand"),
    ("west indies", "West Indies"), ("sri lanka", "Sri Lanka"), ("bangladesh", "Bangladesh")
  ]

  function TeamName(key: string): (r: Option<string>)
    ensures r.Some? <==> exists i :: 0 <= i < |TeamTable| && TeamTable[i].0 == key
  {
    TeamNameIn(TeamTable, key)
  }

  function TeamNameIn(table: seq<(string, string)>, key: string): (r: Option<string>)
    ensures r.Some? <==> exists i :: 0 <= i < |table| && table[i].0 == key
    ensures r.Some? ==> exists i :: 0 <= i < |table| && table[i] == (key, r.value)
    decreases |table|
  {
    if |table| == 0 then None
    else if table[0].0 == key then Some(table[0].1)
    else
      var r := TeamNameIn(table[1..], key);
      assert forall i :: 1 <= i < |table| ==> table[i] == table[1..][i - 1];
      r
  }

  /** `videos.filter(v => extractTeams(v.title).includes(team))`. */
  function WithTeam(vs: Catalog, team: string): (r: Catalog)
    ensures |r| <= |vs|
    ensures forall v :: v in r <==> v in vs && team in AppTeams(v.title)
    decreases |vs|
  {
    if |vs| == 0 then []
    else
      var rest := WithTeam(vs[1..], team);
      assert forall v :: v in vs <==> v == vs[0] || v in vs[1..];
      if team in AppTeams(vs[0].title) then [vs[0]] + rest else rest
  }

  /** Every team the page extracts is capitalised. */
  lemma AppTeamsCapitalised(title: string)
    ensures forall x :: x in AppTeams(title) ==> |x| > 0 && IsUpperAscii(x[0])
  {
    DbTeamsEqualsAppTeams(title);
    DbTeamsSpec(title);
    forall x | x in AppTeams(title)
      ensures |x| > 0 && IsUpperAscii(x[0])
    {
      var i :| 0 <= i < |PlainNames| && x == PyTitle(PlainNames[i]) && Contains(Lower(title), PlainNames[i]);
      PlainNameStartsLower(i);
      PyTitleFirst(PlainNames[i]);
    }
  }

  lemma PlainNameStartsLower(i: nat)
    requires i < |PlainNames|
    ensures |PlainNames[i]| > 0 && IsLowerAscii(PlainNames[i][0])
  {
  }

  lemma PyTitleFirst(s: string)
    requires |s| > 0 && IsLowerAscii(s[0])
    ensures |PyTitle(s)| > 0 && IsUpperAscii(PyTitle(s)[0])
  {
  }

  /** A key that starts in lower case names no extracted team. */
  lemma {:induction false} LowerKeyMatchesNothing(vs: Catalog, key: string)
    requires |key| > 0 && IsLowerAscii(key[0])
    ensures WithTeam(vs, key) == []
    decreases |vs|
  {
    if |vs| > 0 {
      LowerKeyMatchesNothing(vs[1..], key);
      if key in AppTeams(vs[0].title) {
        AppTeamsCapitalised(vs[0].title);
      }
    }
  }

  // ---------------------------------------------------------------------
  // Page state
  // ---------------------------------------------------------------------

  const NoVideosFound := "No videos found for the selected filters."
  const LoadFailed := "Failed to load videos. Please try again."
  const LoadMoreFailed := "Failed to load more videos."
  const NoMoreVideos := "No more videos to load"

  /** The player's fields, with what the page shows: whether the "load
      more" button is visible and the message under the grid, if any. */
  datatype State = State(
    videos: Catalog,
    currentPage: nat,
    loading: bool,
    currentCategory: string,
    currentTeam: Option<string>,
    loadMoreShown: bool,
    notice: Option<string>)

  /** The constructor's state. */
  function Initial(): (st: State)
    ensures st.currentPage == 1 && st.currentCategory == "all" && st.currentTeam.None? && !st.loading
  {
    State([], 1, false, "all", None, false, None)
  }

  predicate Valid(st: State) {
    st.currentPage >= 1
  }

  /** JavaScript truthiness of the team field: `null` and `''` are false. */
  predicate TeamSelected(team: Option<string>) {
    team.Some? && team.value != ""
  }

  /** The videos of `all` for the selected team, or all of them. */
  function Filtered(all: Catalog, team: Option<string>): (r: Catalog)
    ensures !TeamSelected(team) ==> r == all
    ensures TeamSelected(team) ==> forall v :: v in r <==> v in all && team.value in AppTeams(v.title)
  {
    if TeamSelected(team) then WithTeam(all, team.value) else all
  }

  /** The fetch of `<category>_videos.json`. */
  function Fetch(files: map<string, Catalog>, category: string): Option<Catalog> {
    if category in files then Some(files[category]) else None
  }

  /** The body of `loadVideos` once the file is fetched (`None`: the fetch failed). */
  function ShowPage(st: State, fetched: Option<Catalog>): (r: State)
    requires Valid(st)
    ensures Valid(r) && r.currentPage == st.currentPage && r.currentCategory == st.currentCategory
    ensures r.currentTeam == st.currentTeam
    ensures fetched.None? ==> r == st.(loadMoreShown := false, notice := Some(LoadFailed))
    ensures fetched.Some? ==>
      var filtered := Filtered(fetched.value, st.currentTeam);
      if |PageOf(filtered, st.currentPage)| > 0
      then r.videos == PageOf(filtered, st.currentPage) && r.notice.None?
           && (r.loadMoreShown <==> HasMore(filtered, st.currentPage))
      else r.videos == st.videos && r.notice == Some(NoVideosFound) && !r.loadMoreShown
  {
    match fetched
    case None => st.(loadMoreShown := false, notice := Some(LoadFailed))
    case Some(all) =>
      var filtered := Filtered(all, st.currentTeam);
      var pageVideos := PageOf(filtered, st.currentPage);
      if |pageVideos| > 0 then
        st.(videos := pageVideos, loadMoreShown := st.currentPage * PageSize < |filtered|, notice := None)
      else st.(loadMoreShown := false, notice := Some(NoVideosFound))
  }

  /** The file `loadVideos` reads, as written: the matches file only for a
      team outside the teams tab. */
  function SourceAsWritten(st: State): string {
    if TeamSelected(st.currentTeam) && st.currentCategory != "teams" then "matches" else st.currentCategory
  }

  /** The file the team view needs: the matches file whenever a team is selected. */
  function Source(st: State): (r: string)
    ensures TeamSelected(st.currentTeam) ==> r == "matches"
    ensures !TeamSelected(st.currentTeam) ==> r == st.currentCategory
  {
    if TeamSelected(st.currentTeam) then "matches" else st.currentCategory
  }

  /** `loadVideos`, with the file choice corrected. */
  function LoadVideos(st: State, files: map<string, Catalog>): (r: State)
    requires Valid(st)
  {
    ShowPage(st, Fetch(files, Source(st)))
  }

  /** `loadVideos` as written. */
  function LoadVideosAsWritten(st: State, files: map<string, Catalog>): (r: State)
    requires Valid(st)
  {
    ShowPage(st, Fetch(files, SourceAsWritten(st)))
  }

  /** The teams tab: the grid replaces the video list and hides "load more". */
  function RenderTeamsGrid(st: State): (r: State)
    ensures !r.loadMoreShown && r.videos == st.videos && r.currentPage == st.currentPage
  {
    st.(loadMoreShown := false)
  }

  /** `loadContent`. */
  function LoadContent(st: State, files: map<string, Catalog>): (r: State)
    requires Valid(st)
  {
    if st.currentCategory == "teams" then RenderTeamsGrid(st) else LoadVideos(st, files)
  }

  /** `changeCategory`. */
  function ChangeCategory(st: State, category: string, files: map<string, Catalog>): (r: State)
    requires Valid(st)
  {
    if category == st.currentCategory then st
    else
      var st1 := st.(currentCategory := category, currentPage := 1,
                     currentTeam := if category != "teams" then None else st.currentTeam);
      LoadContent(st1, files)
  }

  /** `selectTeam`, corrected: the team's display name is what the filter
      compares against.  A key not in the table makes the page script throw after
      recording it. */
  function SelectTeam(st: State, key: string, files: map<string, Catalog>): (r: State)
    requires Valid(st)
  {
    match TeamName(key)
    case None => st.(currentTeam := Some(key))
    case Some(name) => LoadVideos(st.(currentTeam := Some(name), currentPage := 1), files)
  }

  /** `selectTeam` as written: the key itself becomes the filter. */
  function SelectTeamAsWritten(st: State, key: string, files: map<string, Catalog>): (r: State)
    requires Valid(st)
  {
    var st1 := st.(currentTeam := Some(key));
    if TeamName(key).None? then st1
    else LoadVideosAsWritten(st1.(currentPage := 1), files)
  }

  /** `clearTeamSelection`. */
  function ClearTeamSelection(st: State): (r: State)
    ensures r.currentTeam.None? && r.currentPage == 1 && !r.loadMoreShown
    ensures r.currentCategory == st.currentCategory && r.videos == st.videos
  {
    RenderTeamsGrid(st.(currentTeam := None, currentPage := 1))
  }

  /** The body of `loadMoreVideos` once the file is fetched and filtered. */
  function AppendPage(st: State, filtered: Catalog): (r: State)
    requires Valid(st)
  {
    var page := st.currentPage + 1;
    var next := PageOf(filtered, page);
    if |next| > 0 then
      var more := page * PageSize < |filtered|;
      st.(videos := st.videos + next, currentPage := page, loadMoreShown := more,
          notice := if more then st.notice else Some(NoMoreVideos))
    else st.(currentPage := page, loadMoreShown := false, notice := Some(NoMoreVideos))
  }

  /** `loadMoreVideos` as written: it reads the category file and keeps
      every video only when the team field is the string 'all'; any other
      value, `null` included, goes through the team filter. */
  function LoadMoreAsWritten(st: State, files: map<string, Catalog>): (r: State)
    requires Valid(st)
  {
    if st.loading then st
    else match Fetch(files, st.currentCategory)
      case None => st.(loadMoreShown := false, notice := Some(LoadMoreFailed))
      case Some(all) =>
        var filtered := if st.currentTeam == Some("all") then all
                        else if st.currentTeam.Some? then WithTeam(all, st.currentTeam.value)
                        else [];
        AppendPage(st, filtered)
  }

  /** `loadMoreVideos`, corrected: the same file and filter as `loadVideos`. */
  function LoadMore(st: State, files: map<string, Catalog>): (r: State)
    requires Valid(st)
  {
    if st.loading then st
    else match Fetch(files, Source(st))
      case None => st.(loadMoreShown := false, notice := Some(LoadMoreFailed))
      case Some(all) => AppendPage(st, Filtered(all, st.currentTeam))
  }

  // ---------------------------------------------------------------------
  // Properties
  // ---------------------------------------------------------------------

  /** Changing to the current category does nothing; otherwise the page goes
      back to 1 and the team is dropped unless the new category is 'teams'. */
  lemma ChangeCategorySpec(st: State, category: string, files: map<string, Catalog>)
    requires Valid(st)
    ensures category == st.currentCategory ==> ChangeCategory(st, category, files) == st
    ensures category != st.currentCategory ==>
      var r := ChangeCategory(st, category, files);
      && r.currentCategory == category && r.currentPage == 1
      && (category != "teams" ==> r.currentTeam.None?)
      && (category == "teams" ==> r.currentTeam == st.currentTeam && !r.loadMoreShown && r.videos == st.videos)
  {
  }

  /** Outside the teams tab a category change shows the first page of the
      category's own file, and offers more exactly when it has more than 20. */
  lemma ChangeCategoryShowsFirstPage(st: State, category: string, files: map<string, Catalog>)
    requires Valid(st) && category != st.currentCategory && category != "teams"
    requires category in files && |files[category]| > 0
    ensures var r := ChangeCategory(st, category, files);
      && r.videos == Shown(files[category], 1)
      && (r.loadMoreShown <==> |files[category]| > PageSize)
  {
    var st1 := st.(currentCategory := category, currentPage := 1, currentTeam := None);
    assert ChangeCategory(st, category, files) == ShowPage(st1, Some(files[category]));
    FirstPage(files[category]);
  }

  /** The corrected "load more" extends what is shown by the next page: after
      the first page and any number of further clicks, the list shown is the
      start of the filtered list, and the button stays exactly while some is
      left. */
  lemma LoadMoreExtends(st: State, files: map<string, Catalog>)
    requires Valid(st) && !st.loading && Source(st) in files
    requires st.videos == Shown(Filtered(files[Source(st)], st.currentTeam), st.currentPage)
    ensures var r := LoadMore(st, files);
      var filtered := Filtered(files[Source(st)], st.currentTeam);
      && r.currentPage == st.currentPage + 1
      && r.videos == Shown(filtered, r.currentPage)
      && (r.loadMoreShown <==> HasMore(filtered, r.currentPage))
  {
    var filtered := Filtered(files[Source(st)], st.currentTeam);
    PagesConcat(filtered, st.currentPage);
    var p := st.currentPage + 1;
    if |PageOf(filtered, p)| == 0 {
      assert Shown(filtered, p) == Shown(filtered, st.currentPage) + [];
    }
  }

  /** Loading the first page establishes what "load more" builds on. */
  lemma LoadVideosFirstPage(st: State, files: map<string, Catalog>)
    requires Valid(st) && st.currentPage == 1 && Source(st) in files
    requires |Filtered(files[Source(st)], st.currentTeam)| > 0
    ensures var r := LoadVideos(st, files);
      r.videos == Shown(Filtered(files[Source(st)], st.currentTeam), r.currentPage)
  {
    FirstPage(Filtered(files[Source(st)], st.currentTeam));
  }

  /** With no team selected the "load more" as written appends nothing, however
      long the list: `includes(null)` is false for every video. */
  lemma LoadMoreAsWrittenDropsAll(st: State, files: map<string, Catalog>)
    requires Valid(st) && !st.loading && st.currentTeam.None? && st.currentCategory in files
    ensures var r := LoadMoreAsWritten(st, files);
      r.videos == st.videos && !r.loadMoreShown && r.notice == Some(NoMoreVideos)
  {
  }

  /** The corrected version on the same input: the second page of a
      21-video category brings the last video. */
  lemma LoadMoreAsWrittenCounterexample(st: State, files: map<string, Catalog>)
    requires Valid(st) && !st.loading && st.currentTeam.None? && st.currentPage == 1
    requires st.currentCategory in files && |files[st.currentCategory]| == 21
    requires st.videos == Shown(files[st.currentCategory], 1)
    ensures LoadMoreAsWritten(st, files).videos == st.videos
    ensures LoadMore(st, files).videos == files[st.currentCategory]
  {
    LoadMoreExtends(st, files);
    assert Shown(files[st.currentCategory], 2) == files[st.currentCategory][..21];
  }

  /** Every key of the team table starts in lower case and finds its own
      display name. */
  lemma TeamTableEntry(i: nat)
    requires i < |TeamTable|
    ensures TeamName(TeamTable[i].0) == Some(TeamTable[i].1)
    ensures |TeamTable[i].0| > 0 && IsLowerAscii(TeamTable[i].0[0])
  {
    TeamTableKeysDistinct();
    TeamNameFinds(TeamTable, i);
  }

  lemma TeamTableKeysDistinct()
    ensures forall i, j :: 0 <= i < j < |TeamTable| ==> TeamTable[i].0 != TeamTable[j].0
    ensures forall i :: 0 <= i < |TeamTable| ==> |TeamTable[i].0| > 0 && IsLowerAscii(TeamTable[i].0[0])
  {
  }

  /** With distinct keys the lookup finds the entry of each key. */
  lemma {:induction false} TeamNameFinds(table: seq<(string, string)>, i: nat)
    requires i < |table|
    requires forall a, b :: 0 <= a < b < |table| ==> table[a].0 != table[b].0
    ensures TeamNameIn(table, table[i].0) == Some(table[i].1)
    decreases i
  {
    if i > 0 {
      assert table[0].0 != table[i].0;
      assert table[1..][i - 1] == table[i];
      TeamNameFinds(table[1..], i - 1);
    }
  }

  /** Selecting a team as written, on the teams tab, asks for the teams tab's
      own file, which no producer writes; and even with that file present the
      lower-case key matches no extracted team, so no video is ever shown. */
  lemma SelectTeamAsWrittenShowsNothing(st: State, i: nat, files: map<string, Catalog>)
    requires Valid(st) && st.currentCategory == "teams" && i < |TeamTable|
    ensures var r := SelectTeamAsWritten(st, TeamTable[i].0, files);
      r.videos == st.videos && !r.loadMoreShown && r.notice.Some?
  {
    TeamTableEntry(i);
    SelectKeyShowsNothing(st, TeamTable[i].0, files);
  }

  lemma SelectKeyShowsNothing(st: State, key: string, files: map<string, Catalog>)
    requires Valid(st) && st.currentCategory == "teams"
    requires TeamName(key).Some? && |key| > 0 && IsLowerAscii(key[0])
    ensures var r := SelectTeamAsWritten(st, key, files);
      r.videos == st.videos && !r.loadMoreShown && r.notice.Some?
  {
    var st1 := st.(currentTeam := Some(key), currentPage := 1);
    assert SourceAsWritten(st1) == "teams";
    if "teams" in files {
      LowerKeyMatchesNothing(files["teams"], key);
      assert Filtered(files["teams"], Some(key)) == [];
    }
  }

  /** Selecting a team, corrected, shows the first page of the matches naming
      it: the videos the teams grid counted for that team. */
  lemma SelectTeamShowsTeam(st: State, i: nat, files: map<string, Catalog>)
    requires Valid(st) && i < |TeamTable| && "matches" in files
    ensures var r := SelectTeam(st, TeamTable[i].0, files);
      var teamVideos := WithTeam(files["matches"], TeamTable[i].1);
      && r.currentTeam == Some(TeamTable[i].1) && r.currentPage == 1
      && (|teamVideos| > 0 ==> r.videos == Shown(teamVideos, 1)
                               && (r.loadMoreShown <==> |teamVideos| > PageSize))
      && (forall v :: v in r.videos && |teamVideos| > 0 ==> TeamTable[i].1 in AppTeams(v.title))
  {
    TeamTableEntry(i);
    SelectNameShowsTeam(st, TeamTable[i].0, TeamTable[i].1, files);
  }

  lemma SelectNameShowsTeam(st: State, key: string, name: string, files: map<string, Catalog>)
    requires Valid(st) && TeamName(key) == Some(name) && name != "" && "matches" in files
    ensures var r := SelectTeam(st, key, files);
      var teamVideos := WithTeam(files["matches"], name);
      && r.currentTeam == Some(name) && r.currentPage == 1
      && (|teamVideos| > 0 ==> r.videos == Shown(teamVideos, 1)
                               && (r.loadMoreShown <==> |teamVideos| > PageSize))
      && (forall v :: v in r.videos && |teamVideos| > 0 ==> name in AppTeams(v.title))
  {
    var st1 := st.(currentTeam := Some(name), currentPage := 1);
    assert Source(st1) == "matches";
    assert SelectTeam(st, key, files) == ShowPage(st1, Some(files["matches"]));
    if |Filtered(files["matches"], Some(name))| > 0 {
      ShowFirstPage(st1, files["matches"]);
    }
  }

  /** On page 1 a non-empty filtered list shows its first twenty videos. */
  lemma ShowFirstPage(st: State, all: Catalog)
    requires Valid(st) && st.currentPage == 1 && |Filtered(all, st.currentTeam)| > 0
    ensures var r := ShowPage(st, Some(all));
      var filtered := Filtered(all, st.currentTeam);
      && r.videos == Shown(filtered, 1)
      && (r.loadMoreShown <==> |filtered| > PageSize)
      && forall v :: v in r.videos ==> v in filtered
  {
    var filtered := Filtered(all, st.currentTeam);
    FirstPage(filtered);
    var r := ShowPage(st, Some(all));
    forall v | v in r.videos
      ensures v in filtered
    {
      var k :| 0 <= k < |r.videos| && r.videos[k] == v;
      assert v == filtered[k];
    }
  }
}
