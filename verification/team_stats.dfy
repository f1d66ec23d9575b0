/** Per-team statistics over a catalog, as the YouTube fetcher and the
    database exporter compute them: a dictionary keyed by team name,
    filled in catalog order, holding a video count, (fetcher only) a count
    of match videos, and the latest video by `upload_date` string. */
module TeamStats {
  import opened Wrappers
  import opened Ordering
  import opened OrderedIndex
  import opened Videos
  import opened Teams

  /** One dictionary value; `latest` is the whole record it was taken from. */
  datatype Tally = Tally(name: string, videoCount: nat, matches: nat, latest: Option<Video>)

  /** Occurrences of `t` in a team list. */
  function Occ(teams: seq<string>, t: string): nat
    decreases |teams|
  {
    if |teams| == 0 then 0 else Occ(teams[..|teams| - 1], t) + (if teams[|teams| - 1] == t then 1 else 0)
  }

  /** Number of times `t` is listed across the catalog. */
  function Mentions(vs: Catalog, teamsOf: Video -> seq<string>, t: string): nat
    decreases |vs|
  {
    if |vs| == 0 then 0 else Mentions(vs[..|vs| - 1], teamsOf, t) + Occ(teamsOf(vs[|vs| - 1]), t)
  }

  /** The same count over records of category 'matches'. */
  function MatchMentions(vs: Catalog, teamsOf: Video -> seq<string>, t: string): nat
    decreases |vs|
  {
    if |vs| == 0 then 0
    else
      var v := vs[|vs| - 1];
      MatchMentions(vs[..|vs| - 1], teamsOf, t) + (if v.category == "matches" then Occ(teamsOf(v), t) else 0)
  }

  /** The tally after `v` has been seen `k` more times for team `t`:
      `latest` moves to `v` when there is none or `v`'s date is strictly greater. */
  function Bump(p: Option<Tally>, t: string, v: Video, k: nat): Tally {
    var s := if p.None? then Tally(t, 0, 0, None) else p.value;
    Tally(s.name, s.videoCount + k, s.matches + (if v.category == "matches" then k else 0),
          if s.latest.None? || StrGt(v.uploadDate, s.latest.value.uploadDate) then Some(v) else s.latest)
  }

  /** The loop body for one team of one video. */
  function StepTeam(ix: Index<Tally>, v: Video, t: string): Index<Tally> {
    Put(ix, t, Bump(Lookup(ix, t), t, v, 1))
  }

  /** The inner loop: every team listed by `v`, in order. */
  function StepTeams(ix: Index<Tally>, v: Video, teams: seq<string>): Index<Tally>
    decreases |teams|
  {
    if |teams| == 0 then ix else StepTeam(StepTeams(ix, v, teams[..|teams| - 1]), v, teams[|teams| - 1])
  }

  /** The outer loop over the catalog. */
  function Stats(vs: Catalog, teamsOf: Video -> seq<string>): Index<Tally>
    decreases |vs|
  {
    if |vs| == 0 then [] else StepTeams(Stats(vs[..|vs| - 1], teamsOf), vs[|vs| - 1], teamsOf(vs[|vs| - 1]))
  }

  /** Reference definition: the tally of one team, computed on its own. */
  function TallyOf(vs: Catalog, teamsOf: Video -> seq<string>, t: string): Option<Tally>
    decreases |vs|
  {
    if |vs| == 0 then None
    else
      var p := TallyOf(vs[..|vs| - 1], teamsOf, t);
      var k := Occ(teamsOf(vs[|vs| - 1]), t);
      if k == 0 then p else Some(Bump(p, t, vs[|vs| - 1], k))
  }

  /** The fetcher lists every team a record carries. */
  function FetcherTeamsOf(v: Video): seq<string> { v.teams }

  /** The exporter reads the teams off the title. */
  function DbTeamsOf(v: Video): seq<string> { DbTeams(v.title) }

  /** The fetcher's statistics over the merged catalog. */
  function FetcherStats(merged: Catalog): Index<Tally> {
    Stats(merged, FetcherTeamsOf)
  }

  /** The exporter's statistics, over the 'matches' records only.  The
      exporter's entries hold only the name, the video count and the latest
      video: the `matches` count of a `Tally` has no counterpart there. */
  function DbStats(all: Catalog): Index<Tally> {
    Stats(OfCategory(all, "matches"), DbTeamsOf)
  }

  // ---------------------------------------------------------------------
  // Properties
  // ---------------------------------------------------------------------

  lemma StrGtIrreflexive(a: string)
    ensures !StrGt(a, a)
  {
    LexLeRefl(Codes(a));
  }

  /** Seeing the same video again changes only the counts. */
  lemma BumpAgain(p: Option<Tally>, t: string, v: Video, k: nat)
    requires k >= 1
    ensures Bump(Some(Bump(p, t, v, k)), t, v, 1) == Bump(p, t, v, k + 1)
  {
    StrGtIrreflexive(v.uploadDate);
  }

  /** The inner loop touches team `t` once per occurrence of `t`. */
  lemma {:induction false} StepTeamsLookup(ix: Index<Tally>, v: Video, teams: seq<string>, t: string)
    ensures Lookup(StepTeams(ix, v, teams), t)
      == if Occ(teams, t) == 0 then Lookup(ix, t) else Some(Bump(Lookup(ix, t), t, v, Occ(teams, t)))
    decreases |teams|
  {
    if |teams| > 0 {
      var init := teams[..|teams| - 1];
      var p := StepTeams(ix, v, init);
      var last := teams[|teams| - 1];
      var k := Occ(init, t);
      assert StepTeams(ix, v, teams) == StepTeam(p, v, last);
      StepTeamsLookup(ix, v, init, t);
      StepTeamLookup(p, v, last, t);
      if last != t {
        assert Occ(teams, t) == k;
      } else if k == 0 {
        assert Occ(teams, t) == 1;
      } else {
        assert Occ(teams, t) == k + 1;
        BumpAgain(Lookup(ix, t), t, v, k);
      }
    }
  }

  lemma StepTeamLookup(ix: Index<Tally>, v: Video, last: string, t: string)
    ensures Lookup(StepTeam(ix, v, last), t) == if last == t then Some(Bump(Lookup(ix, t), t, v, 1)) else Lookup(ix, t)
  {
    PutLookup(ix, last, Bump(Lookup(ix, last), last, v, 1), t);
  }

  /** The dictionary agrees with the per-team reference on every team. */
  lemma {:induction false} StatsMatchTallyOf(vs: Catalog, teamsOf: Video -> seq<string>, t: string)
    ensures Lookup(Stats(vs, teamsOf), t) == TallyOf(vs, teamsOf, t)
    decreases |vs|
  {
    if |vs| > 0 {
      StatsMatchTallyOf(vs[..|vs| - 1], teamsOf, t);
      StepTeamsLookup(Stats(vs[..|vs| - 1], teamsOf), vs[|vs| - 1], teamsOf(vs[|vs| - 1]), t);
    }
  }

  /** A team has a tally exactly when it is mentioned; the tally carries
      its name, counts every mention and every mention by a 'matches'
      record, and names a latest record. */
  lemma {:induction false} TallyOfCounts(vs: Catalog, teamsOf: Video -> seq<string>, t: string)
    ensures TallyOf(vs, teamsOf, t).Some? <==> Mentions(vs, teamsOf, t) > 0
    ensures TallyOf(vs, teamsOf, t).Some? ==>
      && TallyOf(vs, teamsOf, t).value.name == t
      && TallyOf(vs, teamsOf, t).value.videoCount == Mentions(vs, teamsOf, t)
      && TallyOf(vs, teamsOf, t).value.matches == MatchMentions(vs, teamsOf, t)
      && TallyOf(vs, teamsOf, t).value.latest.Some?
    decreases |vs|
  {
    if |vs| > 0 {
      TallyOfCounts(vs[..|vs| - 1], teamsOf, t);
      MatchMentionsBound(vs[..|vs| - 1], teamsOf, t);
    }
  }

  lemma {:induction false} MatchMentionsBound(vs: Catalog, teamsOf: Video -> seq<string>, t: string)
    ensures MatchMentions(vs, teamsOf, t) <= Mentions(vs, teamsOf, t)
    decreases |vs|
  {
    if |vs| > 0 {
      MatchMentionsBound(vs[..|vs| - 1], teamsOf, t);
    }
  }

  predicate Mentioned(v: Video, teamsOf: Video -> seq<string>, t: string) {
    Occ(teamsOf(v), t) > 0
  }

  /** `l` has the greatest date string among the records of `vs` mentioning
      `t`, and is the first mentioning record with that date. */
  predicate LatestOf(vs: Catalog, teamsOf: Video -> seq<string>, t: string, l: Video) {
    && (forall i :: 0 <= i < |vs| && Mentioned(vs[i], teamsOf, t) ==> StrLe(vs[i].uploadDate, l.uploadDate))
    && (exists i :: 0 <= i < |vs| && vs[i] == l && Mentioned(vs[i], teamsOf, t) &&
          forall j :: 0 <= j < i && Mentioned(vs[j], teamsOf, t) ==> StrGt(l.uploadDate, vs[j].uploadDate))
  }

  /** A record that does not beat the latest leaves it in place. */
  lemma LatestKept(init: Catalog, v: Video, teamsOf: Video -> seq<string>, t: string, l: Video)
    requires LatestOf(init, teamsOf, t, l)
    requires Mentioned(v, teamsOf, t) ==> !StrGt(v.uploadDate, l.uploadDate)
    ensures LatestOf(init + [v], teamsOf, t, l)
  {
    var vs := init + [v];
    var i :| 0 <= i < |init| && init[i] == l && Mentioned(init[i], teamsOf, t) &&
          forall j :: 0 <= j < i && Mentioned(init[j], teamsOf, t) ==> StrGt(l.uploadDate, init[j].uploadDate);
    assert vs[i] == l;
    assert forall k :: 0 <= k < |init| ==> vs[k] == init[k];
  }

  /** A record with a strictly greater date becomes the latest. */
  lemma LatestReplaced(init: Catalog, v: Video, teamsOf: Video -> seq<string>, t: string, l: Video)
    requires LatestOf(init, teamsOf, t, l)
    requires Mentioned(v, teamsOf, t) && StrGt(v.uploadDate, l.uploadDate)
    ensures LatestOf(init + [v], teamsOf, t, v)
  {
    var vs := init + [v];
    var n := |init|;
    LexLeTotal(Codes(v.uploadDate), Codes(l.uploadDate));
    forall k | 0 <= k < n && Mentioned(vs[k], teamsOf, t)
      ensures StrLe(vs[k].uploadDate, v.uploadDate) && StrGt(v.uploadDate, vs[k].uploadDate)
    {
      assert vs[k] == init[k];
      LexLeTrans(Codes(vs[k].uploadDate), Codes(l.uploadDate), Codes(v.uploadDate));
      if LexLe(Codes(v.uploadDate), Codes(vs[k].uploadDate)) {
        LexLeTrans(Codes(v.uploadDate), Codes(vs[k].uploadDate), Codes(l.uploadDate));
      }
    }
    LexLeRefl(Codes(v.uploadDate));
    assert vs[n] == v;
  }

  /** The first mentioning record is the latest. */
  lemma LatestFirst(init: Catalog, v: Video, teamsOf: Video -> seq<string>, t: string)
    requires forall i :: 0 <= i < |init| ==> !Mentioned(init[i], teamsOf, t)
    requires Mentioned(v, teamsOf, t)
    ensures LatestOf(init + [v], teamsOf, t, v)
  {
    var vs := init + [v];
    assert forall k :: 0 <= k < |init| ==> vs[k] == init[k];
    LexLeRefl(Codes(v.uploadDate));
    assert vs[|init|] == v;
  }

  /** The latest record of a tally mentions the team, has the greatest date
      string among the records mentioning it, and every earlier record
      mentioning it has a strictly smaller date: the first of the latest wins. */
  lemma {:induction false} TallyOfLatest(vs: Catalog, teamsOf: Video -> seq<string>, t: string)
    requires TallyOf(vs, teamsOf, t).Some?
    ensures TallyOf(vs, teamsOf, t).value.latest.Some?
    ensures LatestOf(vs, teamsOf, t, TallyOf(vs, teamsOf, t).value.latest.value)
    decreases |vs|
  {
    var n := |vs| - 1;
    var init := vs[..n];
    var v := vs[n];
    var p := TallyOf(init, teamsOf, t);
    TallyOfCounts(vs, teamsOf, t);
    assert vs == init + [v];
    if Occ(teamsOf(v), t) == 0 {
      TallyOfLatest(init, teamsOf, t);
      LatestKept(init, v, teamsOf, t, p.value.latest.value);
    } else if p.None? {
      TallyOfCounts(init, teamsOf, t);
      MentionsZero(init, teamsOf, t);
      LatestFirst(init, v, teamsOf, t);
    } else {
      TallyOfLatest(init, teamsOf, t);
      var l := p.value.latest.value;
      if StrGt(v.uploadDate, l.uploadDate) {
        LatestReplaced(init, v, teamsOf, t, l);
      } else {
        LatestKept(init, v, teamsOf, t, l);
      }
    }
  }

  lemma {:induction false} MentionsZero(vs: Catalog, teamsOf: Video -> seq<string>, t: string)
    requires Mentions(vs, teamsOf, t) == 0
    ensures forall i :: 0 <= i < |vs| ==> !Mentioned(vs[i], teamsOf, t)
    decreases |vs|
  {
    if |vs| > 0 {
      MentionsZero(vs[..|vs| - 1], teamsOf, t);
      assert forall i :: 0 <= i < |vs| - 1 ==> vs[..|vs| - 1][i] == vs[i];
    }
  }

  /** For any catalog and team reader: a team is listed exactly when some
      record lists it; its video count is the number of such listings, its
      match count (no larger) those by 'matches' records, and its latest
      record is one of the catalog's. */
  lemma StatsSpec(vs: Catalog, teamsOf: Video -> seq<string>, t: string)
    ensures HasKey(Stats(vs, teamsOf), t) <==> Mentions(vs, teamsOf, t) > 0
    ensures HasKey(Stats(vs, teamsOf), t) ==>
      && Lookup(Stats(vs, teamsOf), t).value.name == t
      && Lookup(Stats(vs, teamsOf), t).value.videoCount == Mentions(vs, teamsOf, t)
      && Lookup(Stats(vs, teamsOf), t).value.matches == MatchMentions(vs, teamsOf, t)
      && Lookup(Stats(vs, teamsOf), t).value.matches <= Lookup(Stats(vs, teamsOf), t).value.videoCount
      && Lookup(Stats(vs, teamsOf), t).value.latest.Some?
      && Lookup(Stats(vs, teamsOf), t).value.latest.value in vs
  {
    StatsMatchTallyOf(vs, teamsOf, t);
    TallyOfCounts(vs, teamsOf, t);
    MatchMentionsBound(vs, teamsOf, t);
    if HasKey(Stats(vs, teamsOf), t) {
      TallyOfLatest(vs, teamsOf, t);
    }
  }

  /** The latest record the dictionary holds for a team has the greatest
      date string among the records listing the team, and is the first
      record with that date. */
  lemma StatsLatest(vs: Catalog, teamsOf: Video -> seq<string>, t: string)
    requires HasKey(Stats(vs, teamsOf), t)
    ensures Lookup(Stats(vs, teamsOf), t).value.latest.Some?
    ensures LatestOf(vs, teamsOf, t, Lookup(Stats(vs, teamsOf), t).value.latest.value)
  {
    StatsMatchTallyOf(vs, teamsOf, t);
    TallyOfLatest(vs, teamsOf, t);
  }

  /** The fetcher's `teams.json` counts every listing of a team by a merged record. */
  lemma FetcherStatsSpec(merged: Catalog, t: string)
    ensures HasKey(FetcherStats(merged), t) <==> Mentions(merged, FetcherTeamsOf, t) > 0
    ensures HasKey(FetcherStats(merged), t) ==>
      && Lookup(FetcherStats(merged), t).value.videoCount == Mentions(merged, FetcherTeamsOf, t)
      && Lookup(FetcherStats(merged), t).value.matches <= Lookup(FetcherStats(merged), t).value.videoCount
  {
    StatsSpec(merged, FetcherTeamsOf, t);
  }

  /** Counting over the 'matches' records of a catalog, the latest record
      of a team is always a match record of the catalog. */
  lemma MatchStatsSpec(all: Catalog, teamsOf: Video -> seq<string>, t: string)
    ensures HasKey(Stats(OfCategory(all, "matches"), teamsOf), t) <==> Mentions(OfCategory(all, "matches"), teamsOf, t) > 0
    ensures HasKey(Stats(OfCategory(all, "matches"), teamsOf), t) ==>
      && Lookup(Stats(OfCategory(all, "matches"), teamsOf), t).value.videoCount == Mentions(OfCategory(all, "matches"), teamsOf, t)
      && Lookup(Stats(OfCategory(all, "matches"), teamsOf), t).value.latest.Some?
      && Lookup(Stats(OfCategory(all, "matches"), teamsOf), t).value.latest.value in all
      && Lookup(Stats(OfCategory(all, "matches"), teamsOf), t).value.latest.value.category == "matches"
  {
    var ms := OfCategory(all, "matches");
    var st := Stats(ms, teamsOf);
    StatsSpec(ms, teamsOf, t);
    if HasKey(st, t) {
      var l := Lookup(st, t).value.latest.value;
      var i :| 0 <= i < |ms| && ms[i] == l;
    }
  }

  /** The exporter's teams, read off the titles of the match records. */
  lemma DbStatsSpec(all: Catalog, t: string)
    ensures HasKey(DbStats(all), t) <==> Mentions(OfCategory(all, "matches"), DbTeamsOf, t) > 0
    ensures HasKey(DbStats(all), t) ==>
      && Lookup(DbStats(all), t).value.videoCount == Mentions(OfCategory(all, "matches"), DbTeamsOf, t)
      && Lookup(DbStats(all), t).value.latest.Some?
      && Lookup(DbStats(all), t).value.latest.value in all
      && Lookup(DbStats(all), t).value.latest.value.category == "matches"
  {
    MatchStatsSpec(all, DbTeamsOf, t);
  }
}
