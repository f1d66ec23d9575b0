/** `categorize_video`: a strict-priority cascade of keyword rules over the
    lower-cased title (and, on the default path, the description), plus the
    teams named anywhere in title or description. */
module Classifier {
  import opened Text
  import opened Teams

  datatype Category = Matches | Interviews | Classic | Other {
    /** The string stored in a record's `category` field. */
    function Label(): string {
      match this
      case Matches => "matches"
      case Interviews => "interviews"
      case Classic => "classic"
      case Other => "other"
    }
  }

  datatype Classification = Classification(category: Category, teams: seq<string>)

  const HighlightTags: seq<string> :=
    ["highlights", "match highlights", "innings highlights", "batting highlights", "bowling highlights"]

  /** Classic markers that turn a highlights title into a classic. */
  const ClassicHighlightTags: seq<string> := ["classic", "archive", "throwback", "on this day"]

  const InterviewTags: seq<string> :=
    ["interview", "press conference", "press", "conference",
     "speaks to media", "media session", "presser", "media briefing"]

  /** The default path also lists the two pre/post-match press spellings. */
  const DefaultInterviewTags: seq<string> := InterviewTags + ["post match press", "pre match press"]

  const ClassicTags: seq<string> :=
    ["classic", "archive", "throwback", "on this day", "vintage", "retro", "from the vault", "memories"]

  const MatchTags: seq<string> :=
    [" vs ", " v ", "test match", "t20", "odi", "final", "semi final", "quarter final"]

  const PakistanChannel := "UCiWrjBhlICf_L_RK5y6Vrxw"
  const EnglandChannel := "UCz1D0n02BR3t51KuBOPmfTQ"
  const WestIndiesChannel := "UC2MHTOXktfTK26aDKyQs3cQ"

  /** The rules of the three channel branches, applied to the lower-cased
      title alone.  Only the West Indies branch has the match-indicator rule. */
  function TitleOnlyCategory(t: string, withMatchRule: bool): Category {
    if ContainsAny(t, HighlightTags) then
      (if ContainsAny(t, ClassicHighlightTags) then Classic else Matches)
    else if ContainsAny(t, InterviewTags) then Interviews
    else if ContainsAny(t, ClassicTags) then Classic
    else if withMatchRule && ContainsAny(t, MatchTags) then
      (if ContainsAny(t, ClassicTags) then Classic else Matches)
    else Other
  }

  /** The rules for every other channel: highlights from the lower-cased
      title `t`, the rest from `combined` (title and description). */
  function DefaultCategory(t: string, combined: string): Category {
    if ContainsAny(t, HighlightTags) then
      (if ContainsAny(t, ClassicHighlightTags) then Classic else Matches)
    else if ContainsAny(combined, DefaultInterviewTags) then Interviews
    else if ContainsAny(combined, ClassicTags) then Classic
    else if ContainsAny(combined, MatchTags) then
      (if ContainsAny(combined, ClassicTags) then Classic else Matches)
    else Other
  }

  /** The category half of `categorize_video`. */
  function CategoryOf(title: string, description: string, channelId: string): Category {
    var t := Lower(title);
    if Contains(t, "live") then Other
    else if channelId == PakistanChannel || channelId == EnglandChannel then TitleOnlyCategory(t, false)
    else if channelId == WestIndiesChannel then TitleOnlyCategory(t, true)
    else DefaultCategory(t, t + " " + Lower(description))
  }

  /** `categorize_video(title, description, channel_id)`.  A missing
      description is the empty string. */
  function Categorize(title: string, description: string, channelId: string): Classification {
    Classification(CategoryOf(title, description, channelId), FetcherTeams(Lower(title) + " " + Lower(description)))
  }

  predicate TitleOnlyChannel(channelId: string) {
    channelId == PakistanChannel || channelId == EnglandChannel || channelId == WestIndiesChannel
  }

  // ---------------------------------------------------------------------
  // Properties
  // ---------------------------------------------------------------------

  /** 'live' anywhere in the title wins over every other rule, on every channel. */
  lemma LiveFirst(title: string, description: string, channelId: string)
    requires Contains(Lower(title), "live")
    ensures CategoryOf(title, description, channelId) == Other
  {
  }

  /** 'live' is a plain substring test, so it also fires inside words:
      a highlights package of "deliveries" is filed under 'other'. */
  lemma LiveInsideWords()
    ensures CategoryOf("best deliveries highlights", "", "") == Other
  {
    var t := "best deliveries highlights";
    LowerOfLowerCase(t);
    assert t[7..11] == "live";
    ContainsAt(t, "live", 7);
  }

  /** On the default path a highlights title is decided by the title alone,
      ahead of the interview, classic and match rules: whatever the description. */
  lemma HighlightPrecedence(title: string, description: string, channelId: string)
    requires !Contains(Lower(title), "live") && !TitleOnlyChannel(channelId)
    requires ContainsAny(Lower(title), HighlightTags)
    ensures CategoryOf(title, description, channelId)
            == if ContainsAny(Lower(title), ClassicHighlightTags) then Classic else Matches
  {
  }

  /** On the three channel branches the category depends on the title only. */
  lemma TitleOnlyChannelsIgnoreDescription(title: string, d1: string, d2: string, channelId: string)
    requires TitleOnlyChannel(channelId)
    ensures CategoryOf(title, d1, channelId) == CategoryOf(title, d2, channelId)
  {
  }

  /** On the Pakistan and England channels, 'matches' requires a highlights
      marker in the title. */
  lemma PakistanEnglandMatchesNeedHighlights(title: string, description: string, channelId: string)
    requires channelId == PakistanChannel || channelId == EnglandChannel
    requires CategoryOf(title, description, channelId) == Matches
    ensures ContainsAny(Lower(title), HighlightTags)
    ensures !ContainsAny(Lower(title), ClassicHighlightTags)
  {
  }

  /** The classic test nested under the match-indicator rule never fires:
      reaching that rule means the classic rule above it already failed.  So
      a match indicator, once reached, always yields 'matches'. */
  lemma MatchRuleYieldsMatches(t: string, combined: string)
    requires !ContainsAny(t, HighlightTags)
    requires !ContainsAny(combined, DefaultInterviewTags) && !ContainsAny(combined, ClassicTags)
    ensures DefaultCategory(t, combined) == (if ContainsAny(combined, MatchTags) then Matches else Other)
  {
  }

  /** A team named only in the description is still reported, on every channel. */
  lemma TeamsFromDescription(title: string, description: string, channelId: string, i: nat)
    requires i < |FetcherLexicon|
    requires ContainsAny(Lower(description), FetcherLexicon[i].variations)
    ensures PyTitle(FetcherLexicon[i].name) in Categorize(title, description, channelId).teams
  {
    var t := Lower(title);
    var d := Lower(description);
    ContainsAnyInfix(t + " ", d, "", FetcherLexicon[i].variations);
    assert t + " " + d + "" == t + " " + d;
    LowerOfLowerCase(t + " " + d) by {
      LowerNoUpper(title);
      LowerNoUpper(description);
    }
    FetcherTeamsSpec(t + " " + d);
  }
}
