/** The three team extractors.  Each scans a fixed lexicon of teams in
    order and reports a team, title-cased, when one of its spellings occurs
    in the lower-cased text.  The Python versions collect into a `set`,
    whose list order Python leaves unspecified; the model reports teams in
    lexicon order.  The browser version collects into a JavaScript `Set`,
    which keeps insertion order, so lexicon order is exact there. */
module Teams {
  import opened Text

  /** A canonical lower-case team name and the spellings that identify it. */
  datatype TeamEntry = TeamEntry(name: string, variations: seq<string>)

  // The canonical names, lower case.
  const Australia := "australia"
  const India := "india"
  const England := "england"
  const Pakistan := "pakistan"
  const SouthAfrica := "south africa"
  const NewZealand := "new zealand"
  const WestIndies := "west indies"
  const SriLanka := "sri lanka"
  const Bangladesh := "bangladesh"
  const Zimbabwe := "zimbabwe"

  /** The YouTube fetcher's variation table. */
  const FetcherLexicon: seq<TeamEntry> := [
    TeamEntry(Australia, [Australia, "aussies", "aus"]),
    TeamEntry(India, [India, "ind", "bcci", "team india"]),
    TeamEntry(England, [England, "eng", "english"]),
    TeamEntry(Pakistan, [Pakistan, "pak", "pcb"]),
    TeamEntry(SouthAfrica, [SouthAfrica, "sa", "proteas"]),
    TeamEntry(NewZealand, [NewZealand, "nz", "black caps", "blackcaps"]),
    TeamEntry(WestIndies, [WestIndies, "wi", "windies", "caribbean"]),
    TeamEntry(SriLanka, [SriLanka, "sl", "lanka"]),
    TeamEntry(Bangladesh, [Bangladesh, "ban", "tigers"])
  ]

  /** The board scraper's reduced table. */
  const BoardLexicon: seq<TeamEntry> := [
    TeamEntry(India, [India, "ind", "bcci"]),
    TeamEntry(Australia, [Australia, "aus"]),
    TeamEntry(England, [England, "eng"]),
    TeamEntry(Pakistan, [Pakistan, "pak"]),
    TeamEntry(SouthAfrica, [SouthAfrica, "sa"]),
    TeamEntry(NewZealand, [NewZealand, "nz"]),
    TeamEntry(WestIndies, [WestIndies, "wi"]),
    TeamEntry(SriLanka, [SriLanka, "sl"]),
    TeamEntry(Bangladesh, [Bangladesh, "ban"])
  ]

  /** The plain name list of the database exporter and the web page. */
  const PlainNames: seq<string> :=
    [Australia, India, England, Pakistan, SouthAfrica, NewZealand, WestIndies, SriLanka, Bangladesh, Zimbabwe]

  /** The fallback team of the board scraper. */
  const International := "International"

  /** Every name spells itself and nothing else. */
  function PlainLexicon(): (r: seq<TeamEntry>)
    ensures |r| == |PlainNames|
    ensures forall i :: 0 <= i < |r| ==> r[i] == TeamEntry(PlainNames[i], [PlainNames[i]])
  {
    seq(|PlainNames|, i requires 0 <= i < |PlainNames| => TeamEntry(PlainNames[i], [PlainNames[i]]))
  }

  predicate NamesDistinct(lex: seq<TeamEntry>) {
    forall i, j :: 0 <= i < j < |lex| ==> lex[i].name != lex[j].name
  }

  predicate NamesLowerCase(lex: seq<TeamEntry>) {
    forall i :: 0 <= i < |lex| ==> NoUpper(lex[i].name)
  }

  predicate Distinct(s: seq<string>) {
    forall i, j :: 0 <= i < j < |s| ==> s[i] != s[j]
  }

  /** The lexicon entries, in order, one of whose spellings occurs in `t`. */
  function Matching(lex: seq<TeamEntry>, t: string): (r: seq<TeamEntry>)
    ensures |r| <= |lex|
    ensures forall e :: e in r <==> e in lex && ContainsAny(t, e.variations)
    decreases |lex|
  {
    if |lex| == 0 then []
    else
      var rest := Matching(lex[1..], t);
      assert forall e :: e in lex <==> e == lex[0] || e in lex[1..];
      if ContainsAny(t, lex[0].variations) then [lex[0]] + rest else rest
  }

  /** Matching keeps the lexicon's names distinct and lower case. */
  lemma MatchingWellFormed(lex: seq<TeamEntry>, t: string)
    requires NamesDistinct(lex) && NamesLowerCase(lex)
    ensures NamesDistinct(Matching(lex, t)) && NamesLowerCase(Matching(lex, t))
  {
    MatchingDistinct(lex, t);
    var r := Matching(lex, t);
    forall i | 0 <= i < |r|
      ensures NoUpper(r[i].name)
    {
      assert r[i] in r;
      var j :| 0 <= j < |lex| && lex[j] == r[i];
    }
  }

  lemma {:induction false} MatchingDistinct(lex: seq<TeamEntry>, t: string)
    requires NamesDistinct(lex)
    ensures NamesDistinct(Matching(lex, t))
    decreases |lex|
  {
    if |lex| > 0 {
      MatchingDistinct(lex[1..], t);
      var rest := Matching(lex[1..], t);
      if ContainsAny(t, lex[0].variations) {
        forall e | e in rest
          ensures e.name != lex[0].name
        {
          var k :| 0 <= k < |lex[1..]| && lex[1..][k] == e;
          assert lex[k + 1] == e;
        }
        ConsDistinct(lex[0], rest);
      }
    }
  }

  lemma ConsDistinct(e: TeamEntry, rest: seq<TeamEntry>)
    requires NamesDistinct(rest)
    requires forall x :: x in rest ==> x.name != e.name
    ensures NamesDistinct([e] + rest)
  {
    var r := [e] + rest;
    forall i, j | 0 <= i < j < |r|
      ensures r[i].name != r[j].name
    {
      assert r[j] == rest[j - 1];
      if i > 0 {
        assert r[i] == rest[i - 1];
      }
    }
  }

  /** `team.title()` for each matched entry. */
  function Titles(m: seq<TeamEntry>): (r: seq<string>)
    ensures |r| == |m|
  {
    seq(|m|, i requires 0 <= i < |m| => PyTitle(m[i].name))
  }

  lemma TitlesDistinct(m: seq<TeamEntry>)
    requires NamesDistinct(m) && NamesLowerCase(m)
    ensures Distinct(Titles(m))
  {
    forall i, j | 0 <= i < j < |m|
      ensures Titles(m)[i] != Titles(m)[j]
    {
      if PyTitle(m[i].name) == PyTitle(m[j].name) {
        PyTitleInjectiveOnLowerCase(m[i].name, m[j].name);
      }
    }
  }

  /** The YouTube fetcher's `extract_teams_from_text`. */
  function FetcherTeams(text: string): seq<string> {
    Titles(Matching(FetcherLexicon, Lower(text)))
  }

  /** The board scraper's `extract_teams_from_text`: never empty. */
  function BoardTeams(text: string): (r: seq<string>)
    ensures |r| > 0
  {
    var found := Titles(Matching(BoardLexicon, Lower(text)));
    if |found| == 0 then [International] else found
  }

  /** The database exporter's `extract_teams`. */
  function DbTeams(title: string): seq<string> {
    Titles(Matching(PlainLexicon(), Lower(title)))
  }

  /** The web page's `extractTeams`: each word of a matched name capitalised. */
  function AppTeams(title: string): seq<string>
  {
    var m := Matching(PlainLexicon(), Lower(title));
    seq(|m|, i requires 0 <= i < |m| => CapitalizeWords(m[i].name))
  }

  // ---------------------------------------------------------------------
  // Properties
  // ---------------------------------------------------------------------

  lemma FetcherLexiconWellFormed()
    ensures NamesDistinct(FetcherLexicon) && NamesLowerCase(FetcherLexicon)
  {
    FetcherNamesDistinct();
    FetcherNamesPlain();
    PlainNamesLower(FetcherLexicon);
  }

  lemma FetcherNamesDistinct()
    ensures NamesDistinct(FetcherLexicon)
  {
  }

  lemma FetcherNamesPlain()
    ensures forall i :: 0 <= i < |FetcherLexicon| ==> FetcherLexicon[i].name in PlainNames
  {
  }

  lemma BoardLexiconWellFormed()
    ensures NamesDistinct(BoardLexicon) && NamesLowerCase(BoardLexicon)
  {
    BoardNamesDistinct();
    BoardNamesPlain();
    PlainNamesLower(BoardLexicon);
  }

  lemma BoardNamesDistinct()
    ensures NamesDistinct(BoardLexicon)
  {
  }

  lemma BoardNamesPlain()
    ensures forall i :: 0 <= i < |BoardLexicon| ==> BoardLexicon[i].name in PlainNames
  {
  }

  lemma PlainLexiconWellFormed()
    ensures NamesDistinct(PlainLexicon()) && NamesLowerCase(PlainLexicon())
  {
    PlainNamesDistinct();
    PlainLexiconNames();
    PlainNamesLower(PlainLexicon());
  }

  lemma PlainNamesDistinct()
    ensures NamesDistinct(PlainLexicon())
  {
  }

  lemma PlainLexiconNames()
    ensures forall i :: 0 <= i < |PlainLexicon()| ==> PlainLexicon()[i].name in PlainNames
  {
  }

  /** Every plain name is lower-case words. */
  lemma PlainNamesWords()
    ensures forall i :: 0 <= i < |PlainNames| ==> LowerWords(PlainNames[i])
  {
  }

  /** A lexicon whose names all come from the plain list is lower case. */
  lemma PlainNamesLower(lex: seq<TeamEntry>)
    requires forall i :: 0 <= i < |lex| ==> lex[i].name in PlainNames
    ensures NamesLowerCase(lex)
  {
    PlainNamesWords();
    forall i | 0 <= i < |lex|
      ensures NoUpper(lex[i].name)
    {
      var k :| 0 <= k < |PlainNames| && PlainNames[k] == lex[i].name;
      LowerWordsNoUpper(lex[i].name);
    }
  }

  /** For any lexicon: a title is reported exactly when some spelling of
      that team occurs in the text, and no title twice. */
  lemma TitlesOfMatchingSpec(lex: seq<TeamEntry>, t: string)
    requires NamesDistinct(lex) && NamesLowerCase(lex)
    ensures forall x :: x in Titles(Matching(lex, t)) <==>
      exists i :: 0 <= i < |lex| && x == PyTitle(lex[i].name) && ContainsAny(t, lex[i].variations)
    ensures Distinct(Titles(Matching(lex, t)))
    ensures |Titles(Matching(lex, t))| <= |lex|
  {
    var m := Matching(lex, t);
    MatchingWellFormed(lex, t);
    TitlesDistinct(m);
    forall x | x in Titles(m)
      ensures exists i :: 0 <= i < |lex| && x == PyTitle(lex[i].name) && ContainsAny(t, lex[i].variations)
    {
      ReportedTitleMatches(lex, t, x);
    }
    forall i | 0 <= i < |lex| && ContainsAny(t, lex[i].variations)
      ensures PyTitle(lex[i].name) in Titles(m)
    {
      MatchedTitleReported(lex, t, i);
    }
  }

  lemma ReportedTitleMatches(lex: seq<TeamEntry>, t: string, x: string)
    requires x in Titles(Matching(lex, t))
    ensures exists i :: 0 <= i < |lex| && x == PyTitle(lex[i].name) && ContainsAny(t, lex[i].variations)
  {
    var m := Matching(lex, t);
    var k :| 0 <= k < |m| && Titles(m)[k] == x;
    assert m[k] in m;
    var i :| 0 <= i < |lex| && lex[i] == m[k];
  }

  lemma MatchedTitleReported(lex: seq<TeamEntry>, t: string, i: nat)
    requires i < |lex| && ContainsAny(t, lex[i].variations)
    ensures PyTitle(lex[i].name) in Titles(Matching(lex, t))
  {
    var m := Matching(lex, t);
    assert lex[i] in lex;
    assert lex[i] in m;
    var k :| 0 <= k < |m| && m[k] == lex[i];
    assert Titles(m)[k] == PyTitle(lex[i].name);
  }

  /** A title is reported exactly when some spelling of that team occurs in
      the lower-cased text; no title twice; at most nine. */
  lemma FetcherTeamsSpec(text: string)
    ensures forall x :: x in FetcherTeams(text) <==>
      exists i :: 0 <= i < |FetcherLexicon| && x == PyTitle(FetcherLexicon[i].name)
                  && ContainsAny(Lower(text), FetcherLexicon[i].variations)
    ensures Distinct(FetcherTeams(text))
    ensures |FetcherTeams(text)| <= 9
  {
    FetcherLexiconWellFormed();
    TitlesOfMatchingSpec(FetcherLexicon, Lower(text));
  }

  /** The board extractor returns `['International']` exactly when no
      spelling matches, and otherwise the matched titles, without repeats. */
  lemma BoardTeamsSpec(text: string)
    ensures |BoardTeams(text)| >= 1
    ensures BoardTeams(text) == [International] <==>
      forall i :: 0 <= i < |BoardLexicon| ==> !ContainsAny(Lower(text), BoardLexicon[i].variations)
    ensures forall x :: x in BoardTeams(text) && x != International <==>
      exists i :: 0 <= i < |BoardLexicon| && x == PyTitle(BoardLexicon[i].name)
                  && ContainsAny(Lower(text), BoardLexicon[i].variations)
    ensures Distinct(BoardTeams(text))
  {
    var t := Lower(text);
    BoardFound(t);
    FallbackList(Titles(Matching(BoardLexicon, t)), International, BoardTeams(text));
  }

  /** A list with a fallback for when it is empty. */
  lemma FallbackList(found: seq<string>, fallback: string, r: seq<string>)
    requires r == if |found| == 0 then [fallback] else found
    requires fallback !in found && Distinct(found)
    ensures |r| >= 1 && (r == [fallback] <==> |found| == 0)
    ensures forall x :: x in r && x != fallback <==> x in found
    ensures Distinct(r)
  {
    if |found| > 0 {
      assert found[0] in found;
    }
  }

  /** The titles the board table matches: never 'International', each
      matched team once, and none exactly when no spelling matches. */
  lemma BoardFound(t: string)
    ensures var found := Titles(Matching(BoardLexicon, t));
      && International !in found
      && Distinct(found)
      && (forall x :: x in found <==>
            exists i :: 0 <= i < |BoardLexicon| && x == PyTitle(BoardLexicon[i].name)
                        && ContainsAny(t, BoardLexicon[i].variations))
      && (|found| == 0 <==> forall i :: 0 <= i < |BoardLexicon| ==> !ContainsAny(t, BoardLexicon[i].variations))
  {
    BoardLexiconWellFormed();
    forall i | 0 <= i < |BoardLexicon|
      ensures PyTitle(BoardLexicon[i].name) != International
    {
      BoardTitleNotInternational(i);
    }
    FoundSpec(BoardLexicon, t, International);
  }

  lemma FoundSpec(lex: seq<TeamEntry>, t: string, fallback: string)
    requires NamesDistinct(lex) && NamesLowerCase(lex)
    requires forall i :: 0 <= i < |lex| ==> PyTitle(lex[i].name) != fallback
    ensures var found := Titles(Matching(lex, t));
      && fallback !in found
      && Distinct(found)
      && (forall x :: x in found <==>
            exists i :: 0 <= i < |lex| && x == PyTitle(lex[i].name) && ContainsAny(t, lex[i].variations))
      && (|found| == 0 <==> forall i :: 0 <= i < |lex| ==> !ContainsAny(t, lex[i].variations))
  {
    TitlesOfMatchingSpec(lex, t);
    var found := Titles(Matching(lex, t));
    forall i | 0 <= i < |lex| && ContainsAny(t, lex[i].variations)
      ensures PyTitle(lex[i].name) in found
    {
    }
  }

  lemma BoardTitleNotInternational(i: nat)
    requires i < |BoardLexicon|
    ensures PyTitle(BoardLexicon[i].name) != International
  {
    assert |PyTitle(BoardLexicon[i].name)| == |BoardLexicon[i].name| < |International|;
  }

  /** The exporter and the web page list the same teams: Python's `title()`
      and the page's word capitalisation agree on every name of the list. */
  lemma DbTeamsEqualsAppTeams(title: string)
    ensures DbTeams(title) == AppTeams(title)
  {
    var m := Matching(PlainLexicon(), Lower(title));
    forall i | 0 <= i < |m|
      ensures PyTitle(m[i].name) == CapitalizeWords(m[i].name)
    {
      assert m[i] in m;
      PlainNamesCapitalize();
    }
  }

  lemma PlainNamesCapitalize()
    ensures forall e :: e in PlainLexicon() ==> PyTitle(e.name) == CapitalizeWords(e.name)
  {
    PlainNamesWords();
    forall i | 0 <= i < |PlainNames|
      ensures PyTitle(PlainNames[i]) == CapitalizeWords(PlainNames[i])
    {
      CapitalizeWordsIsPyTitle(PlainNames[i]);
    }
  }

  /** A plain-list team is reported exactly when its name occurs in the
      lower-cased title; no repeats; at most ten. */
  lemma DbTeamsSpec(title: string)
    ensures forall x :: x in DbTeams(title) <==>
      exists i :: 0 <= i < |PlainNames| && x == PyTitle(PlainNames[i]) && Contains(Lower(title), PlainNames[i])
    ensures Distinct(DbTeams(title))
    ensures |DbTeams(title)| <= 10
  {
    var lex := PlainLexicon();
    PlainLexiconWellFormed();
    TitlesOfMatchingSpec(lex, Lower(title));
    forall i | 0 <= i < |lex|
      ensures ContainsAny(Lower(title), lex[i].variations) <==> Contains(Lower(title), PlainNames[i])
    {
      assert lex[i].variations == [PlainNames[i]];
    }
  }
}
