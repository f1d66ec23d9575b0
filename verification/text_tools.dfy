/** The browser text tool: a bounded undo history per text area, case
    conversion, line and whitespace transforms, the syllable count and the
    reading-level scale of the readability report, and the character limit
    of the text areas. */
module TextTools {
  import opened Wrappers
  import opened Text

  // ---------------------------------------------------------------------
  // Undo history
  // ---------------------------------------------------------------------

  const HistoryLimit := 50

  /** One text area's history; `currentIndex` is -1 while the stack is empty. */
  datatype History = History(stack: seq<string>, currentIndex: int)

  const EmptyHistory := History([], -1)

  predicate Valid(h: History) {
    && -1 <= h.currentIndex < |h.stack| <= HistoryLimit
    && (h.currentIndex == -1 <==> |h.stack| == 0)
  }

  /** `stack[currentIndex]`, `undefined` outside the stack. */
  function Current(h: History): (r: Option<string>)
    ensures r.Some? <==> 0 <= h.currentIndex < |h.stack|
  {
    if 0 <= h.currentIndex < |h.stack| then Some(h.stack[h.currentIndex]) else None
  }

  /** `saveToHistory`: nothing when `text` is already current; otherwise the
      states after the current one are dropped, `text` is pushed, and the
      oldest state goes when there are more than 50. */
  function Save(h: History, text: string): (r: History)
    requires Valid(h)
    ensures Valid(r)
  {
    if Current(h) == Some(text) then h
    else
      var kept := if h.currentIndex < |h.stack| - 1 then h.stack[..h.currentIndex + 1] else h.stack;
      var pushed := kept + [text];
      if |pushed| > HistoryLimit then History(pushed[1..], h.currentIndex) else History(pushed, h.currentIndex + 1)
  }

  /** `undo`: one step back, never below the first state; the restored text, if any. */
  function Undo(h: History): (r: (History, Option<string>))
    requires Valid(h)
    ensures Valid(r.0) && r.0.stack == h.stack
    ensures h.currentIndex > 0 ==> r.0.currentIndex == h.currentIndex - 1 && r.1 == Current(r.0)
    ensures h.currentIndex <= 0 ==> r.0 == h && r.1.None?
  {
    if h.currentIndex > 0 then
      var h1 := h.(currentIndex := h.currentIndex - 1);
      (h1, Some(h1.stack[h1.currentIndex]))
    else (h, None)
  }

  /** `updateUndoButton`: the button is enabled only with a state to go back to. */
  predicate CanUndo(h: History) {
    h.currentIndex > 0
  }

  /** A save of the current text changes nothing. */
  lemma SaveCurrentNoOp(h: History, text: string)
    requires Valid(h) && Current(h) == Some(text)
    ensures Save(h, text) == h
  {
  }

  /** An effective save makes `text` the newest and current state, keeps at
      most 50, and keeps before it the states up to the old current one,
      in order, none of the undone ones after it. */
  lemma SaveSpec(h: History, text: string)
    requires Valid(h) && Current(h) != Some(text)
    ensures var r := Save(h, text);
      && r.currentIndex == |r.stack| - 1
      && r.stack[r.currentIndex] == text
      && |r.stack| == (if h.currentIndex + 2 > HistoryLimit then HistoryLimit else h.currentIndex + 2)
      && forall k :: 0 <= k < r.currentIndex ==> r.stack[k] == h.stack[h.currentIndex + 1 - r.currentIndex + k]
  {
  }

  /** Undo right after a save brings back the state that was current before it. */
  lemma UndoAfterSave(h: History, text: string)
    requires Valid(h) && h.currentIndex >= 0 && Current(h) != Some(text)
    ensures Undo(Save(h, text)).1 == Current(h)
  {
    SaveSpec(h, text);
  }

  /** Undo never drives the index below zero, and from the first state does nothing. */
  lemma UndoStaysInRange(h: History)
    requires Valid(h) && |h.stack| > 0
    ensures Undo(h).0.currentIndex >= 0
    ensures !CanUndo(h) ==> Undo(h).0 == h
  {
  }

  /** The history an edit leaves: the text before it is saved unless already
      current, and the new text is saved when it differs (the common frame
      of `convertCase` and `modifyText`). */
  function Edit(h: History, before: string, after: string): (r: History)
    requires Valid(h)
    ensures Valid(r)
  {
    var h1 := if Current(h) != Some(before) then Save(h, before) else h;
    if after != before then Save(h1, after) else h1
  }

  /** After an edit that changed the text, undo restores the text as it was
      before the edit. */
  lemma UndoRevertsEdit(h: History, before: string, after: string)
    requires Valid(h) && after != before
    ensures Current(Edit(h, before, after)) == Some(after)
    ensures Undo(Edit(h, before, after)).1 == Some(before)
  {
    var h1 := if Current(h) != Some(before) then Save(h, before) else h;
    if Current(h) != Some(before) {
      SaveSpec(h, before);
    }
    assert Current(h1) == Some(before);
    SaveSpec(h1, after);
  }

  // ---------------------------------------------------------------------
  // Character limit
  // ---------------------------------------------------------------------

  const MaxChars := 100000

  /** The input handler's cut to the first 100000 characters. */
  function LimitChars(text: string): (r: string)
    ensures |r| <= MaxChars && |r| <= |text| && r == text[..|r|]
    ensures |text| <= MaxChars ==> r == text
  {
    if |text| > MaxChars then text[..MaxChars] else text
  }

  lemma LimitCharsIdempotent(text: string)
    ensures LimitChars(LimitChars(text)) == LimitChars(text)
  {
  }

  // ---------------------------------------------------------------------
  // Reading level
  // ---------------------------------------------------------------------

  /** The seven levels, hardest first. */
  const Levels: seq<string> :=
    ["Very Difficult", "Difficult", "Fairly Difficult", "Standard", "Fairly Easy", "Easy", "Very Easy"]

  /** The score at which each level above the hardest begins. */
  const Thresholds: seq<real> := [30.0, 50.0, 60.0, 70.0, 80.0, 90.0]

  /** The position in `Levels` of the level for a Flesch score: the number
      of thresholds the score reaches. */
  function LevelRank(score: real): (r: nat)
    ensures r < |Levels| && |Thresholds| == |Levels| - 1
    ensures r > 0 ==> score >= Thresholds[r - 1]
    ensures r < |Thresholds| ==> score < Thresholds[r]
  {
    if score >= 90.0 then 6
    else if score >= 80.0 then 5
    else if score >= 70.0 then 4
    else if score >= 60.0 then 3
    else if score >= 50.0 then 2
    else if score >= 30.0 then 1
    else 0
  }

  /** `getReadingLevel`. */
  function ReadingLevel(score: real): string {
    Levels[LevelRank(score)]
  }

  /** A higher score never reads as harder. */
  lemma ReadingLevelMonotone(a: real, b: real)
    requires a <= b
    ensures LevelRank(a) <= LevelRank(b)
  {
  }


  // ---------------------------------------------------------------------
  // Syllables
  // ---------------------------------------------------------------------

  predicate IsVowel(c: char) {
    c == 'a' || c == 'e' || c == 'i' || c == 'o' || c == 'u' || c == 'y'
  }

  predicate HasVowel(s: string) {
    exists i :: 0 <= i < |s| && IsVowel(s[i])
  }

  /** `text.toLowerCase().replace(/[^a-z]/g, '')`. */
  function LettersOf(text: string): (r: string)
    ensures |r| <= |text|
    ensures forall i :: 0 <= i < |r| ==> IsLowerAscii(r[i])
    decreases |text|
  {
    if |text| == 0 then ""
    else
      var c := LowerChar(text[0]);
      (if IsLowerAscii(c) then [c] else "") + LettersOf(text[1..])
  }

  /** What one match of `[^aeiouy]*[aeiouy]+` leaves: the text after the
      leading consonants and the vowel run that follows them. */
  function AfterSyllable(s: string): (r: string)
    requires HasVowel(s)
    ensures |r| < |s| && r == s[|s| - |r|..]
  {
    var k := FirstVowel(s);
    s[k + |VowelRun(s[k..])|..]
  }

  /** Index of the first vowel. */
  function FirstVowel(s: string): (k: nat)
    requires HasVowel(s)
    ensures k < |s| && IsVowel(s[k])
    ensures forall i :: 0 <= i < k ==> !IsVowel(s[i])
    decreases |s|
  {
    if IsVowel(s[0]) then 0
    else
      assert HasVowel(s[1..]) by {
        var i :| 0 <= i < |s| && IsVowel(s[i]);
        assert s[1..][i - 1] == s[i];
      }
      1 + FirstVowel(s[1..])
  }

  /** The longest run of vowels at the start. */
  function VowelRun(s: string): (r: string)
    ensures |r| <= |s| && r == s[..|r|]
    ensures forall i :: 0 <= i < |r| ==> IsVowel(r[i])
    ensures |r| < |s| ==> !IsVowel(s[|r|])
    decreases |s|
  {
    if |s| > 0 && IsVowel(s[0]) then [s[0]] + VowelRun(s[1..]) else ""
  }

  /** `countSyllables` as written over its letters: every match becomes one
      character, and the consonants after the last vowel, which no match
      covers, stay and are counted too. */
  function SyllablesAsWritten(s: string): (r: nat)
    ensures r <= |s|
    decreases |s|
  {
    if !HasVowel(s) then |s| else 1 + SyllablesAsWritten(AfterSyllable(s))
  }

  /** The number of vowel groups: what a syllable estimate counts. */
  function VowelGroups(s: string): (r: nat)
    ensures r <= |s|
    ensures r == 0 <==> !HasVowel(s)
    decreases |s|
  {
    if !HasVowel(s) then 0 else 1 + VowelGroups(AfterSyllable(s))
  }

  /** `countSyllables`, corrected: the vowel groups of the letters. */
  function CountSyllables(text: string): (r: nat)
    ensures r <= |LettersOf(text)|
  {
    VowelGroups(LettersOf(text))
  }

  function CountSyllablesAsWritten(text: string): (r: nat)
    ensures r <= |LettersOf(text)|
  {
    SyllablesAsWritten(LettersOf(text))
  }

  /** The consonants after the last vowel. */
  function TrailingConsonants(s: string): (r: nat)
    ensures r <= |s|
    decreases |s|
  {
    if !HasVowel(s) then |s| else TrailingConsonants(AfterSyllable(s))
  }

  /** As written, the count is the vowel groups plus the trailing consonants. */
  lemma {:induction false} SyllablesAsWrittenExcess(s: string)
    ensures SyllablesAsWritten(s) == VowelGroups(s) + TrailingConsonants(s)
    decreases |s|
  {
    if HasVowel(s) {
      SyllablesAsWrittenExcess(AfterSyllable(s));
    }
  }

  /** "cat" counts two as written, one as intended. */
  lemma SyllablesOfCat(text: string)
    requires text == "cat"
    ensures CountSyllablesAsWritten(text) == 2
    ensures CountSyllables(text) == 1
  {
    assert LettersOf(text) == "cat" by {
      assert LettersOf("t") == "t";
      assert LettersOf("at") == "a" + LettersOf("t");
    }
    var s := "cat";
    assert IsVowel(s[1]);
    assert FirstVowel(s) == 1 by {
      assert !IsVowel(s[0]);
      assert FirstVowel(s[1..]) == 0;
    }
    assert VowelRun("at") == "a" by {
      assert VowelRun("t") == "";
    }
    assert AfterSyllable(s) == "t";
    assert !HasVowel("t");
  }

  /** A word made of vowel groups each closed by consonants, counted as
      intended: appending a vowel group adds one syllable. */
  lemma {:induction false} VowelGroupsAppend(s: string, v: string)
    requires |v| > 0 && forall i :: 0 <= i < |v| ==> IsVowel(v[i])
    requires |s| > 0 ==> !IsVowel(s[|s| - 1])
    ensures VowelGroups(s + v) == VowelGroups(s) + 1
    decreases |s|
  {
    if !HasVowel(s) {
      AppendToConsonants(s, v);
    } else {
      AfterSyllableAppend(s, v);
      var rest := AfterSyllable(s);
      assert |rest| > 0 ==> rest[|rest| - 1] == s[|s| - 1];
      VowelGroupsAppend(rest, v);
    }
  }

  /** Consonants followed by vowels make one syllable and nothing after it. */
  lemma AppendToConsonants(s: string, v: string)
    requires |v| > 0 && forall i :: 0 <= i < |v| ==> IsVowel(v[i])
    requires !HasVowel(s)
    ensures HasVowel(s + v) && AfterSyllable(s + v) == ""
  {
    assert (s + v)[|s|] == v[0];
    assert FirstVowel(s + v) == |s|;
    assert (s + v)[|s|..] == v;
    VowelRunAll(v);
  }

  /** Text after the first syllable of a word ending in a consonant keeps
      whatever is appended, and its last letter. */
  lemma AfterSyllableAppend(s: string, v: string)
    requires HasVowel(s) && !IsVowel(s[|s| - 1])
    ensures HasVowel(s + v)
    ensures AfterSyllable(s + v) == AfterSyllable(s) + v
  {
    var k := FirstVowel(s);
    FirstVowelAppend(s, v);
    RunInsideAppend(s, v, k);
    SliceAppend(s, v, k + |VowelRun(s[k..])|);
  }

  lemma RunInsideAppend(s: string, v: string, k: nat)
    requires k < |s| && !IsVowel(s[|s| - 1])
    ensures |VowelRun(s[k..])| < |s| - k
    ensures VowelRun((s + v)[k..]) == VowelRun(s[k..])
  {
    var w := s[k..];
    assert w[|w| - 1] == s[|s| - 1];
    RunStopsBeforeConsonant(w);
    assert (s + v)[k..] == w + v;
    VowelRunPrefix(w, v);
  }

  lemma SliceAppend(s: string, v: string, j: nat)
    requires j <= |s|
    ensures (s + v)[j..] == s[j..] + v
  {
  }

  lemma FirstVowelAppend(s: string, v: string)
    requires HasVowel(s)
    ensures HasVowel(s + v) && FirstVowel(s + v) == FirstVowel(s)
  {
    var k := FirstVowel(s);
    assert (s + v)[k] == s[k];
    assert forall i :: 0 <= i < k ==> (s + v)[i] == s[i];
  }

  lemma RunStopsBeforeConsonant(w: string)
    requires |w| > 0 && !IsVowel(w[|w| - 1])
    ensures |VowelRun(w)| < |w|
  {
  }

  lemma {:induction false} VowelRunAll(v: string)
    requires forall i :: 0 <= i < |v| ==> IsVowel(v[i])
    ensures VowelRun(v) == v
    decreases |v|
  {
    if |v| > 0 {
      VowelRunAll(v[1..]);
    }
  }

  /** A vowel run that stops inside `a` is unchanged by what follows. */
  lemma {:induction false} VowelRunPrefix(a: string, b: string)
    requires |VowelRun(a)| < |a|
    ensures VowelRun(a + b) == VowelRun(a)
    decreases |a|
  {
    if IsVowel(a[0]) {
      assert (a + b)[1..] == a[1..] + b;
      VowelRunPrefix(a[1..], b);
    }
  }

  // ---------------------------------------------------------------------
  // Case conversion
  // ---------------------------------------------------------------------

  /** `\w` of a JavaScript pattern. */
  predicate IsWordChar(c: char) {
    IsLetter(c) || IsDigit(c) || c == '_'
  }

  /** The characters after which `^` matches in a multiline pattern. */
  predicate IsLineTerminator(c: char) {
    c == '\n' || c == '\r' || c == '\U{2028}' || c == '\U{2029}'
  }

  /** A non-empty run of whitespace ends just before `i`, and a period precedes it. */
  predicate AfterPeriod(t: string, i: nat)
    requires i <= |t|
    decreases i
  {
    i >= 2 && IsJsSpace(t[i - 1]) && (t[i - 2] == '.' || AfterPeriod(t, i - 1))
  }

  /** The positions `/(^\w|\.\s+\w)/gm` ends a match at: a word character at
      the start of a line or after a period and whitespace. */
  predicate SentenceStart(t: string, i: nat)
    requires i < |t|
  {
    IsWordChar(t[i]) && (i == 0 || IsLineTerminator(t[i - 1]) || AfterPeriod(t, i))
  }

  /** Position `i` of `t` after the sentence conversion: upper case where a sentence starts. */
  function Marked(t: string, i: nat): char
    requires i < |t|
  {
    if SentenceStart(t, i) then UpperChar(t[i]) else t[i]
  }

  /** Every position of `t` as `Marked` has it. */
  function MarkAll(t: string): (r: string)
    ensures |r| == |t|
  {
    seq(|t|, i requires 0 <= i < |t| => Marked(t, i))
  }

  /** The 'sentence' conversion: lower case, then each match of the pattern
      upper-cased (the period and spaces it covers have no case). */
  function SentenceCase(text: string): (r: string)
    ensures |r| == |text|
  {
    MarkAll(Lower(text))
  }

  /** The end of the run of `\s` characters that starts at `i`. */
  function SpaceRunEnd(t: string, i: nat): (e: nat)
    requires i <= |t|
    ensures i <= e <= |t|
    ensures forall j :: i <= j < e ==> IsJsSpace(t[j])
    ensures e == |t| || !IsJsSpace(t[e])
    decreases |t| - i
  {
    if i < |t| && IsJsSpace(t[i]) then SpaceRunEnd(t, i + 1) else i
  }

  /** The length of the match of `/(^\w|\.\s+\w)/m` that starts at `i`, or 0
      when none does.  `\s+` followed by `\w` can only succeed on the whole
      run of spaces, so the longest run is the only one that matters. */
  function MatchAt(t: string, i: nat): (n: nat)
    requires i < |t|
    ensures i + n <= |t|
  {
    if IsWordChar(t[i]) && (i == 0 || IsLineTerminator(t[i - 1])) then 1
    else if t[i] == '.' && SpaceRunEnd(t, i + 1) > i + 1 && SpaceRunEnd(t, i + 1) < |t|
            && IsWordChar(t[SpaceRunEnd(t, i + 1)]) then SpaceRunEnd(t, i + 1) + 1 - i
    else 0
  }

  /** What one step of the scan emits at `i`: the upper-cased match, or the
      character itself when no match starts there. */
  function ScanHead(t: string, i: nat): (h: string)
    requires i < |t|
    ensures 0 < |h| && i + |h| <= |t|
  {
    if MatchAt(t, i) > 0 then Upper(t[i..i + MatchAt(t, i)]) else [t[i]]
  }

  /** `t.replace(/(^\w|\.\s+\w)/gm, m => m.toUpperCase())` as the engine
      runs it from position `i`: try a match there; on success upper-case
      the matched text and resume after it, otherwise copy one character and
      try at the next position. */
  function ScanSentences(t: string, i: nat): (r: string)
    requires i <= |t|
    decreases |t| - i
  {
    if i == |t| then [] else ScanHead(t, i) + ScanSentences(t, i + |ScanHead(t, i)|)
  }

  /** The 'alternate' conversion. */
  function Alternate(text: string): (r: string)
    ensures |r| == |text|
  {
    seq(|text|, i requires 0 <= i < |text| => if i % 2 == 0 then LowerChar(text[i]) else UpperChar(text[i]))
  }

  /** `convertCase(kind)` on the text; an unknown kind leaves it as is. */
  function ConvertCase(kind: string, text: string): string {
    match kind
    case "lower" => Lower(text)
    case "upper" => Upper(text)
    case "title" => CapitalizeWords(Lower(text))
    case "sentence" => SentenceCase(text)
    case "alternate" => Alternate(text)
    case _ => text
  }

  lemma LowerFirstCapitalized(w: string)
    ensures Lower(CapitalizeFirst(w)) == Lower(w)
  {
  }

  lemma {:induction false} LowerJoinCapitalized(parts: seq<string>)
    ensures Lower(Join(CapitalizeAll(parts), ' ')) == Lower(Join(parts, ' '))
    decreases |parts|
  {
    if |parts| == 1 {
      LowerFirstCapitalized(parts[0]);
    } else if |parts| > 1 {
      var caps := CapitalizeAll(parts);
      assert caps[1..] == CapitalizeAll(parts[1..]);
      LowerJoinCapitalized(parts[1..]);
      LowerFirstCapitalized(parts[0]);
      LowerConcat(caps[0] + [' '], Join(caps[1..], ' '));
      LowerConcat(caps[0], [' ']);
      LowerConcat(parts[0] + [' '], Join(parts[1..], ' '));
      LowerConcat(parts[0], [' ']);
    }
  }

  /** Word capitalisation only changes case. */
  lemma LowerCapitalizeWords(x: string)
    ensures Lower(CapitalizeWords(x)) == Lower(x)
  {
    LowerJoinCapitalized(Split(x, ' '));
    JoinSplit(x, ' ');
  }

  /** Every conversion changes case only: the lower-cased text is the same
      and so is the length. */
  lemma ConvertCaseOnlyCase(kind: string, text: string)
    ensures Lower(ConvertCase(kind, text)) == Lower(text)
    ensures |ConvertCase(kind, text)| == |text|
  {
    if kind == "title" {
      LowerCapitalizeWords(Lower(text));
      LowerOfLowerCase(Lower(text)) by { LowerNoUpper(text); }
    }
  }

  /** Converting twice is converting once, for every kind. */
  lemma ConvertCaseIdempotent(kind: string, text: string)
    ensures ConvertCase(kind, ConvertCase(kind, text)) == ConvertCase(kind, text)
  {
    var r := ConvertCase(kind, text);
    ConvertCaseOnlyCase(kind, text);
    match kind
    case "lower" =>
    case "upper" =>
    case "title" =>
    case "sentence" =>
    case "alternate" =>
    case _ =>
  }

  /** The alternate conversion leaves no upper-case letter at an even
      position and no lower-case letter at an odd one. */
  lemma AlternateSpec(text: string)
    ensures forall i :: 0 <= i < |text| && i % 2 == 0 ==> !IsUpperAscii(Alternate(text)[i])
    ensures forall i :: 0 <= i < |text| && i % 2 == 1 ==> !IsLowerAscii(Alternate(text)[i])
  {
  }

  /** The scan can resume at `i`: if `i` sits in a run of spaces after a
      period, that run is not followed by a word character (the match at the
      period would otherwise have taken it). */
  predicate Resumable(t: string, i: nat)
    requires i <= |t|
  {
    (AfterPeriod(t, i) || (0 < i < |t| && t[i - 1] == '.' && IsJsSpace(t[i]))) ==>
      SpaceRunEnd(t, i) == |t| || !IsWordChar(t[SpaceRunEnd(t, i)])
  }

  lemma WordCharShape(c: char)
    requires IsWordChar(c)
    ensures !IsJsSpace(c) && !IsLineTerminator(c) && c != '.'
  {
  }

  /** A period or a space is no word character and has no case. */
  lemma NotWordChar(c: char)
    requires IsJsSpace(c) || c == '.'
    ensures !IsWordChar(c) && UpperChar(c) == c
  {
  }

  /** Every position inside a run of spaces that follows a period, and the
      position just after the run, is after a period. */
  lemma {:induction false} AfterPeriodRun(t: string, p: nat, j: nat)
    requires p < |t| && t[p] == '.' && p + 2 <= j <= SpaceRunEnd(t, p + 1)
    ensures AfterPeriod(t, j)
    decreases j
  {
    if j > p + 2 {
      AfterPeriodRun(t, p, j - 1);
    }
  }

  /** A period match leaves the text it covers as `Marked` has it. */
  lemma PeriodMatchMarked(t: string, i: nat)
    requires i < |t| && t[i] == '.' && SpaceRunEnd(t, i + 1) > i + 1 && SpaceRunEnd(t, i + 1) < |t|
    requires IsWordChar(t[SpaceRunEnd(t, i + 1)])
    ensures forall j :: i <= j <= SpaceRunEnd(t, i + 1) ==>
      Upper(t[i..SpaceRunEnd(t, i + 1) + 1])[j - i] == Marked(t, j)
    ensures Resumable(t, SpaceRunEnd(t, i + 1) + 1)
  {
    var e := SpaceRunEnd(t, i + 1);
    forall j | i <= j <= e
      ensures Upper(t[i..e + 1])[j - i] == Marked(t, j)
    {
      if j == e {
        AfterPeriodRun(t, i, e);
      } else {
        NotWordChar(t[j]);
      }
    }
    WordCharShape(t[e]);
  }

  /** Where no match starts, the character is kept, and the scan can go on. */
  lemma CopyMarked(t: string, i: nat)
    requires i < |t| && Resumable(t, i) && MatchAt(t, i) == 0
    ensures Marked(t, i) == t[i] && Resumable(t, i + 1)
  {
    if IsWordChar(t[i]) {
      WordCharShape(t[i]);
      assert SpaceRunEnd(t, i) == i;
    }
    if IsJsSpace(t[i]) && i + 1 < |t| {
      assert SpaceRunEnd(t, i + 1) == SpaceRunEnd(t, i);
    }
  }

  /** One step of the scan emits the marked text of what it covers, and
      leaves the scan at a resumable position. */
  lemma ScanHeadMarked(t: string, i: nat)
    requires i < |t| && Resumable(t, i)
    ensures ScanHead(t, i) == MarkAll(t)[i..i + |ScanHead(t, i)|]
    ensures Resumable(t, i + |ScanHead(t, i)|)
  {
    var h := ScanHead(t, i);
    if IsWordChar(t[i]) && (i == 0 || IsLineTerminator(t[i - 1])) {
      LineStartMarked(t, i);
    } else if MatchAt(t, i) > 0 {
      PeriodHeadMarked(t, i);
    } else {
      CopyMarked(t, i);
    }
    MarkAllSlice(t, i, h);
  }

  lemma MarkAllSlice(t: string, i: nat, h: string)
    requires i + |h| <= |t|
    requires forall j :: 0 <= j < |h| ==> h[j] == Marked(t, i + j)
    ensures h == MarkAll(t)[i..i + |h|]
  {
  }

  /** A word character at the start of a line is matched by `^\w` alone. */
  lemma LineStartMarked(t: string, i: nat)
    requires i < |t| && IsWordChar(t[i]) && (i == 0 || IsLineTerminator(t[i - 1]))
    ensures ScanHead(t, i) == [UpperChar(t[i])] && Marked(t, i) == UpperChar(t[i])
    ensures Resumable(t, i + 1)
  {
    WordCharShape(t[i]);
    assert !AfterPeriod(t, i + 1);
  }

  lemma PeriodHeadMarked(t: string, i: nat)
    requires i < |t| && !(IsWordChar(t[i]) && (i == 0 || IsLineTerminator(t[i - 1]))) && MatchAt(t, i) > 0
    ensures forall j :: 0 <= j < |ScanHead(t, i)| ==> ScanHead(t, i)[j] == Marked(t, i + j)
    ensures Resumable(t, i + |ScanHead(t, i)|)
  {
    PeriodMatchMarked(t, i);
  }

  /** From a resumable position the scan produces the marked text. */
  lemma {:induction false} ScanSentencesMarked(t: string, i: nat)
    requires i <= |t| && Resumable(t, i)
    ensures ScanSentences(t, i) == MarkAll(t)[i..]
    decreases |t| - i
  {
    if i < |t| {
      var k := i + |ScanHead(t, i)|;
      ScanHeadMarked(t, i);
      ScanSentencesMarked(t, k);
      assert MarkAll(t)[i..] == MarkAll(t)[i..k] + MarkAll(t)[k..];
    }
  }

  /** The sentence conversion is what the pattern's left-to-right,
      non-overlapping replacement does to the lower-cased text. */
  lemma SentenceCaseIsScan(text: string)
    ensures ScanSentences(Lower(text), 0) == SentenceCase(text)
  {
    ScanSentencesMarked(Lower(text), 0);
  }

  // ---------------------------------------------------------------------
  // Line and whitespace transforms
  // ---------------------------------------------------------------------

  predicate IsLineBreak(c: char) { c == '\r' || c == '\n' }

  /** The run of `p` characters at the start of `s` removed. */
  function SkipRun(s: string, p: char -> bool): (r: string)
    ensures |r| <= |s| && r == s[|s| - |r|..]
    ensures forall i :: 0 <= i < |s| - |r| ==> p(s[i])
    ensures |r| > 0 ==> !p(r[0])
    decreases |s|
  {
    if |s| > 0 && p(s[0]) then SkipRun(s[1..], p) else s
  }

  /** `s.replace(/P+/g, rep)`: each maximal run of `p` characters becomes `rep`. */
  function ReplaceRuns(s: string, p: char -> bool, rep: string): string
    decreases |s|
  {
    if |s| == 0 then ""
    else if p(s[0]) then rep + ReplaceRuns(SkipRun(s[1..], p), p, rep)
    else [s[0]] + ReplaceRuns(s[1..], p, rep)
  }

  /** The characters of `s` that `keep` accepts, in order. */
  function Keep(s: string, keep: char -> bool): (r: string)
    ensures |r| <= |s|
    ensures forall i :: 0 <= i < |r| ==> keep(r[i])
    decreases |s|
  {
    if |s| == 0 then "" else (if keep(s[0]) then [s[0]] else "") + Keep(s[1..], keep)
  }

  lemma {:induction false} KeepConcat(a: string, b: string, keep: char -> bool)
    ensures Keep(a + b, keep) == Keep(a, keep) + Keep(b, keep)
    decreases |a|
  {
    if |a| == 0 {
      assert a + b == b;
    } else {
      assert (a + b)[1..] == a[1..] + b;
      KeepConcat(a[1..], b, keep);
    }
  }

  lemma {:induction false} KeepNone(s: string, keep: char -> bool)
    requires forall i :: 0 <= i < |s| ==> !keep(s[i])
    ensures Keep(s, keep) == ""
    decreases |s|
  {
    if |s| > 0 {
      KeepNone(s[1..], keep);
    }
  }

  /** Replacing runs keeps, in order, every character outside the runs and
      outside the replacement: nothing but whitespace is lost or gained. */
  lemma {:induction false} ReplaceRunsKeeps(s: string, p: char -> bool, rep: string, keep: char -> bool)
    requires forall c :: p(c) ==> !keep(c)
    requires forall i :: 0 <= i < |rep| ==> !keep(rep[i])
    ensures Keep(ReplaceRuns(s, p, rep), keep) == Keep(s, keep)
    decreases |s|
  {
    if |s| > 0 {
      if p(s[0]) {
        var rest := SkipRun(s[1..], p);
        ReplaceRunsKeeps(rest, p, rep, keep);
        KeepConcat(rep, ReplaceRuns(rest, p, rep), keep);
        KeepNone(rep, keep);
        SkipRunKeep(s[1..], p, keep);
      } else {
        ReplaceRunsKeeps(s[1..], p, rep, keep);
        KeepConcat([s[0]], ReplaceRuns(s[1..], p, rep), keep);
      }
    }
  }

  lemma {:induction false} SkipRunKeep(s: string, p: char -> bool, keep: char -> bool)
    requires forall c :: p(c) ==> !keep(c)
    ensures Keep(SkipRun(s, p), keep) == Keep(s, keep)
    decreases |s|
  {
    if |s| > 0 && p(s[0]) {
      SkipRunKeep(s[1..], p, keep);
    }
  }

  /** With a replacement free of run characters, none is left. */
  lemma {:induction false} ReplaceRunsRemoves(s: string, p: char -> bool, rep: string)
    requires forall i :: 0 <= i < |rep| ==> !p(rep[i])
    ensures forall i :: 0 <= i < |ReplaceRuns(s, p, rep)| ==> !p(ReplaceRuns(s, p, rep)[i])
    decreases |s|
  {
    if |s| > 0 {
      if p(s[0]) {
        ReplaceRunsRemoves(SkipRun(s[1..], p), p, rep);
      } else {
        ReplaceRunsRemoves(s[1..], p, rep);
      }
    }
  }

  /** With a one-character replacement from the run class, the output never
      has two run characters in a row. */
  lemma {:induction false} ReplaceRunsCollapses(s: string, p: char -> bool, c: char)
    requires p(c)
    ensures var r := ReplaceRuns(s, p, [c]);
      forall i :: 0 <= i < |r| - 1 ==> !(p(r[i]) && p(r[i + 1]))
    ensures |s| > 0 ==> |ReplaceRuns(s, p, [c])| > 0 && (p(ReplaceRuns(s, p, [c])[0]) <==> p(s[0]))
    decreases |s|
  {
    if |s| > 0 {
      if p(s[0]) {
        var rest := SkipRun(s[1..], p);
        ReplaceRunsCollapses(rest, p, c);
      } else {
        ReplaceRunsCollapses(s[1..], p, c);
      }
    }
  }

  /** 'remove-linebreaks': every run of CR/LF becomes one space. */
  function RemoveLineBreaks(text: string): (r: string)
    ensures forall i :: 0 <= i < |r| ==> !IsLineBreak(r[i])
  {
    ReplaceRunsRemoves(text, IsLineBreak, " ");
    ReplaceRuns(text, IsLineBreak, " ")
  }

  /** 'remove-whitespace': every whitespace run becomes one space. */
  function CollapseWhitespace(text: string): (r: string)
    ensures forall i :: 0 <= i < |r| - 1 ==> !(IsJsSpace(r[i]) && IsJsSpace(r[i + 1]))
  {
    ReplaceRunsCollapses(text, IsJsSpace, ' ');
    ReplaceRuns(text, IsJsSpace, " ")
  }

  /** 'remove-all-spaces': every whitespace character goes. */
  function RemoveAllSpaces(text: string): (r: string)
    ensures forall i :: 0 <= i < |r| ==> !IsJsSpace(r[i])
  {
    ReplaceRunsRemoves(text, IsJsSpace, "");
    ReplaceRuns(text, IsJsSpace, "")
  }

  predicate NotSpace(c: char) { !IsJsSpace(c) }

  /** The whitespace transforms keep every other character, in order. */
  lemma WhitespaceTransformsKeepText(text: string)
    ensures RemoveAllSpaces(text) == Keep(text, NotSpace)
    ensures Keep(CollapseWhitespace(text), NotSpace) == Keep(text, NotSpace)
    ensures Keep(RemoveLineBreaks(text), NotSpace) == Keep(text, NotSpace)
  {
    ReplaceRunsKeeps(text, IsJsSpace, "", NotSpace);
    ReplaceRunsKeeps(text, IsJsSpace, " ", NotSpace);
    ReplaceRunsKeeps(text, IsLineBreak, " ", NotSpace);
    var r := RemoveAllSpaces(text);
    KeepAll(r, NotSpace);
  }

  lemma {:induction false} KeepAll(s: string, keep: char -> bool)
    requires forall i :: 0 <= i < |s| ==> keep(s[i])
    ensures Keep(s, keep) == s
    decreases |s|
  {
    if |s| > 0 {
      KeepAll(s[1..], keep);
      assert [s[0]] + s[1..] == s;
    }
  }

  /** Each line trimmed. */
  function TrimAll(lines: seq<string>): (r: seq<string>)
    ensures |r| == |lines|
    ensures forall i :: 0 <= i < |r| ==> r[i] == JsTrim(lines[i])
  {
    seq(|lines|, i requires 0 <= i < |lines| => JsTrim(lines[i]))
  }

  /** The lines that are not blank after trimming. */
  function NonBlank(lines: seq<string>): (r: seq<string>)
    ensures |r| <= |lines|
    ensures forall x :: x in r <==> x in lines && JsTrim(x) != ""
    decreases |lines|
  {
    if |lines| == 0 then []
    else
      assert forall x :: x in lines <==> x == lines[0] || x in lines[1..];
      (if JsTrim(lines[0]) != "" then [lines[0]] else []) + NonBlank(lines[1..])
  }

  /** 'trim-lines'. */
  function TrimLines(text: string): string {
    Join(TrimAll(Split(text, '\n')), '\n')
  }

  /** 'remove-empty-lines'. */
  function RemoveEmptyLines(text: string): string {
    Join(NonBlank(Split(text, '\n')), '\n')
  }

  lemma TrimmedLineHasNoBreak(line: string)
    requires '\n' !in line
    ensures '\n' !in JsTrim(line)
  {
    var a, b := StripIsInfix(line, IsJsSpace);
    assert forall i :: 0 <= i < |JsTrim(line)| ==> JsTrim(line)[i] == line[a + i];
  }

  /** Trimming lines keeps the number of lines, and line `i` of the result is
      line `i` of the input, trimmed. */
  lemma TrimLinesSpec(text: string)
    ensures Split(TrimLines(text), '\n') == TrimAll(Split(text, '\n'))
    ensures |Split(TrimLines(text), '\n')| == |Split(text, '\n')|
  {
    var lines := Split(text, '\n');
    SplitPartsAvoidSep(text, '\n');
    forall k | 0 <= k < |lines|
      ensures '\n' !in TrimAll(lines)[k]
    {
      TrimmedLineHasNoBreak(lines[k]);
    }
    SplitJoin(TrimAll(lines), '\n');
  }

  /** After removing empty lines, no line of a non-empty result is blank,
      and the lines are the input's non-blank lines. */
  lemma RemoveEmptyLinesSpec(text: string)
    ensures var r := RemoveEmptyLines(text);
      r != "" ==> (Split(r, '\n') == NonBlank(Split(text, '\n'))
                   && forall line :: line in Split(r, '\n') ==> JsTrim(line) != "")
  {
    var lines := Split(text, '\n');
    var kept := NonBlank(lines);
    SplitPartsAvoidSep(text, '\n');
    if |kept| > 0 {
      forall k | 0 <= k < |kept|
        ensures '\n' !in kept[k]
      {
        assert kept[k] in kept;
        var j :| 0 <= j < |lines| && lines[j] == kept[k];
      }
      SplitJoin(kept, '\n');
    }
  }

  /** `modifyText(kind)` on the text.  The JSON re-formatting goes through the
      browser's JSON library, passed in: `None` for text that does not parse,
      which leaves the text as it is. */
  function ModifyText(kind: string, text: string, formatJson: string -> Option<string>): string {
    match kind
    case "remove-linebreaks" => RemoveLineBreaks(text)
    case "remove-whitespace" => CollapseWhitespace(text)
    case "remove-all-spaces" => RemoveAllSpaces(text)
    case "trim-lines" => TrimLines(text)
    case "remove-empty-lines" => RemoveEmptyLines(text)
    case "format-json" => (match formatJson(text) case Some(j) => j case None => text)
    case _ => text
  }
}
