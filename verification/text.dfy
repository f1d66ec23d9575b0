/** String helpers shared by the Python back end and the browser scripts.
    Strings are sequences of Unicode scalar values; letter casing is modelled
    for ASCII letters only. */
module Text {

  // ---------------------------------------------------------------------
  // Character classes
  // ---------------------------------------------------------------------

  predicate IsUpperAscii(c: char) { 'A' <= c <= 'Z' }
  predicate IsLowerAscii(c: char) { 'a' <= c <= 'z' }
  predicate IsLetter(c: char) { IsUpperAscii(c) || IsLowerAscii(c) }
  predicate IsDigit(c: char) { '0' <= c <= '9' }

  /** Python's `str.isspace()`; also the characters `\s` matches in a Python `re` pattern. */
  predicate IsPySpace(c: char) {
    || ('\t' <= c <= '\r')
    || ('\U{1C}' <= c <= ' ')
    || c == '\U{85}' || c == '\U{A0}' || c == '\U{1680}'
    || ('\U{2000}' <= c <= '\U{200A}')
    || c == '\U{2028}' || c == '\U{2029}' || c == '\U{202F}' || c == '\U{205F}' || c == '\U{3000}'
  }

  /** JavaScript's `\s` and the characters `String.prototype.trim` removes. */
  predicate IsJsSpace(c: char) {
    || ('\t' <= c <= '\r')
    || c == ' ' || c == '\U{A0}' || c == '\U{1680}'
    || ('\U{2000}' <= c <= '\U{200A}')
    || c == '\U{2028}' || c == '\U{2029}' || c == '\U{202F}' || c == '\U{205F}' || c == '\U{3000}'
    || c == '\U{FEFF}'
  }

  // ---------------------------------------------------------------------
  // Casing
  // ---------------------------------------------------------------------

  function LowerChar(c: char): char {
    if IsUpperAscii(c) then (c as int + 32) as char else c
  }

  function UpperChar(c: char): char {
    if IsLowerAscii(c) then (c as int - 32) as char else c
  }

  /** `str.lower()` / `String.prototype.toLowerCase()`. */
  function Lower(s: string): string {
    seq(|s|, i requires 0 <= i < |s| => LowerChar(s[i]))
  }

  /** `str.upper()` / `String.prototype.toUpperCase()`. */
  function Upper(s: string): string {
    seq(|s|, i requires 0 <= i < |s| => UpperChar(s[i]))
  }

  predicate NoUpper(s: string) {
    forall i :: 0 <= i < |s| ==> !IsUpperAscii(s[i])
  }

  lemma LowerConcat(a: string, b: string)
    ensures Lower(a + b) == Lower(a) + Lower(b)
  {
    assert forall i :: 0 <= i < |a + b| ==> Lower(a + b)[i] == (Lower(a) + Lower(b))[i];
  }

  lemma LowerOfLowerCase(s: string)
    requires NoUpper(s)
    ensures Lower(s) == s
  {
  }

  lemma LowerNoUpper(s: string)
    ensures NoUpper(Lower(s))
  {
  }

  // ---------------------------------------------------------------------
  // Substrings (Python `in`, JavaScript `includes`)
  // ---------------------------------------------------------------------

  predicate StartsWith(s: string, p: string) {
    |p| <= |s| && s[..|p|] == p
  }

  /** `sub in s`. */
  predicate Contains(s: string, sub: string)
    decreases |s|
  {
    StartsWith(s, sub) || (|s| > 0 && Contains(s[1..], sub))
  }

  /** `any(x in s for x in subs)`. */
  predicate ContainsAny(s: string, subs: seq<string>)
    decreases |subs|
  {
    |subs| > 0 && (Contains(s, subs[0]) || ContainsAny(s, subs[1..]))
  }

  lemma {:induction false} ContainsAt(s: string, sub: string, i: nat)
    requires i + |sub| <= |s| && s[i..i + |sub|] == sub
    ensures Contains(s, sub)
    decreases i
  {
    if i > 0 {
      assert s[1..][i - 1..i - 1 + |sub|] == s[i..i + |sub|];
      ContainsAt(s[1..], sub, i - 1);
    }
  }

  lemma {:induction false} ContainsWitness(s: string, sub: string) returns (i: nat)
    requires Contains(s, sub)
    ensures i + |sub| <= |s| && s[i..i + |sub|] == sub
    decreases |s|
  {
    if StartsWith(s, sub) {
      i := 0;
    } else {
      var j := ContainsWitness(s[1..], sub);
      assert s[1..][j..j + |sub|] == s[j + 1..j + 1 + |sub|];
      i := j + 1;
    }
  }

  lemma ContainsInfix(a: string, s: string, b: string, sub: string)
    requires Contains(s, sub)
    ensures Contains(a + s + b, sub)
  {
    var i := ContainsWitness(s, sub);
    assert (a + s + b)[|a| + i..|a| + i + |sub|] == s[i..i + |sub|];
    ContainsAt(a + s + b, sub, |a| + i);
  }

  lemma ContainsTrans(s: string, mid: string, sub: string)
    requires Contains(s, mid) && Contains(mid, sub)
    ensures Contains(s, sub)
  {
    var i := ContainsWitness(s, mid);
    var j := ContainsWitness(mid, sub);
    var w := s[i + j..i + j + |sub|];
    forall k | 0 <= k < |sub|
      ensures w[k] == sub[k]
    {
      calc {
        w[k];
        s[i..i + |mid|][j + k];
        mid[j..j + |sub|][k];
      }
    }
    assert w == sub;
    ContainsAt(s, sub, i + j);
  }

  lemma {:induction false} ContainsAnyIff(s: string, subs: seq<string>)
    ensures ContainsAny(s, subs) <==> exists i :: 0 <= i < |subs| && Contains(s, subs[i])
    decreases |subs|
  {
    if |subs| > 0 {
      ContainsAnyIff(s, subs[1..]);
      if exists i :: 0 <= i < |subs| && Contains(s, subs[i]) {
        var i :| 0 <= i < |subs| && Contains(s, subs[i]);
        if i > 0 {
          assert subs[1..][i - 1] == subs[i];
        }
      }
    }
  }

  lemma ContainsAnyInfix(a: string, s: string, b: string, subs: seq<string>)
    requires ContainsAny(s, subs)
    ensures ContainsAny(a + s + b, subs)
  {
    ContainsAnyIff(s, subs);
    var i :| 0 <= i < |subs| && Contains(s, subs[i]);
    ContainsInfix(a, s, b, subs[i]);
    ContainsAnyIff(a + s + b, subs);
  }

  lemma {:induction false} NotContainsShorter(s: string, sub: string)
    requires |s| < |sub|
    ensures !Contains(s, sub)
    decreases |s|
  {
    if |s| > 0 {
      NotContainsShorter(s[1..], sub);
    }
  }

  // ---------------------------------------------------------------------
  // Splitting, joining and trimming
  // ---------------------------------------------------------------------

  /** `s.split(sep)` with a one-character separator, in Python and in JavaScript:
      the pieces between separators, empty pieces included. */
  function Split(s: string, sep: char): (parts: seq<string>)
    ensures |parts| >= 1
    decreases |s|
  {
    if |s| == 0 then [""]
    else
      var rest := Split(s[1..], sep);
      if s[0] == sep then [""] + rest else [[s[0]] + rest[0]] + rest[1..]
  }

  /** `sep.join(parts)` / `parts.join(sep)`. */
  function Join(parts: seq<string>, sep: char): string
    decreases |parts|
  {
    if |parts| == 0 then ""
    else if |parts| == 1 then parts[0]
    else parts[0] + [sep] + Join(parts[1..], sep)
  }

  lemma {:induction false} SplitPartsAvoidSep(s: string, sep: char)
    ensures forall k :: 0 <= k < |Split(s, sep)| ==> sep !in Split(s, sep)[k]
    decreases |s|
  {
    if |s| > 0 {
      SplitPartsAvoidSep(s[1..], sep);
    }
  }

  lemma {:induction false} JoinSplit(s: string, sep: char)
    ensures Join(Split(s, sep), sep) == s
    decreases |s|
  {
    if |s| > 0 {
      var rest := Split(s[1..], sep);
      JoinSplit(s[1..], sep);
      if s[0] == sep {
        assert Split(s, sep) == [""] + rest;
      } else {
        var parts := [[s[0]] + rest[0]] + rest[1..];
        if |rest| == 1 {
          assert Join(parts, sep) == [s[0]] + rest[0];
        } else {
          assert parts[1..] == rest[1..];
          assert Join(rest, sep) == rest[0] + [sep] + Join(rest[1..], sep);
        }
      }
    }
  }

  lemma {:induction false} SplitJoin(parts: seq<string>, sep: char)
    requires |parts| >= 1
    requires forall k :: 0 <= k < |parts| ==> sep !in parts[k]
    ensures Split(Join(parts, sep), sep) == parts
    decreases |parts|
  {
    if |parts| == 1 {
      SplitWithoutSep(parts[0], sep);
    } else {
      SplitJoin(parts[1..], sep);
      SplitPrefix(parts[0], Join(parts[1..], sep), sep);
      assert [parts[0]] + parts[1..] == parts;
    }
  }

  lemma {:induction false} SplitWithoutSep(s: string, sep: char)
    requires sep !in s
    ensures Split(s, sep) == [s]
    decreases |s|
  {
    if |s| > 0 {
      SplitWithoutSep(s[1..], sep);
      assert [s[0]] + s[1..] == s;
    }
  }

  /** Splitting `a + sep + b` where `a` holds no separator. */
  lemma {:induction false} SplitPrefix(a: string, b: string, sep: char)
    requires sep !in a
    ensures Split(a + [sep] + b, sep) == [a] + Split(b, sep)
    decreases |a|
  {
    if |a| == 0 {
      assert a + [sep] + b == [sep] + b;
      assert ([sep] + b)[1..] == b;
    } else {
      assert (a + [sep] + b)[1..] == a[1..] + [sep] + b;
      SplitPrefix(a[1..], b, sep);
      assert [a[0]] + a[1..] == a;
    }
  }

  function TrimStart(s: string, isSpace: char -> bool): string
    decreases |s|
  {
    if |s| > 0 && isSpace(s[0]) then TrimStart(s[1..], isSpace) else s
  }

  function TrimEnd(s: string, isSpace: char -> bool): string
    decreases |s|
  {
    if |s| > 0 && isSpace(s[|s| - 1]) then TrimEnd(s[..|s| - 1], isSpace) else s
  }

  /** Removes the characters `isSpace` accepts from both ends. */
  function Strip(s: string, isSpace: char -> bool): string {
    TrimEnd(TrimStart(s, isSpace), isSpace)
  }

  /** Python's `str.strip()`. */
  function PyStrip(s: string): string { Strip(s, IsPySpace) }

  /** JavaScript's `String.prototype.trim()`. */
  function JsTrim(s: string): string { Strip(s, IsJsSpace) }

  predicate AllSatisfy(s: string, p: char -> bool) {
    forall i :: 0 <= i < |s| ==> p(s[i])
  }

  lemma {:induction false} TrimStartShape(s: string, isSpace: char -> bool) returns (k: nat)
    ensures k <= |s| && TrimStart(s, isSpace) == s[k..]
    ensures forall i :: 0 <= i < k ==> isSpace(s[i])
    ensures k < |s| ==> !isSpace(s[k])
    decreases |s|
  {
    if |s| > 0 && isSpace(s[0]) {
      var j := TrimStartShape(s[1..], isSpace);
      assert s[1..][j..] == s[j + 1..];
      forall i | 0 <= i < j + 1
        ensures isSpace(s[i])
      {
        if i > 0 { assert s[i] == s[1..][i - 1]; }
      }
      k := j + 1;
    } else {
      k := 0;
    }
  }

  lemma {:induction false} TrimEndShape(s: string, isSpace: char -> bool) returns (k: nat)
    ensures k <= |s| && TrimEnd(s, isSpace) == s[..k]
    ensures forall i :: k <= i < |s| ==> isSpace(s[i])
    ensures k > 0 ==> !isSpace(s[k - 1])
    decreases |s|
  {
    if |s| > 0 && isSpace(s[|s| - 1]) {
      var t := s[..|s| - 1];
      k := TrimEndShape(t, isSpace);
      assert t[..k] == s[..k];
    } else {
      k := |s|;
    }
  }

  /** A stripped string is empty exactly when every character was a space. */
  lemma StripEmptyIff(s: string, isSpace: char -> bool)
    ensures Strip(s, isSpace) == "" <==> AllSatisfy(s, isSpace)
  {
    var k := TrimStartShape(s, isSpace);
    var t := s[k..];
    var m := TrimEndShape(t, isSpace);
    if k < |s| {
      assert !isSpace(t[0]);
      assert m > 0;
    }
  }

  /** Stripping keeps a contiguous piece of the input. */
  lemma StripIsInfix(s: string, isSpace: char -> bool) returns (a: nat, b: nat)
    ensures a <= b <= |s| && Strip(s, isSpace) == s[a..b]
  {
    var k := TrimStartShape(s, isSpace);
    var t := s[k..];
    var m := TrimEndShape(t, isSpace);
    assert t[..m] == s[k..k + m];
    a, b := k, k + m;
  }

  /** A string that neither starts nor ends with a space is its own strip. */
  lemma StripUnchanged(s: string, isSpace: char -> bool)
    requires |s| > 0 ==> !isSpace(s[0]) && !isSpace(s[|s| - 1])
    ensures Strip(s, isSpace) == s
  {
  }

  /** Leading spaces never survive a strip. */
  lemma StripLeadingSpace(c: char, s: string, isSpace: char -> bool)
    requires isSpace(c)
    ensures Strip([c] + s, isSpace) == Strip(s, isSpace)
  {
    assert ([c] + s)[1..] == s;
  }

  // ---------------------------------------------------------------------
  // Decimal digits
  // ---------------------------------------------------------------------

  function DigitChar(d: nat): char
    requires d < 10
  {
    ('0' as int + d) as char
  }

  function DigitValue(c: char): nat
    requires IsDigit(c)
  {
    c as int - '0' as int
  }

  predicate AllDigits(s: string) {
    forall i :: 0 <= i < |s| ==> IsDigit(s[i])
  }

  /** The characters of `s` that are digits, in order (`''.join(filter(str.isdigit, s))`). */
  function DigitsOnly(s: string): (r: string)
    ensures AllDigits(r)
    ensures |r| <= |s|
    decreases |s|
  {
    if |s| == 0 then ""
    else if IsDigit(s[0]) then [s[0]] + DigitsOnly(s[1..])
    else DigitsOnly(s[1..])
  }

  lemma {:induction false} DigitsOnlyConcat(a: string, b: string)
    ensures DigitsOnly(a + b) == DigitsOnly(a) + DigitsOnly(b)
    decreases |a|
  {
    if |a| > 0 {
      assert (a + b)[1..] == a[1..] + b;
      DigitsOnlyConcat(a[1..], b);
    } else {
      assert a + b == b;
    }
  }

  /** The filter keeps a digit string whole and empties a string without digits. */
  lemma {:induction false} DigitsOnlyExtremes(s: string)
    ensures AllDigits(s) ==> DigitsOnly(s) == s
    ensures (forall i :: 0 <= i < |s| ==> !IsDigit(s[i])) ==> DigitsOnly(s) == ""
    decreases |s|
  {
    if |s| > 0 {
      DigitsOnlyExtremes(s[1..]);
      assert [s[0]] + s[1..] == s;
    }
  }

  /** Decimal rendering without leading zeros (`str(n)`, `n.toString()`). */
  function NatToString(n: nat): (r: string)
    ensures 1 <= |r| && AllDigits(r)
    decreases n
  {
    if n < 10 then [DigitChar(n)] else NatToString(n / 10) + [DigitChar(n % 10)]
  }

  /** The number a digit string denotes (`int(s)`, `parseInt(s)`). */
  function DigitsValue(s: string): nat
    requires AllDigits(s)
    decreases |s|
  {
    if |s| == 0 then 0 else DigitsValue(s[..|s| - 1]) * 10 + DigitValue(s[|s| - 1])
  }

  lemma {:induction false} DigitsValueOfNatToString(n: nat)
    ensures DigitsValue(NatToString(n)) == n
    decreases n
  {
    if n >= 10 {
      var s := NatToString(n);
      assert s[..|s| - 1] == NatToString(n / 10);
      DigitsValueOfNatToString(n / 10);
    }
  }

  lemma NatToStringFirstDigit(n: nat)
    ensures n > 0 ==> NatToString(n)[0] != '0'
    ensures |NatToString(n)| == 1 <==> n < 10
  {
  }

  /** `s.padStart(2, '0')`. */
  function PadStart2(s: string): string {
    if |s| >= 2 then s else if |s| == 1 then "0" + s else "00"
  }

  // ---------------------------------------------------------------------
  // Title casing
  // ---------------------------------------------------------------------

  /** Python's `str.title()`: a letter becomes upper case when the character
      before it is not a letter (Python's "previous character is cased"), and
      lower case otherwise; other characters are kept. */
  function PyTitle(s: string): string {
    seq(|s|, i requires 0 <= i < |s| =>
      if !IsLetter(s[i]) then s[i]
      else if i > 0 && IsLetter(s[i - 1]) then LowerChar(s[i])
      else UpperChar(s[i]))
  }

  /** `word.charAt(0).toUpperCase() + word.slice(1)`. */
  function CapitalizeFirst(word: string): string {
    if |word| == 0 then "" else [UpperChar(word[0])] + word[1..]
  }

  function CapitalizeAll(words: seq<string>): (r: seq<string>)
    ensures |r| == |words|
    decreases |words|
  {
    if |words| == 0 then [] else [CapitalizeFirst(words[0])] + CapitalizeAll(words[1..])
  }

  /** JavaScript `s.split(' ').map(w => w.charAt(0).toUpperCase() + w.slice(1)).join(' ')`. */
  function CapitalizeWords(s: string): string {
    Join(CapitalizeAll(Split(s, ' ')), ' ')
  }

  /** Title casing forgets nothing but case: two lower-case strings with the
      same title-cased form are equal. */
  lemma PyTitleInjectiveOnLowerCase(a: string, b: string)
    requires NoUpper(a) && NoUpper(b)
    requires PyTitle(a) == PyTitle(b)
    ensures a == b
  {
    assert Lower(PyTitle(a)) == a;
    assert Lower(PyTitle(b)) == b;
    LowerOfLowerCase(a);
    LowerOfLowerCase(b);
  }

  /** Title casing restarts after a character that is not a letter. */
  lemma PyTitleSplitAt(x: string, c: char, y: string)
    requires !IsLetter(c)
    ensures PyTitle(x + [c] + y) == PyTitle(x) + [c] + PyTitle(y)
  {
    var s := x + [c] + y;
    forall i | 0 <= i < |s|
      ensures PyTitle(s)[i] == (PyTitle(x) + [c] + PyTitle(y))[i]
    {
      if i > |x| {
        assert s[i] == y[i - |x| - 1];
        if i - 1 > |x| {
          assert s[i - 1] == y[i - |x| - 2];
        }
      } else if i < |x| {
        assert s[i] == x[i];
        if i > 0 { assert s[i - 1] == x[i - 1]; }
      }
    }
  }

  /** Only lower-case ASCII letters and spaces. */
  predicate LowerWords(s: string) {
    forall i :: 0 <= i < |s| ==> IsLowerAscii(s[i]) || s[i] == ' '
  }

  lemma LowerWordsNoUpper(s: string)
    requires LowerWords(s)
    ensures NoUpper(s)
  {
  }

  lemma {:induction false} FirstIndex(s: string, c: char) returns (k: nat)
    requires c in s
    ensures k < |s| && s[k] == c && c !in s[..k]
    decreases |s|
  {
    if s[0] == c {
      k := 0;
    } else {
      var j := FirstIndex(s[1..], c);
      k := j + 1;
      assert s[..k] == [s[0]] + s[1..][..j];
    }
  }

  lemma CapitalizeFirstIsPyTitle(w: string)
    requires forall i :: 0 <= i < |w| ==> IsLowerAscii(w[i])
    ensures CapitalizeFirst(w) == PyTitle(w)
  {
  }

  /** On lower-case words separated by spaces, the page's word
      capitalisation and Python's `title()` agree. */
  lemma {:induction false} CapitalizeWordsIsPyTitle(s: string)
    requires LowerWords(s)
    ensures CapitalizeWords(s) == PyTitle(s)
    decreases |s|
  {
    if ' ' !in s {
      SplitWithoutSep(s, ' ');
      CapitalizeFirstIsPyTitle(s);
      assert CapitalizeAll([s]) == [CapitalizeFirst(s)];
    } else {
      var k := FirstIndex(s, ' ');
      var a, b := s[..k], s[k + 1..];
      assert s == a + [' '] + b;
      assert forall i :: 0 <= i < |a| ==> a[i] == s[i] && a[i] != ' ';
      assert forall i :: 0 <= i < |b| ==> b[i] == s[k + 1 + i];
      SplitPrefix(a, b, ' ');
      CapitalizeWordsIsPyTitle(b);
      CapitalizeFirstIsPyTitle(a);
      var parts := Split(b, ' ');
      var rest := CapitalizeAll(parts);
      calc {
        CapitalizeWords(s);
        Join(CapitalizeAll([a] + parts), ' ');
        { assert ([a] + parts)[1..] == parts; }
        Join([CapitalizeFirst(a)] + rest, ' ');
        { assert ([CapitalizeFirst(a)] + rest)[1..] == rest; }
        CapitalizeFirst(a) + [' '] + Join(rest, ' ');
        PyTitle(a) + [' '] + PyTitle(b);
        { PyTitleSplitAt(a, ' ', b); }
        PyTitle(s);
      }
    }
  }
}
