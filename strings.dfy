/** The few string operations the reports use, on strings as sequences of characters. */
module Strings {
  import opened Wrappers

  /** `sep.join(parts)`. */
  function Join(sep: string, parts: seq<string>): string
    decreases |parts|
  {
    if |parts| == 0 then ""
    else if |parts| == 1 then parts[0]
    else parts[0] + sep + Join(sep, parts[1..])
  }

  /** The last position of `c` in `s`, if any (`s.rfind(c)`). */
  function LastIndexOf(s: string, c: char): (r: Option<nat>)
    ensures r.Some? ==> r.value < |s| && s[r.value] == c && forall j :: r.value < j < |s| ==> s[j] != c
    ensures r.None? ==> forall j :: 0 <= j < |s| ==> s[j] != c
    decreases |s|
  {
    if |s| == 0 then None
    else if s[|s| - 1] == c then Some(|s| - 1)
    else LastIndexOf(s[..|s| - 1], c)
  }

  /** ASCII lower case; other characters are kept. */
  function LowerChar(c: char): char {
    if 'A' <= c <= 'Z' then (c as int + 32) as char else c
  }

  function Lower(s: string): (r: string)
    ensures |r| == |s| && forall i :: 0 <= i < |s| ==> r[i] == LowerChar(s[i])
  {
    seq(|s|, i requires 0 <= i < |s| => LowerChar(s[i]))
  }

  /** Lower-casing twice is lower-casing once. */
  lemma LowerIdempotent(s: string)
    ensures Lower(Lower(s)) == Lower(s)
  {
  }

  // Whitespace

  /** Whitespace as `str.strip()` sees it among ASCII characters: space, tab, line feed, vertical
      tab, form feed, carriage return and the separators 0x1C to 0x1F. */
  predicate IsSpace(c: char) {
    c == ' ' || 9 <= c as int <= 13 || 28 <= c as int <= 31
  }

  /** `s.lstrip()`: the suffix left after the leading whitespace. */
  function StripStart(s: string): (r: string)
    ensures |r| <= |s| && r == s[|s| - |r|..]
    ensures forall i :: 0 <= i < |s| - |r| ==> IsSpace(s[i])
    ensures r != [] ==> !IsSpace(r[0])
    decreases |s|
  {
    if |s| > 0 && IsSpace(s[0]) then StripStart(s[1..]) else s
  }

  /** `s.rstrip()`: the prefix left before the trailing whitespace. */
  function StripEnd(s: string): (r: string)
    ensures |r| <= |s| && r == s[..|r|]
    ensures forall i :: |r| <= i < |s| ==> IsSpace(s[i])
    ensures r != [] ==> !IsSpace(r[|r| - 1])
    decreases |s|
  {
    if |s| > 0 && IsSpace(s[|s| - 1]) then StripEnd(s[..|s| - 1]) else s
  }

  /** `s.strip()`. */
  function Strip(s: string): string {
    StripEnd(StripStart(s))
  }

  /** The stripped text is a slice of the original that neither starts nor ends with whitespace,
      and everything around it is whitespace. */
  lemma StripSlice(s: string)
    ensures exists i, j :: (0 <= i <= j <= |s| && Strip(s) == s[i..j]
      && (forall k :: 0 <= k < i ==> IsSpace(s[k])) && (forall k :: j <= k < |s| ==> IsSpace(s[k])))
    ensures Strip(s) != "" ==> !IsSpace(Strip(s)[0]) && !IsSpace(Strip(s)[|Strip(s)| - 1])
  {
    var t := StripStart(s);
    var i := |s| - |t|;
    var r := StripEnd(t);
    assert r == s[i..i + |r|];
    forall k | i + |r| <= k < |s| ensures IsSpace(s[k]) {
      assert s[k] == t[k - i];
    }
  }

  /** The stripped text is empty exactly when the original is all whitespace. */
  lemma StripBlank(s: string)
    ensures Strip(s) == "" <==> forall k :: 0 <= k < |s| ==> IsSpace(s[k])
  {
    StripSlice(s);
  }

  /** Stripping twice is stripping once. */
  lemma StripIdempotent(s: string)
    ensures Strip(Strip(s)) == Strip(s)
  {
    var x := Strip(s);
    if x != "" {
      var t := StripStart(s);
      assert x == t[..|x|] && x[0] == t[0];
      assert StripStart(x) == x;
    }
  }

  /** `s.rstrip(chars)`: the prefix left after removing trailing characters of `chars`. */
  function StripEndOf(s: string, chars: set<char>): (r: string)
    ensures |r| <= |s| && r == s[..|r|]
    ensures forall i :: |r| <= i < |s| ==> s[i] in chars
    ensures r != [] ==> r[|r| - 1] !in chars
    decreases |s|
  {
    if |s| > 0 && s[|s| - 1] in chars then StripEndOf(s[..|s| - 1], chars) else s
  }

  // Substrings

  /** Whether `pat` occurs in `s` starting at `i`. */
  predicate OccursAt(s: string, pat: string, i: int) {
    0 <= i && i + |pat| <= |s| && s[i..i + |pat|] == pat
  }

  predicate Contains(s: string, pat: string) {
    exists i :: 0 <= i <= |s| && OccursAt(s, pat, i)
  }

  /** An occurrence in a prefix or suffix is an occurrence in the whole string. */
  lemma OccursAtShift(s: string, pat: string, d: nat, i: int)
    requires d <= |s|
    ensures OccursAt(s[d..], pat, i) <==> (i >= 0 && OccursAt(s, pat, i + d))
  {
    if i >= 0 && i + |pat| <= |s| - d {
      assert s[d..][i..i + |pat|] == s[i + d..i + d + |pat|];
    }
  }

  /** `s.find(pat)`: the first occurrence of a non-empty pattern, if any. */
  function Find(s: string, pat: string): (r: Option<nat>)
    requires |pat| > 0
    ensures r.Some? ==> OccursAt(s, pat, r.value) && forall j :: 0 <= j < r.value ==> !OccursAt(s, pat, j)
    ensures r.None? ==> !Contains(s, pat)
    decreases |s|
  {
    if |s| < |pat| then None
    else if s[..|pat|] == pat then Some(0)
    else
      var rest := Find(s[1..], pat);
      FindStep(s, pat, rest);
      match rest
      case None => None
      case Some(i) => Some(i + 1)
  }

  lemma FindStep(s: string, pat: string, rest: Option<nat>)
    requires |pat| > 0 && |s| >= |pat| && s[..|pat|] != pat
    requires rest.Some? ==> OccursAt(s[1..], pat, rest.value) && forall j :: 0 <= j < rest.value ==> !OccursAt(s[1..], pat, j)
    requires rest.None? ==> !Contains(s[1..], pat)
    ensures rest.Some? ==> OccursAt(s, pat, rest.value + 1) && forall j :: 0 <= j < rest.value + 1 ==> !OccursAt(s, pat, j)
    ensures rest.None? ==> !Contains(s, pat)
  {
    assert !OccursAt(s, pat, 0);
    forall j | 0 < j
      ensures OccursAt(s, pat, j) <==> OccursAt(s[1..], pat, j - 1)
    {
      OccursAtShift(s, pat, 1, j - 1);
    }
  }

  /** A prefix that ends before the first occurrence contains none. */
  lemma PrefixBeforeFirst(s: string, pat: string, i: nat)
    requires |pat| > 0 && i <= |s| && forall j :: 0 <= j < i ==> !OccursAt(s, pat, j)
    ensures !Contains(s[..i], pat)
  {
    forall j | OccursAt(s[..i], pat, j) ensures false {
      assert s[..i][j..j + |pat|] == s[j..j + |pat|];
      assert OccursAt(s, pat, j);
    }
  }

  /** `s.split(pat)` for a non-empty pattern: the pieces between the occurrences, found from the
      left without overlap. No piece contains the pattern, and joining them with it gives `s` back. */
  function SplitOn(s: string, pat: string): (r: seq<string>)
    requires |pat| > 0
    ensures |r| >= 1
    ensures forall k :: 0 <= k < |r| ==> !Contains(r[k], pat)
    ensures Join(pat, r) == s
    decreases |s|
  {
    match Find(s, pat)
    case None => [s]
    case Some(i) =>
      PrefixBeforeFirst(s, pat, i);
      var rest := SplitOn(s[i + |pat|..], pat);
      assert ([s[..i]] + rest)[1..] == rest;
      assert s == s[..i] + pat + s[i + |pat|..];
      [s[..i]] + rest
  }

  /** `s.replace(pat, rep)` for a non-empty pattern, scanning from the left: the pieces of `s`
      between the occurrences of `pat`, joined with `rep`. */
  function Replace(s: string, pat: string, rep: string): (r: string)
    requires |pat| > 0
    ensures r == Join(rep, SplitOn(s, pat))
    decreases |s|
  {
    match Find(s, pat)
    case None => s
    case Some(i) =>
      var rest := SplitOn(s[i + |pat|..], pat);
      assert SplitOn(s, pat) == [s[..i]] + rest;
      assert ([s[..i]] + rest)[1..] == rest;
      s[..i] + rep + Replace(s[i + |pat|..], pat, rep)
  }

  /** Replacing a pattern that does not occur, or replacing a pattern by itself, changes nothing. */
  lemma ReplaceIdentity(s: string, pat: string, rep: string)
    requires |pat| > 0
    ensures !Contains(s, pat) ==> Replace(s, pat, rep) == s
    ensures Replace(s, pat, pat) == s
  {
  }

  /** The number of times `c` occurs in `s`. */
  function CountChar(s: string, c: char): nat
    decreases |s|
  {
    if |s| == 0 then 0 else CountChar(s[..|s| - 1], c) + (if s[|s| - 1] == c then 1 else 0)
  }

  lemma {:induction false} CountCharAppend(a: string, b: string, c: char)
    ensures CountChar(a + b, c) == CountChar(a, c) + CountChar(b, c)
    decreases |b|
  {
    if |b| > 0 {
      assert (a + b)[..|a + b| - 1] == a + b[..|b| - 1];
      CountCharAppend(a, b[..|b| - 1], c);
    } else {
      assert a + b == a;
    }
  }

  lemma {:induction false} CountCharAbsent(s: string, c: char)
    requires !Contains(s, [c])
    ensures CountChar(s, c) == 0
    decreases |s|
  {
    if |s| > 0 {
      assert s[|s| - 1..|s|] == [s[|s| - 1]];
      assert !OccursAt(s, [c], |s| - 1);
      PrefixBeforeFirst(s, [c], |s| - 1);
      CountCharAbsent(s[..|s| - 1], c);
    }
  }

  /** Splitting on one character gives one piece more than there are occurrences of it. */
  lemma {:induction false} SplitOnCharCount(s: string, c: char)
    ensures |SplitOn(s, [c])| == CountChar(s, c) + 1
    decreases |s|
  {
    match Find(s, [c])
    case None =>
      CountCharAbsent(s, c);
    case Some(i) =>
      PrefixBeforeFirst(s, [c], i);
      CountCharAbsent(s[..i], c);
      SplitOnCharCount(s[i + 1..], c);
      assert s == s[..i] + [c] + s[i + 1..];
      CountCharAppend(s[..i] + [c], s[i + 1..], c);
      CountCharAppend(s[..i], [c], c);
      assert CountChar([c], c) == 1 by {
        var one: string := [c];
        assert one[..0] == [];
      }
  }

  // Numbers

  function DigitChar(d: int): char
    requires 0 <= d < 10
  {
    ('0' as int + d) as char
  }

  predicate IsDigits(s: string) {
    forall i :: 0 <= i < |s| ==> '0' <= s[i] <= '9'
  }

  /** `str(n)` for a natural number: its decimal digits, without leading zeros. */
  function NatToString(n: nat): (r: string)
    ensures |r| >= 1 && IsDigits(r)
    ensures |r| > 1 ==> r[0] != '0'
  {
    if n < 10 then [DigitChar(n)] else NatToString(n / 10) + [DigitChar(n % 10)]
  }

  /** `str(i)` for an integer: a minus sign before the digits of a negative number. */
  function IntToString(i: int): string {
    if i < 0 then "-" + NatToString(-i) else NatToString(i)
  }

  /** The value of a string of decimal digits. */
  function ParseNat(s: string): nat
    requires IsDigits(s)
    decreases |s|
  {
    if |s| == 0 then 0 else ParseNat(s[..|s| - 1]) * 10 + (s[|s| - 1] as int - '0' as int)
  }

  /** `int(s)` for what `IntToString` writes. */
  function ParseInt(s: string): int {
    if |s| > 0 && s[0] == '-' && IsDigits(s[1..]) then -(ParseNat(s[1..]) as int)
    else if IsDigits(s) then ParseNat(s)
    else 0
  }

  lemma {:induction false} ParseNatToString(n: nat)
    ensures ParseNat(NatToString(n)) == n
  {
    if n >= 10 {
      var r := NatToString(n);
      assert r[..|r| - 1] == NatToString(n / 10);
      ParseNatToString(n / 10);
    }
  }

  /** Reading back what `IntToString` writes gives the integer again, so distinct integers are
      written differently. */
  lemma IntToStringRoundTrip(i: int)
    ensures ParseInt(IntToString(i)) == i
  {
    if i < 0 {
      ParseNatToString(-i);
      assert ("-" + NatToString(-i))[1..] == NatToString(-i);
    } else {
      ParseNatToString(i);
    }
  }
}
