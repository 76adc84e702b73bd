/** Text as the code's string operations see it. A text is the sequence of its
    UTF-8 bytes, one char per byte; everything here looks at ASCII only. */
module Text {
  import opened Basics

  function LowerChar(c: char): char {
    if 'A' <= c <= 'Z' then c + 32 as char else c
  }

  function UpperChar(c: char): char {
    if 'a' <= c <= 'z' then c - 32 as char else c
  }

  /** to_ascii_lowercase. */
  function Lower(s: string): (r: string)
    ensures |r| == |s| && forall i :: 0 <= i < |s| ==> r[i] == LowerChar(s[i])
  {
    seq(|s|, i requires 0 <= i < |s| => LowerChar(s[i]))
  }

  /** to_ascii_uppercase. */
  function Upper(s: string): (r: string)
    ensures |r| == |s| && forall i :: 0 <= i < |s| ==> r[i] == UpperChar(s[i])
  {
    seq(|s|, i requires 0 <= i < |s| => UpperChar(s[i]))
  }

  /** eq_ignore_ascii_case. */
  predicate EqIgnoreCase(a: string, b: string) {
    Lower(a) == Lower(b)
  }

  predicate IsSpace(c: char) {
    c == ' ' || '\t' <= c <= '\r'
  }

  function TrimStart(s: string): string {
    if s != [] && IsSpace(s[0]) then TrimStart(s[1..]) else s
  }

  function TrimEnd(s: string): string {
    if s != [] && IsSpace(s[|s| - 1]) then TrimEnd(s[..|s| - 1]) else s
  }

  function Trim(s: string): string {
    TrimEnd(TrimStart(s))
  }

  predicate Blank(s: string) {
    Trim(s) == ""
  }

  /** A text that trimming leaves alone. */
  predicate Trimmed(s: string) {
    s == "" || (!IsSpace(s[0]) && !IsSpace(s[|s| - 1]))
  }

  lemma TrimmedStays(s: string)
    requires Trimmed(s)
    ensures TrimStart(s) == TrimEnd(s) == Trim(s) == s
  {
  }

  /** Trimming the end stops at a char that is not white space. */
  lemma {:induction false} TrimEndAfter(a: string, b: string)
    requires a != "" && !IsSpace(a[|a| - 1])
    ensures TrimEnd(a + b) == a + TrimEnd(b)
  {
    if b != "" && IsSpace(b[|b| - 1]) {
      assert (a + b)[..|a + b| - 1] == a + b[..|b| - 1];
      TrimEndAfter(a, b[..|b| - 1]);
    } else if b == "" {
      assert a + b == a;
    }
  }

  lemma {:induction false} TrimEndSpaces(s: string, spaces: string)
    requires forall i :: 0 <= i < |spaces| ==> IsSpace(spaces[i])
    ensures TrimEnd(s + spaces) == TrimEnd(s)
  {
    if spaces == "" {
      assert s + spaces == s;
    } else {
      assert (s + spaces)[..|s + spaces| - 1] == s + spaces[..|spaces| - 1];
      TrimEndSpaces(s, spaces[..|spaces| - 1]);
    }
  }

  /** Dropping one trailing space does not change what trimming leaves. */
  lemma {:induction false} TrimDropsLast(s: string, c: char)
    requires IsSpace(c)
    ensures Trim(s + [c]) == Trim(s)
  {
    if s == "" {
      assert s + [c] == [c] && [c][1..] == "";
    } else if IsSpace(s[0]) {
      assert (s + [c])[1..] == s[1..] + [c];
      TrimDropsLast(s[1..], c);
    } else {
      assert (s + [c])[..|s|] == s;
    }
  }

  lemma {:induction false} TrimAfterTrimEnd(s: string)
    ensures Trim(TrimEnd(s)) == Trim(s)
  {
    if s != "" && IsSpace(s[|s| - 1]) {
      TrimAfterTrimEnd(s[..|s| - 1]);
      TrimDropsLast(s[..|s| - 1], s[|s| - 1]);
      assert s[..|s| - 1] + [s[|s| - 1]] == s;
    }
  }

  lemma {:induction false} TrimEndKeepsStart(s: string)
    requires s != "" && !IsSpace(s[0])
    ensures TrimEnd(s) != ""
  {
    if IsSpace(s[|s| - 1]) {
      TrimEndKeepsStart(s[..|s| - 1]);
    }
  }

  lemma NotBlank(s: string)
    requires s != "" && !IsSpace(s[0])
    ensures !Blank(s)
  {
    TrimEndKeepsStart(s);
  }

  /** Every character is white space. */
  predicate AllSpaces(s: string) {
    forall i :: 0 <= i < |s| ==> IsSpace(s[i])
  }

  lemma {:induction false} TrimStartParts(s: string) returns (before: string)
    ensures AllSpaces(before) && s == before + TrimStart(s)
    ensures TrimStart(s) == "" || !IsSpace(TrimStart(s)[0])
  {
    before := "";
    if s != "" && IsSpace(s[0]) {
      var rest := TrimStartParts(s[1..]);
      before := [s[0]] + rest;
    }
  }

  lemma {:induction false} TrimEndParts(s: string) returns (after: string)
    ensures AllSpaces(after) && s == TrimEnd(s) + after
    ensures TrimEnd(s) == "" || !IsSpace(TrimEnd(s)[|TrimEnd(s)| - 1])
  {
    after := "";
    if s != "" && IsSpace(s[|s| - 1]) {
      var rest := TrimEndParts(s[..|s| - 1]);
      after := rest + [s[|s| - 1]];
    }
  }

  /** Trimming takes white space off both ends, and all of it. */
  lemma TrimParts(s: string) returns (before: string, after: string)
    ensures AllSpaces(before) && AllSpaces(after)
    ensures s == before + Trim(s) + after && Trimmed(Trim(s))
  {
    before := TrimStartParts(s);
    after := TrimEndParts(TrimStart(s));
    hide TrimStart, TrimEnd;
    assert Trim(s) != "" ==> Trim(s)[0] == TrimStart(s)[0];
  }

  /** A text is blank exactly when it has nothing but white space. */
  lemma BlankExactly(s: string)
    ensures Blank(s) <==> AllSpaces(s)
  {
    var before, after := TrimParts(s);
    hide TrimStart, TrimEnd, Trim;
    if Trim(s) != "" {
      assert s[|before|] == Trim(s)[0];
    } else {
      assert s == before + after;
    }
  }

  predicate Contains(s: string, c: char) {
    exists i :: 0 <= i < |s| && s[i] == c
  }

  /** The first position of a char. */
  function Find(s: string, c: char): (r: Option<nat>)
    ensures r.Some? ==> r.value < |s| && s[r.value] == c && forall i :: 0 <= i < r.value ==> s[i] != c
    ensures r.None? ==> !Contains(s, c)
  {
    if s == [] then None
    else if s[0] == c then Some(0)
    else
      match Find(s[1..], c)
      case Some(i) => Some(i + 1)
      case None => assert forall i :: 0 < i < |s| ==> s[i] == s[1..][i - 1]; None
  }

  lemma FindIn(a: string, c: char, b: string)
    requires !Contains(a, c)
    ensures Find(a + [c] + b, c) == Some(|a|)
  {
    var s := a + [c] + b;
    assert s[|a|] == c;
    forall i | 0 <= i < |a| ensures s[i] != c {
      assert s[i] == a[i];
    }
  }

  /** split_once. */
  function SplitOnce(s: string, c: char): Option<(string, string)> {
    match Find(s, c)
    case None => None
    case Some(i) => Some((s[..i], s[i + 1..]))
  }

  lemma SplitOnceIn(a: string, c: char, b: string)
    requires !Contains(a, c)
    ensures SplitOnce(a + [c] + b, c) == Some((a, b))
  {
    FindIn(a, c, b);
    var s := a + [c] + b;
    assert s[..|a|] == a && s[|a| + 1..] == b;
  }

  /** str::contains. */
  predicate Mentions(s: string, part: string) {
    exists i :: 0 <= i <= |s| && MentionsAt(s, part, i)
  }

  predicate MentionsAt(s: string, part: string, i: int) {
    0 <= i <= |s| - |part| && s[i..i + |part|] == part
  }

  // ----- decimal numbers -----

  const USIZE_MAX: nat := 0xFFFF_FFFF_FFFF_FFFF

  predicate IsDigit(c: char) {
    '0' <= c <= '9'
  }

  function DigitValue(c: char): nat
    requires IsDigit(c)
  {
    (c - '0') as nat
  }

  function DigitChar(d: nat): (c: char)
    requires d < 10
    ensures IsDigit(c) && DigitValue(c) == d
  {
    '0' + d as char
  }

  predicate AllDigits(s: string) {
    forall i :: 0 <= i < |s| ==> IsDigit(s[i])
  }

  function DigitsValue(s: string): nat
    requires AllDigits(s)
  {
    if s == [] then 0 else 10 * DigitsValue(s[..|s| - 1]) + DigitValue(s[|s| - 1])
  }

  /** Display of an unsigned number. */
  function ShowNat(n: nat): (s: string)
    ensures s != "" && AllDigits(s) && DigitsValue(s) == n
  {
    if n < 10 then [DigitChar(n)]
    else
      var s := ShowNat(n / 10) + [DigitChar(n % 10)];
      assert s[..|s| - 1] == ShowNat(n / 10);
      s
  }

  /** str::parse::<usize>: an optional plus sign, then one or more digits, within
      64 bits. */
  function ParseUsize(s: string): Option<nat> {
    var digits := if s != "" && s[0] == '+' then s[1..] else s;
    if digits == "" || !AllDigits(digits) || DigitsValue(digits) > USIZE_MAX then None
    else Some(DigitsValue(digits))
  }

  lemma ParseShown(n: nat)
    requires n <= USIZE_MAX
    ensures ParseUsize(ShowNat(n)) == Some(n)
  {
    assert IsDigit(ShowNat(n)[0]);
  }

  /** Two digits, zero padded. */
  function Pad2(n: nat): (s: string)
    requires n < 100
    ensures |s| == 2 && AllDigits(s)
  {
    [DigitChar(n / 10), DigitChar(n % 10)]
  }

  function Pad4(n: nat): (s: string)
    requires n < 10000
    ensures |s| == 4 && AllDigits(s)
  {
    Pad2(n / 100) + Pad2(n % 100)
  }

  lemma Pad2Value(n: nat)
    requires n < 100
    ensures DigitsValue(Pad2(n)) == n
  {
    var s := Pad2(n);
    assert s[..1] == [s[0]] && DigitsValue([s[0]][..0]) == 0;
    assert DigitsValue([s[0]]) == n / 10;
  }

  lemma ShiftDigit(a: nat, p: nat, b: nat, d: nat)
    ensures 10 * (a * p + b) + d == a * (10 * p) + (10 * b + d)
  {
  }

  lemma {:induction false} DigitsValueConcat(a: string, b: string)
    requires AllDigits(a) && AllDigits(b)
    ensures AllDigits(a + b)
    ensures DigitsValue(a + b) == DigitsValue(a) * Pow10(|b|) + DigitsValue(b)
  {
    if b == [] {
      assert a + b == a;
    } else {
      var n := |b| - 1;
      var shorter := a + b[..n];
      assert (a + b)[..|a + b| - 1] == shorter;
      DigitsValueConcat(a, b[..n]);
      ShiftDigit(DigitsValue(a), Pow10(n), DigitsValue(b[..n]), DigitValue(b[n]));
    }
  }

  function Pow10(n: nat): nat {
    if n == 0 then 1 else 10 * Pow10(n - 1)
  }

  lemma PowersOfTen()
    ensures Pow10(2) == 100 && Pow10(4) == 10000 && Pow10(6) == 1_000_000 && Pow10(9) == 1_000_000_000
  {
    assert Pow10(3) == 1000 && Pow10(4) == 10 * Pow10(3);
    assert Pow10(6) == 1000 * Pow10(3);
    assert Pow10(9) == 1000 * Pow10(6);
  }

  lemma Pad4Value(n: nat)
    requires n < 10000
    ensures DigitsValue(Pad4(n)) == n
  {
    hide Pad2, DigitsValue, Pow10;
    PowersOfTen();
    Pad2Value(n / 100);
    Pad2Value(n % 100);
    DigitsValueConcat(Pad2(n / 100), Pad2(n % 100));
  }

  /** How many leading characters are digits, looking at no more than max. */
  function DigitRun(s: string, max: nat): (k: nat)
    ensures k <= max && k <= |s| && AllDigits(s[..k])
  {
    if max == 0 || s == "" || !IsDigit(s[0]) then 0
    else
      var k := 1 + DigitRun(s[1..], max - 1);
      assert forall i :: 0 < i < k ==> s[..k][i] == s[1..][..k - 1][i - 1];
      k
  }

  lemma {:induction false} DigitRunStops(a: string, b: string, max: nat)
    requires AllDigits(a) && |a| <= max
    requires |a| == max || b == "" || !IsDigit(b[0])
    ensures DigitRun(a + b, max) == |a|
  {
    if a == "" {
      assert a + b == b;
    } else {
      assert (a + b)[1..] == a[1..] + b;
      DigitRunStops(a[1..], b, max - 1);
    }
  }

  lemma {:induction false} DigitsBound(s: string)
    requires AllDigits(s)
    ensures DigitsValue(s) < Pow10(|s|)
    ensures |s| == 9 ==> DigitsValue(s) < 1_000_000_000
  {
    if s != "" {
      DigitsBound(s[..|s| - 1]);
    }
    PowersOfTen();
  }
}
