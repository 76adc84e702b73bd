/** Text forms of a UUID, as the uuid crate reads and writes them. */
module UuidText {
  import opened Basics
  import opened Text

  predicate IsHex(c: char) {
    IsLowerHex(LowerChar(c))
  }

  /** Thirty-two hexadecimal digits in either case. */
  function FromDigits(s: string): (r: Option<Uuid>)
    ensures r.Some? <==> |s| == 32 && forall i :: 0 <= i < |s| ==> IsHex(s[i])
    ensures r.Some? ==> r.value.digits == Lower(s)
  {
    if |s| == 32 && forall i :: 0 <= i < |s| ==> IsHex(s[i]) then Some(Uuid(Lower(s))) else None
  }

  /** Groups of 8, 4, 4, 4 and 12 joined by hyphens. */
  function FromGroups(s: string): Option<Uuid> {
    if |s| == 36 && s[8] == s[13] == s[18] == s[23] == '-'
      then FromDigits(s[..8] + s[9..13] + s[14..18] + s[19..23] + s[24..])
      else None
  }

  const URN := "urn:uuid:"

  /** Uuid::parse_str: plain digits, or hyphenated groups alone, in braces or
      after the URN prefix. */
  function ParseUuid(s: string): Option<Uuid> {
    if |s| == 32 then FromDigits(s)
    else if |s| == 36 then FromGroups(s)
    else if |s| == 38 && s[0] == '{' && s[37] == '}' then FromGroups(s[1..37])
    else if |s| == 45 && s[..9] == URN then FromGroups(s[9..])
    else None
  }

  /** to_string: lower case with hyphens. */
  function ShowUuid(u: Uuid): (s: string)
    ensures |s| == 36
  {
    var d := u.digits;
    d[..8] + "-" + d[8..12] + "-" + d[12..16] + "-" + d[16..20] + "-" + d[20..]
  }

  lemma JoinGroups(d: string)
    requires |d| == 32
    ensures d[..8] + d[8..12] + d[12..16] + d[16..20] + d[20..] == d
  {
  }

  lemma GroupsInPlace(a: string, b: string, c: string, d: string, e: string)
    requires |a| == 8 && |b| == |c| == |d| == 4 && |e| == 12
    ensures var s := a + "-" + b + "-" + c + "-" + d + "-" + e;
      && |s| == 36 && s[8] == s[13] == s[18] == s[23] == '-'
      && s[..8] == a && s[9..13] == b && s[14..18] == c && s[19..23] == d && s[24..] == e
  {
  }

  lemma LowerDigits(d: UuidDigits)
    ensures Lower(d) == d && forall i :: 0 <= i < |d| ==> IsHex(d[i])
  {
    forall i | 0 <= i < |d| ensures LowerChar(d[i]) == d[i] && IsHex(d[i]) {
      assert IsLowerHex(d[i]);
    }
  }

  lemma UuidRoundTrip(u: Uuid)
    ensures ParseUuid(ShowUuid(u)) == Some(u)
  {
    var d := u.digits;
    GroupsInPlace(d[..8], d[8..12], d[12..16], d[16..20], d[20..]);
    JoinGroups(d);
    LowerDigits(d);
  }

  /** The printed form holds only lower-case digits and hyphens. */
  lemma ShownChars(u: Uuid, i: nat)
    requires i < 36
    ensures IsLowerHex(ShowUuid(u)[i]) || ShowUuid(u)[i] == '-'
  {
    var d := u.digits;
    var s := ShowUuid(u);
    assert forall k :: 0 <= k < 32 ==> IsLowerHex(d[k]);
    if i < 8 {
      assert s[i] == d[i];
    } else if 9 <= i < 13 {
      assert s[i] == d[i - 1];
    } else if 14 <= i < 18 {
      assert s[i] == d[i - 2];
    } else if 19 <= i < 23 {
      assert s[i] == d[i - 3];
    } else if 24 <= i {
      assert s[i] == d[i - 4];
    }
  }
}
