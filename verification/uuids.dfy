/**
 * Identifiers. Every primary key of the tracker is a UUID; the core turns one into
 * text with str(uuid) (the access token's "sub" claim) and back with uuid.UUID(text)
 * (get_user_with_roles). This module models both directions as CPython implements
 * them and proves that parsing undoes formatting.
 */
module Uuids {
  import opened Wrappers

  function Pow16(k: nat): (p: nat)
    ensures p > 0
  {
    if k == 0 then 1 else 16 * Pow16(k - 1)
  }

  /** A UUID is a 128-bit integer, that is, one of 32 hex digits. */
  type Uuid = n: nat | n < Pow16(32)

  predicate IsHexChar(ch: char) {
    '0' <= ch <= '9' || 'a' <= ch <= 'f' || 'A' <= ch <= 'F'
  }

  predicate IsLowerHexChar(ch: char) {
    '0' <= ch <= '9' || 'a' <= ch <= 'f'
  }

  predicate AllHex(s: string) {
    forall i :: 0 <= i < |s| ==> IsHexChar(s[i])
  }

  predicate AllLowerHex(s: string) {
    forall i :: 0 <= i < |s| ==> IsLowerHexChar(s[i])
  }

  function HexCharValue(ch: char): (v: nat)
    requires IsHexChar(ch)
    ensures v < 16
  {
    if '0' <= ch <= '9' then ch as int - '0' as int
    else if 'a' <= ch <= 'f' then ch as int - 'a' as int + 10
    else ch as int - 'A' as int + 10
  }

  /** The lower-case digit that '%x' prints for d. */
  function HexDigit(d: nat): (ch: char)
    requires d < 16
    ensures IsLowerHexChar(ch) && HexCharValue(ch) == d
  {
    if d < 10 then ('0' as int + d) as char else ('a' as int + d - 10) as char
  }

  /** '%0<width>x' % n for n below 16^width: the digits of n, most significant first. */
  function ToHex(n: nat, width: nat): (s: string)
    ensures |s| == width && AllLowerHex(s)
  {
    if width == 0 then [] else ToHex(n / 16, width - 1) + [HexDigit(n % 16)]
  }

  /** int(s, 16) for a string of hex digits. */
  function HexValue(s: string): nat
    requires AllHex(s)
  {
    if s == [] then 0 else 16 * HexValue(s[..|s| - 1]) + HexCharValue(s[|s| - 1])
  }

  lemma {:induction false} HexValueBound(s: string)
    requires AllHex(s)
    ensures HexValue(s) < Pow16(|s|)
  {
    if s != [] {
      HexValueBound(s[..|s| - 1]);
    }
  }

  /** Reading back the digits that ToHex prints gives the number again. */
  lemma {:induction false} HexRoundTrip(n: nat, width: nat)
    requires n < Pow16(width)
    ensures AllHex(ToHex(n, width)) && HexValue(ToHex(n, width)) == n
  {
    if width > 0 {
      var q, d := n / 16, n % 16;
      assert n == 16 * q + d && d < 16;
      assert Pow16(width) == 16 * Pow16(width - 1);
      assert q < Pow16(width - 1);
      HexRoundTrip(q, width - 1);
      var s := ToHex(n, width);
      assert s == ToHex(q, width - 1) + [HexDigit(d)];
      assert s[..|s| - 1] == ToHex(q, width - 1);
      assert HexCharValue(s[|s| - 1]) == d;
      assert HexValue(s) == 16 * q + d;
    }
  }

  /** x + "-" + y, the separator str(uuid) puts between digit groups. */
  function Dash(x: string, y: string): string {
    x + "-" + y
  }

  /** str(uuid): 32 lower-case hex digits grouped 8-4-4-4-12 by hyphens. */
  function UuidText(id: Uuid): (s: string)
    ensures |s| == 36
    ensures forall i :: 0 <= i < |s| ==> s[i] == '-' || IsLowerHexChar(s[i])
  {
    var h := ToHex(id, 32);
    Dash(h[..8], Dash(h[8..12], Dash(h[12..16], Dash(h[16..20], h[20..]))))
  }

  /** s.replace(pat, ""): every occurrence of pat, scanning left to right, removed. */
  function RemoveAll(s: string, pat: string): string
    requires |pat| > 0
    decreases |s|
  {
    if |s| < |pat| then s
    else if s[..|pat|] == pat then RemoveAll(s[|pat|..], pat)
    else [s[0]] + RemoveAll(s[1..], pat)
  }

  /** s.strip(chars): leading and trailing characters drawn from chars removed. */
  function StripLeading(s: string, chars: set<char>): string {
    if s != [] && s[0] in chars then StripLeading(s[1..], chars) else s
  }

  function StripTrailing(s: string, chars: set<char>): string {
    if s != [] && s[|s| - 1] in chars then StripTrailing(s[..|s| - 1], chars) else s
  }

  function Strip(s: string, chars: set<char>): string {
    StripTrailing(StripLeading(s, chars), chars)
  }

  /** s.replace(ch, "") for a single character. */
  function Without(s: string, ch: char): (r: string)
    ensures ch !in r
  {
    if s == [] then [] else (if s[0] == ch then [] else [s[0]]) + Without(s[1..], ch)
  }

  /** What uuid.UUID(hex=s) keeps of s before it counts and converts the digits. */
  function Cleaned(s: string): string {
    Without(Strip(RemoveAll(RemoveAll(s, "urn:"), "uuid:"), {'{', '}'}), '-')
  }

  /** The two ValueErrors uuid.UUID raises on a malformed string. */
  datatype UuidError =
    | BadlyFormedHex     // 'badly formed hexadecimal UUID string': not 32 characters
    | InvalidHexLiteral  // int(hex, 16) refuses one of the 32 characters

  /** uuid.UUID(s). */
  function ParseUuid(s: string): (r: Result<Uuid, UuidError>)
    ensures r.Success? <==> |Cleaned(s)| == 32 && AllHex(Cleaned(s))
    ensures r.Success? ==> HexValue(Cleaned(s)) == r.value
    ensures r.Failure? && |Cleaned(s)| != 32 ==> r.error == BadlyFormedHex
  {
    var hex := Cleaned(s);
    if |hex| != 32 then Failure(BadlyFormedHex)
    else if !AllHex(hex) then Failure(InvalidHexLiteral)
    else
      HexValueBound(hex);
      Success(HexValue(hex))
  }

  lemma {:induction false} RemoveAllAbsent(s: string, pat: string)
    requires |pat| > 0 && pat[|pat| - 1] !in s
    ensures RemoveAll(s, pat) == s
    decreases |s|
  {
    if |s| >= |pat| {
      assert s[|pat| - 1] in s;
      assert s[..|pat|][|pat| - 1] != pat[|pat| - 1];
      RemoveAllAbsent(s[1..], pat);
      assert [s[0]] + s[1..] == s;
    }
  }

  lemma {:induction false} WithoutAppend(a: string, b: string, ch: char)
    ensures Without(a + b, ch) == Without(a, ch) + Without(b, ch)
  {
    if a == [] {
      assert a + b == b;
    } else {
      assert (a + b)[1..] == a[1..] + b;
      WithoutAppend(a[1..], b, ch);
    }
  }

  lemma {:induction false} WithoutAbsent(s: string, ch: char)
    requires ch !in s
    ensures Without(s, ch) == s
  {
    if s != [] {
      WithoutAbsent(s[1..], ch);
      assert [s[0]] + s[1..] == s;
    }
  }

  lemma NoSeparatorInDigits(x: string)
    requires AllLowerHex(x)
    ensures '-' !in x && ':' !in x && '{' !in x && '}' !in x
  {
  }

  lemma WithoutDash(x: string, y: string)
    requires AllLowerHex(x)
    ensures Without(Dash(x, y), '-') == x + Without(y, '-')
  {
    var left := Without(x + "-", '-');
    NoSeparatorInDigits(x);
    WithoutAbsent(x, '-');
    WithoutAppend(x, "-", '-');
    assert left == x;
    WithoutAppend(x + "-", y, '-');
  }

  lemma LowerHexSlice(h: string, i: nat, j: nat)
    requires AllLowerHex(h) && i <= j <= |h|
    ensures AllLowerHex(h[i..j])
  {
  }

  lemma SliceJoin(h: string, i: nat, j: nat)
    requires i <= j <= |h|
    ensures h[i..j] + h[j..] == h[i..]
  {
  }

  /** Removing the hyphens of str(uuid) leaves the 32 digits of the number. */
  lemma DigitsOfUuidText(id: Uuid)
    ensures Without(UuidText(id), '-') == ToHex(id, 32)
  {
    var h := ToHex(id, 32);
    LowerHexSlice(h, 0, 8);
    LowerHexSlice(h, 8, 12);
    LowerHexSlice(h, 12, 16);
    LowerHexSlice(h, 16, 20);
    LowerHexSlice(h, 20, 32);
    assert h[20..32] == h[20..];
    NoSeparatorInDigits(h[20..]);
    WithoutAbsent(h[20..], '-');
    var e := Dash(h[16..20], h[20..]);
    WithoutDash(h[16..20], h[20..]);
    SliceJoin(h, 16, 20);
    var d := Dash(h[12..16], e);
    WithoutDash(h[12..16], e);
    SliceJoin(h, 12, 16);
    var c := Dash(h[8..12], d);
    WithoutDash(h[8..12], d);
    SliceJoin(h, 8, 12);
    WithoutDash(h[..8], c);
    assert h[..8] == h[0..8];
    SliceJoin(h, 0, 8);
    assert h[0..] == h;
  }

  lemma NoSeparatorInUuidText(id: Uuid)
    ensures ':' !in UuidText(id) && '{' !in UuidText(id) && '}' !in UuidText(id)
  {
  }

  /** uuid.UUID(str(u)) == u: the identifier text that the core emits parses back. */
  lemma ParseUuidText(id: Uuid)
    ensures ParseUuid(UuidText(id)) == Success(id)
  {
    var s := UuidText(id);
    NoSeparatorInUuidText(id);
    RemoveAllAbsent(s, "urn:");
    RemoveAllAbsent(s, "uuid:");
    assert s[0] == '-' || IsLowerHexChar(s[0]);
    assert s[|s| - 1] == '-' || IsLowerHexChar(s[|s| - 1]);
    assert StripLeading(s, {'{', '}'}) == s;
    assert StripTrailing(s, {'{', '}'}) == s;
    DigitsOfUuidText(id);
    assert Cleaned(s) == ToHex(id, 32);
    HexRoundTrip(id, 32);
  }

  /** Two identifiers with the same text are the same identifier. */
  lemma UuidTextInjective(a: Uuid, b: Uuid)
    requires UuidText(a) == UuidText(b)
    ensures a == b
  {
    ParseUuidText(a);
    ParseUuidText(b);
  }

  /** The braced spelling "{...}" of a UUID is accepted as well. */
  lemma ParseBracedUuid(id: Uuid)
    ensures ParseUuid("{" + UuidText(id) + "}") == Success(id)
  {
    var s := UuidText(id);
    var braced := "{" + s + "}";
    NoSeparatorInUuidText(id);
    assert ':' !in braced;
    RemoveAllAbsent(braced, "urn:");
    RemoveAllAbsent(braced, "uuid:");
    assert braced[1..] == s + "}";
    assert s[0] == '-' || IsLowerHexChar(s[0]);
    assert StripLeading(braced, {'{', '}'}) == s + "}";
    assert (s + "}")[..|s|] == s;
    assert s[|s| - 1] == '-' || IsLowerHexChar(s[|s| - 1]);
    assert StripTrailing(s + "}", {'{', '}'}) == s;
    DigitsOfUuidText(id);
    assert Cleaned(braced) == ToHex(id, 32);
    HexRoundTrip(id, 32);
  }
}
