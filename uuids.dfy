/** Identifiers and the text encodings the repository applies to them:
    the hexadecimal form used for file hashes, the canonical UUID string used as
    a blob-store key, and the unpadded base64 used in webhook bot user names. */
module Uuids {

  /** An octet. */
  type Byte = b: int | 0 <= b < 256

  /** A UUID is sixteen octets, as in the Go uuid package. */
  type Uuid = s: seq<Byte> | |s| == 16 witness [0, 0, 0, 0, 0, 0, 0, 0, 0, 0, 0, 0, 0, 0, 0, 0]

  /** The all-zero UUID (uuid.Nil): "no id", and the wildcard subject of a file ACL. */
  const Nil: Uuid := [0, 0, 0, 0, 0, 0, 0, 0, 0, 0, 0, 0, 0, 0, 0, 0]

  /** The lower-case hexadecimal digit for a nibble. */
  function HexDigit(n: int): (c: char)
    requires 0 <= n < 16
    ensures ('0' <= c <= '9') || ('a' <= c <= 'f')
  {
    if n < 10 then ('0' as int + n) as char else ('a' as int + n - 10) as char
  }

  lemma HexDigitInjective(m: int, n: int)
    requires 0 <= m < 16 && 0 <= n < 16
    requires HexDigit(m) == HexDigit(n)
    ensures m == n
  {
    assert HexDigit(m) as int == HexDigit(n) as int;
  }

  /** hex.EncodeToString: two lower-case digits per octet, high nibble first. */
  function HexEncode(bs: seq<Byte>): (s: string)
    ensures |s| == 2 * |bs|
    ensures forall i :: 0 <= i < |s| ==> ('0' <= s[i] <= '9') || ('a' <= s[i] <= 'f')
  {
    seq(2 * |bs|, i requires 0 <= i < 2 * |bs| =>
      if i % 2 == 0 then HexDigit(bs[i / 2] / 16) else HexDigit(bs[i / 2] % 16))
  }

  /** Distinct octet strings have distinct hexadecimal forms, so a hash string
      determines the digest it was made from. */
  lemma HexEncodeInjective(a: seq<Byte>, b: seq<Byte>)
    requires HexEncode(a) == HexEncode(b)
    ensures a == b
  {
    var ea, eb := HexEncode(a), HexEncode(b);
    forall k | 0 <= k < |a| ensures a[k] == b[k] {
      assert ea[2 * k] == eb[2 * k] && ea[2 * k + 1] == eb[2 * k + 1];
      HexDigitInjective(a[k] / 16, b[k] / 16);
      HexDigitInjective(a[k] % 16, b[k] % 16);
    }
  }

  /** Two strings joined by a dash. */
  function Dash(a: string, b: string): (s: string)
    ensures |s| == |a| + 1 + |b| && s[|a|] == '-'
  {
    a + "-" + b
  }

  /** A dash join with a known left length splits back into its parts. */
  lemma DashInjective(a: string, b: string, c: string, d: string)
    requires |a| == |c| && Dash(a, b) == Dash(c, d)
    ensures a == c && b == d
  {
    assert a == Dash(a, b)[..|a|] && c == Dash(c, d)[..|c|];
    assert b == Dash(a, b)[|a| + 1..] && d == Dash(c, d)[|c| + 1..];
  }

  /** uuid.UUID.String: 8-4-4-4-12 lower-case hexadecimal groups joined by '-'. */
  function UuidString(u: Uuid): (s: string)
    ensures |s| == 36
    ensures s[8] == '-' && s[13] == '-' && s[18] == '-' && s[23] == '-'
  {
    Dash(HexEncode(u[..4]), Dash(HexEncode(u[4..6]), Dash(HexEncode(u[6..8]),
      Dash(HexEncode(u[8..10]), HexEncode(u[10..])))))
  }

  /** The string form of a UUID identifies it: two files never share a primary blob key. */
  lemma UuidStringInjective(a: Uuid, b: Uuid)
    requires UuidString(a) == UuidString(b)
    ensures a == b
  {
    // the tails of the two strings after their first, second and third dash
    var a4, b4 := Dash(HexEncode(a[8..10]), HexEncode(a[10..])), Dash(HexEncode(b[8..10]), HexEncode(b[10..]));
    var a3, b3 := Dash(HexEncode(a[6..8]), a4), Dash(HexEncode(b[6..8]), b4);
    var a2, b2 := Dash(HexEncode(a[4..6]), a3), Dash(HexEncode(b[4..6]), b3);
    DashInjective(HexEncode(a[..4]), a2, HexEncode(b[..4]), b2);
    DashInjective(HexEncode(a[4..6]), a3, HexEncode(b[4..6]), b3);
    DashInjective(HexEncode(a[6..8]), a4, HexEncode(b[6..8]), b4);
    DashInjective(HexEncode(a[8..10]), HexEncode(a[10..]), HexEncode(b[8..10]), HexEncode(b[10..]));
    HexEncodeInjective(a[..4], b[..4]);
    HexEncodeInjective(a[4..6], b[4..6]);
    HexEncodeInjective(a[6..8], b[6..8]);
    HexEncodeInjective(a[8..10], b[8..10]);
    HexEncodeInjective(a[10..], b[10..]);
    assert a == a[..4] + a[4..6] + a[6..8] + a[8..10] + a[10..];
    assert b == b[..4] + b[4..6] + b[6..8] + b[8..10] + b[10..];
  }

  /** The character of the standard base64 alphabet for a sextet. */
  function Base64Char(n: int): char
    requires 0 <= n < 64
  {
    if n < 26 then ('A' as int + n) as char
    else if n < 52 then ('a' as int + n - 26) as char
    else if n < 62 then ('0' as int + n - 52) as char
    else if n == 62 then '+'
    else '/'
  }

  lemma Base64CharInjective(m: int, n: int)
    requires 0 <= m < 64 && 0 <= n < 64
    requires Base64Char(m) == Base64Char(n)
    ensures m == n
  {
    assert Base64Char(m) as int == Base64Char(n) as int;
  }

  /** A number written as a high part and a low part below 16 splits back uniquely. */
  lemma Split16(q1: int, r1: int, q2: int, r2: int)
    requires 0 <= r1 < 16 && 0 <= r2 < 16 && q1 * 16 + r1 == q2 * 16 + r2
    ensures q1 == q2 && r1 == r2
  {
  }

  /** A number written as a high part and a low part below 4 splits back uniquely. */
  lemma Split4(q1: int, r1: int, q2: int, r2: int)
    requires 0 <= r1 < 4 && 0 <= r2 < 4 && q1 * 4 + r1 == q2 * 4 + r2
    ensures q1 == q2 && r1 == r2
  {
  }

  /** base64.RawStdEncoding.EncodeToString: the standard alphabet without '=' padding. */
  function Base64Raw(bs: seq<Byte>): (s: string)
    ensures |s| == (4 * |bs| + 2) / 3
    decreases |bs|
  {
    if |bs| == 0 then ""
    else if |bs| == 1 then
      [Base64Char(bs[0] / 4), Base64Char(bs[0] % 4 * 16)]
    else if |bs| == 2 then
      [Base64Char(bs[0] / 4), Base64Char(bs[0] % 4 * 16 + bs[1] / 16), Base64Char(bs[1] % 16 * 4)]
    else
      [Base64Char(bs[0] / 4), Base64Char(bs[0] % 4 * 16 + bs[1] / 16),
       Base64Char(bs[1] % 16 * 4 + bs[2] / 64), Base64Char(bs[2] % 64)]
      + Base64Raw(bs[3..])
  }

  /** The four characters of a full group of three octets determine the octets. */
  lemma Base64GroupInjective(x0: Byte, x1: Byte, x2: Byte, y0: Byte, y1: Byte, y2: Byte)
    requires Base64Char(x0 / 4) == Base64Char(y0 / 4)
    requires Base64Char(x0 % 4 * 16 + x1 / 16) == Base64Char(y0 % 4 * 16 + y1 / 16)
    requires Base64Char(x1 % 16 * 4 + x2 / 64) == Base64Char(y1 % 16 * 4 + y2 / 64)
    requires Base64Char(x2 % 64) == Base64Char(y2 % 64)
    ensures x0 == y0 && x1 == y1 && x2 == y2
  {
    Base64CharInjective(x0 / 4, y0 / 4);
    Base64CharInjective(x0 % 4 * 16 + x1 / 16, y0 % 4 * 16 + y1 / 16);
    Base64CharInjective(x1 % 16 * 4 + x2 / 64, y1 % 16 * 4 + y2 / 64);
    Base64CharInjective(x2 % 64, y2 % 64);
    Split16(x0 % 4, x1 / 16, y0 % 4, y1 / 16);
    Split4(x1 % 16, x2 / 64, y1 % 16, y2 / 64);
  }

  /** The three characters of a final pair of octets determine the octets. */
  lemma Base64PairInjective(x0: Byte, x1: Byte, y0: Byte, y1: Byte)
    requires Base64Char(x0 / 4) == Base64Char(y0 / 4)
    requires Base64Char(x0 % 4 * 16 + x1 / 16) == Base64Char(y0 % 4 * 16 + y1 / 16)
    requires Base64Char(x1 % 16 * 4) == Base64Char(y1 % 16 * 4)
    ensures x0 == y0 && x1 == y1
  {
    Base64CharInjective(x0 / 4, y0 / 4);
    Base64CharInjective(x0 % 4 * 16 + x1 / 16, y0 % 4 * 16 + y1 / 16);
    Base64CharInjective(x1 % 16 * 4, y1 % 16 * 4);
    Split16(x0 % 4, x1 / 16, y0 % 4, y1 / 16);
  }

  /** The two characters of a final single octet determine the octet. */
  lemma Base64SingleInjective(x0: Byte, y0: Byte)
    requires Base64Char(x0 / 4) == Base64Char(y0 / 4)
    requires Base64Char(x0 % 4 * 16) == Base64Char(y0 % 4 * 16)
    ensures x0 == y0
  {
    Base64CharInjective(x0 / 4, y0 / 4);
    Base64CharInjective(x0 % 4 * 16, y0 % 4 * 16);
  }

  /** Distinct octet strings have distinct unpadded base64 forms, so a webhook bot's
      user name determines the id it was made from. */
  lemma {:induction false} Base64RawInjective(a: seq<Byte>, b: seq<Byte>)
    requires Base64Raw(a) == Base64Raw(b)
    ensures a == b
    decreases |a|
  {
    var s := Base64Raw(a);
    // the output length (4n+2)/3 grows strictly with n, so the lengths agree
    assert |a| == |b|;
    if |a| == 0 {
    } else if |a| == 1 {
      assert s[0] == Base64Raw(b)[0] && s[1] == Base64Raw(b)[1];
      Base64SingleInjective(a[0], b[0]);
    } else if |a| == 2 {
      assert s[0] == Base64Raw(b)[0] && s[1] == Base64Raw(b)[1] && s[2] == Base64Raw(b)[2];
      Base64PairInjective(a[0], a[1], b[0], b[1]);
    } else {
      assert s[0] == Base64Raw(b)[0] && s[1] == Base64Raw(b)[1];
      assert s[2] == Base64Raw(b)[2] && s[3] == Base64Raw(b)[3];
      Base64GroupInjective(a[0], a[1], a[2], b[0], b[1], b[2]);
      assert Base64Raw(a[3..]) == s[4..] == Base64Raw(b[3..]);
      Base64RawInjective(a[3..], b[3..]);
      assert a == a[..3] + a[3..] && b == b[..3] + b[3..];
    }
  }
}
