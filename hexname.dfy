/**
 The name under which an upload is stored: its SHA-1 sum written with
 `fmt.Sprintf("%x", …)`, two lowercase hexadecimal digits per byte, most
 significant digit first, with no separator.
 */
module HexName {
  import opened Libraries

  /** One of `0`-`9`, `a`-`f`. */
  predicate IsLowerHexChar(c: char) {
    '0' <= c <= '9' || 'a' <= c <= 'f'
  }

  function HexDigit(n: int): (c: char)
    requires 0 <= n < 16
    ensures IsLowerHexChar(c)
  {
    if n < 10 then ('0' as int + n) as char else ('a' as int + n - 10) as char
  }

  /** The value of one lowercase hexadecimal digit; it inverts `HexDigit` both ways. */
  function HexValue(c: char): (n: int)
    requires IsLowerHexChar(c)
    ensures 0 <= n < 16 && HexDigit(n) == c
    ensures forall m | 0 <= m < 16 && HexDigit(m) == c :: m == n
  {
    if '0' <= c <= '9' then c as int - '0' as int else c as int - 'a' as int + 10
  }

  /** `%x` on a byte slice. */
  function LowerHex(b: Bytes): (s: string)
    ensures |s| == 2 * |b|
    ensures forall k | 0 <= k < |s| :: IsLowerHexChar(s[k])
  {
    if b == [] then "" else [HexDigit(b[0] / 16), HexDigit(b[0] % 16)] + LowerHex(b[1..])
  }

  /** Reads back a string of lowercase hexadecimal digit pairs. */
  function ParseLowerHex(s: string): (b: Bytes)
    requires |s| % 2 == 0
    requires forall k | 0 <= k < |s| :: IsLowerHexChar(s[k])
    ensures 2 * |b| == |s|
  {
    if s == [] then [] else [HexValue(s[0]) * 16 + HexValue(s[1])] + ParseLowerHex(s[2..])
  }

  /** Hex encoding loses nothing: the digest can be read back from the name. */
  lemma {:induction false} HexRoundTrip(b: Bytes)
    ensures ParseLowerHex(LowerHex(b)) == b
    decreases |b|
  {
    if b != [] {
      var s := LowerHex(b);
      HexRoundTrip(b[1..]);
      assert s[2..] == LowerHex(b[1..]);
      assert s[0] == HexDigit(b[0] / 16) && s[1] == HexDigit(b[0] % 16);
      assert HexValue(s[0]) == b[0] / 16 && HexValue(s[1]) == b[0] % 16;
    }
  }

  /** Distinct digests give distinct names. */
  lemma LowerHexInjective(a: Bytes, b: Bytes)
    requires LowerHex(a) == LowerHex(b)
    ensures a == b
  {
    HexRoundTrip(a);
    HexRoundTrip(b);
  }

  /**
   The stored file name of a digest: exactly 40 characters, all of them
   lowercase hexadecimal digits, from which the digest can be read back.
   */
  function StoredName(d: Digest): (name: string)
    ensures |name| == 40
    ensures forall k | 0 <= k < |name| :: IsLowerHexChar(name[k])
    ensures ParseLowerHex(name) == d
  {
    HexRoundTrip(d);
    LowerHex(d)
  }
}
