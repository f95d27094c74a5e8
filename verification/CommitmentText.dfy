/** What the characters of a commitment stand for: digits, letters in lower case, UUIDs, and the bytes a
    text takes. */
module CommitmentText {
  import opened Strings
  import opened Commitment

  const DIGITS := "0123456789abcdef"
  const CAPITALS := "ABCDEFGHIJKLMNOPQRSTUVWXYZ"
  const SMALL := "abcdefghijklmnopqrstuvwxyz"

  lemma Characters()
    ensures |DIGITS| == 16 && |CAPITALS| == |SMALL| == 26
    ensures forall d :: 0 <= d < 10 ==> DIGITS[d] as int == '0' as int + d
    ensures forall d :: 10 <= d < 16 ==> DIGITS[d] as int == 'a' as int + d - 10
    ensures forall k :: 0 <= k < 26 ==> CAPITALS[k] as int == 'A' as int + k && SMALL[k] as int == 'a' as int + k
  {
  }

  /** Each capital letter becomes the small one in the same place of the alphabet, and nothing else changes. */
  lemma LowerMeans(s: string, i: nat)
    requires i < |s|
    ensures |CAPITALS| == |SMALL|
    ensures forall k :: 0 <= k < |CAPITALS| && s[i] == CAPITALS[k] ==> Lower(s)[i] == SMALL[k]
    ensures s[i] !in CAPITALS ==> Lower(s)[i] == s[i]
  {
    Characters();
    if 'A' <= s[i] <= 'Z' {
      assert CAPITALS[s[i] as int - 'A' as int] == s[i];
    }
  }

  /** What digits are worth by their places. */
  function Worth(s: string, base: nat): nat {
    if s == "" then 0 else base * Worth(s[..|s| - 1], base) + DigitOf(s[|s| - 1])
  }

  function DigitOf(c: char): nat {
    IndexOf(c, |DIGITS|)
  }

  /** Where the character stands among the first `n` digits. */
  function IndexOf(c: char, n: nat): nat
    requires n <= |DIGITS|
  {
    if n == 0 then 0 else if DIGITS[n - 1] == c then n - 1 else IndexOf(c, n - 1)
  }

  lemma {:induction false} IndexIs(d: nat, n: nat)
    requires d < n <= |DIGITS|
    ensures IndexOf(DIGITS[d], n) == d
  {
    Characters();
    if d < n - 1 {
      IndexIs(d, n - 1);
    }
  }

  lemma DigitIs(d: nat)
    requires d < 16
    ensures |DIGITS| == 16 && DigitOf(DIGITS[d]) == d && HexChar(d) == DIGITS[d] && (d < 10 ==> DigitChar(d) == DIGITS[d])
  {
    Characters();
    IndexIs(d, |DIGITS|);
  }

  /** A printed number has decimal digits, is worth the number, and starts with no zero but for zero. */
  lemma {:induction false} DecimalMeans(n: nat)
    ensures var s := Decimal(n);
            && Worth(s, 10) == n && (n > 0 ==> s[0] != '0') && (n == 0 ==> s == "0")
            && forall i :: 0 <= i < |s| ==> s[i] in DIGITS
  {
    hide DigitOf, Worth;
    var s := Decimal(n);
    DigitIs(n % 10);
    WorthLast(s[..|s| - 1], s[|s| - 1], 10);
    assert s == s[..|s| - 1] + [s[|s| - 1]];
    if n >= 10 {
      DecimalMeans(n / 10);
      assert s[..|s| - 1] == Decimal(n / 10) && s[|s| - 1] == DigitChar(n % 10);
    } else {
      assert s[..|s| - 1] == "" && s[0] == DigitChar(n);
      WorthNone(10);
      ZeroDigit(n);
    }
  }

  lemma WorthLast(init: string, c: char, base: nat)
    ensures Worth(init + [c], base) == base * Worth(init, base) + DigitOf(c)
  {
    assert (init + [c])[..|init|] == init;
  }

  lemma WorthNone(base: nat)
    ensures Worth("", base) == 0
  {
  }

  lemma ZeroDigit(n: nat)
    requires n < 10
    ensures DigitChar(n) == '0' <==> n == 0
  {
  }

  /** The hexadecimal digits of a UUID, in order. */
  function HexDigits(u: Uuid): (s: string)
    ensures |s| == 32
  {
    seq(32, k requires 0 <= k < 32 => DIGITS[u[k]])
  }

  /** A printed UUID is its digits in groups of 8, 4, 4, 4 and 12. */
  lemma UuidMeans(u: Uuid)
    ensures var h := HexDigits(u); PrintUuid(u) == h[..8] + "-" + h[8..12] + "-" + h[12..16] + "-" + h[16..20] + "-" + h[20..]
  {
    var h := HexDigits(u);
    forall k | 0 <= k < 32 ensures h[k] == HexChar(u[k]) {
      DigitIs(u[k]);
    }
  }

  // ---------------------------------------------------------------------------
  // Bytes

  /** A character in UTF-8 (section 3 of RFC 3629). */
  function Utf8(k: nat): seq<nat> {
    if k < 0x80 then [k]
    else if k < 0x800 then [0xc0 + k / 64, 0x80 + k % 64]
    else if k < 0x1_0000 then [0xe0 + k / 4096, 0x80 + k / 64 % 64, 0x80 + k % 64]
    else [0xf0 + k / 0x4_0000, 0x80 + k / 4096 % 64, 0x80 + k / 64 % 64, 0x80 + k % 64]
  }

  /** The first byte tells how many there are, and together they give the character back. */
  lemma Utf8Reads(c: char)
    ensures var b, k := Utf8(c as int), c as int;
            && (if b[0] < 0x80 then b == [k]
                else if b[0] < 0xe0 then |b| == 2 && 0xc2 <= b[0] && (b[0] - 0xc0) * 64 + (b[1] - 0x80) == k
                else if b[0] < 0xf0 then |b| == 3 && (b[0] - 0xe0) * 4096 + (b[1] - 0x80) * 64 + (b[2] - 0x80) == k
                else |b| == 4 && b[0] < 0xf5 && (b[0] - 0xf0) * 0x4_0000 + (b[1] - 0x80) * 4096 + (b[2] - 0x80) * 64 + (b[3] - 0x80) == k)
            && forall i :: 1 <= i < |b| ==> 0x80 <= b[i] < 0xc0
  {
    var k := c as int;
    SixBits(k);
    SixBits(k / 64);
    SixBits(k / 4096);
  }

  lemma SixBits(k: nat)
    ensures k == k / 64 * 64 + k % 64 && k % 64 < 64
    ensures k / 64 / 64 == k / 4096 && k / 4096 / 64 == k / 0x4_0000
  {
  }

  function Encoded(s: string): seq<nat> {
    if s == "" then [] else Encoded(s[..|s| - 1]) + Utf8(s[|s| - 1] as int)
  }

  /** The size that is limited is that of the text in UTF-8. */
  lemma {:induction false} BytesMeans(s: string)
    ensures Bytes(s) == |Encoded(s)|
  {
    if s != "" {
      BytesMeans(s[..|s| - 1]);
    }
  }
}
