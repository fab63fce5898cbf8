/** The bytes of a text: UTF-8 as Go stores strings (section 3 of RFC 3629). */
module Utf8 {
  import opened Sorting

  type Byte = b: int | 0 <= b < 0x100

  type Bytes = seq<Byte>

  function EncodeChar(c: char): Bytes {
    var n := c as int;
    if n < 0x80 then [n]
    else if n < 0x800 then [0xC0 + n / 0x40, Low(n)]
    else if n < 0x10000 then [0xE0 + n / 0x40 / 0x40, Low(n / 0x40), Low(n)]
    else [0xF0 + n / 0x40 / 0x40 / 0x40, Low(n / 0x40 / 0x40), Low(n / 0x40), Low(n)]
  }

  /** A continuation byte: the low six bits. */
  function Low(n: nat): Byte {
    0x80 + n % 0x40
  }

  function Encode(s: string): Bytes {
    if s == "" then [] else EncodeChar(s[0]) + Encode(s[1..])
  }

  predicate Continues(b: Byte) {
    0x80 <= b < 0xC0
  }

  /** What a byte holds beside its mark. */
  function Bits(b: Byte, mark: int): int {
    b - mark
  }

  /** The table of section 3 of RFC 3629: how many bytes, which first byte, and the bits put together. */
  lemma EncodingTable(c: char)
    ensures var n, b := c as int, EncodeChar(c);
            if n <= 0x7F then b == [n]
            else if n <= 0x7FF then
              |b| == 2 && 0xC0 <= b[0] < 0xE0 && Continues(b[1]) && n == Bits(b[0], 0xC0) * 0x40 + Bits(b[1], 0x80)
            else if n <= 0xFFFF then
              && |b| == 3 && 0xE0 <= b[0] < 0xF0 && Continues(b[1]) && Continues(b[2])
              && n == Bits(b[0], 0xE0) * 0x1000 + Bits(b[1], 0x80) * 0x40 + Bits(b[2], 0x80)
            else
              && |b| == 4 && 0xF0 <= b[0] < 0xF8 && Continues(b[1]) && Continues(b[2]) && Continues(b[3])
              && n == Bits(b[0], 0xF0) * 0x40000 + Bits(b[1], 0x80) * 0x1000 + Bits(b[2], 0x80) * 0x40 + Bits(b[3], 0x80)
  {
  }

  /** Lexical order of bytes, as Go compares strings. */
  predicate BytesLess(a: Bytes, b: Bytes) {
    |b| > 0 && (|a| == 0 || a[0] < b[0] || (a[0] == b[0] && BytesLess(a[1..], b[1..])))
  }

  lemma {:induction false} SamePrefix(p: Bytes, x: Bytes, y: Bytes)
    ensures BytesLess(p + x, p + y) <==> BytesLess(x, y)
  {
    if p == [] {
      assert p + x == x && p + y == y;
    } else {
      assert (p + x)[1..] == p[1..] + x && (p + y)[1..] == p[1..] + y;
      SamePrefix(p[1..], x, y);
    }
  }

  lemma FirstDifference(p: Bytes, b: Byte, x: Bytes, c: Byte, y: Bytes)
    requires b < c
    ensures BytesLess(p + ([b] + x), p + ([c] + y))
  {
    SamePrefix(p, [b] + x, [c] + y);
  }

  lemma HighOrLow(m: nat, n: nat)
    requires m < n
    ensures m / 0x40 < n / 0x40 || (m / 0x40 == n / 0x40 && Low(m) < Low(n))
  {
  }

  lemma TopByte(n: nat)
    ensures n < 0x800 ==> n / 0x40 < 0x20
    ensures n < 0x10000 ==> n / 0x40 / 0x40 < 0x10
  {
  }

  /** Where the encodings of two characters first differ, the smaller character has the smaller byte. */
  lemma {:induction false} CharactersDiffer(c: char, d: char) returns (i: nat)
    requires c < d
    ensures i < |EncodeChar(c)| && i < |EncodeChar(d)|
    ensures EncodeChar(c)[..i] == EncodeChar(d)[..i] && EncodeChar(c)[i] < EncodeChar(d)[i]
  {
    var m, n := c as int, d as int;
    if |EncodeChar(c)| != |EncodeChar(d)| {
      TopByte(m);
      TopByte(n);
      i := 0;
    } else {
      HighOrLow(m, n);
      i := |EncodeChar(c)| - 1;
      if i > 0 && m / 0x40 < n / 0x40 {
        HighOrLow(m / 0x40, n / 0x40);
        i := i - 1;
        if i > 0 && m / 0x40 / 0x40 < n / 0x40 / 0x40 {
          HighOrLow(m / 0x40 / 0x40, n / 0x40 / 0x40);
          i := i - 1;
          if i > 0 && m / 0x40 / 0x40 / 0x40 < n / 0x40 / 0x40 / 0x40 {
            i := 0;
          }
        }
      }
    }
  }

  lemma CharOrder(c: char, d: char, x: Bytes, y: Bytes)
    requires c < d
    ensures BytesLess(EncodeChar(c) + x, EncodeChar(d) + y)
  {
    var i := CharactersDiffer(c, d);
    var a, b := EncodeChar(c), EncodeChar(d);
    assert a + x == a[..i] + ([a[i]] + (a[i + 1..] + x));
    assert b + y == b[..i] + ([b[i]] + (b[i + 1..] + y));
    FirstDifference(a[..i], a[i], a[i + 1..] + x, b[i], b[i + 1..] + y);
  }

  lemma {:induction false} BytesAsymmetric(a: Bytes, b: Bytes)
    requires BytesLess(a, b)
    ensures !BytesLess(b, a)
  {
    if |a| > 0 && a[0] == b[0] {
      BytesAsymmetric(a[1..], b[1..]);
    }
  }

  lemma {:induction false} LessEncoded(a: string, b: string)
    requires Less(a, b)
    ensures BytesLess(Encode(a), Encode(b))
  {
    if |a| > 0 {
      if a[0] == b[0] {
        LessEncoded(a[1..], b[1..]);
        SamePrefix(EncodeChar(a[0]), Encode(a[1..]), Encode(b[1..]));
      } else {
        CharOrder(a[0], b[0], Encode(a[1..]), Encode(b[1..]));
      }
    }
  }

  /** Comparing the bytes of two strings is comparing their characters. */
  lemma ByteOrder(a: string, b: string)
    ensures BytesLess(Encode(a), Encode(b)) <==> Less(a, b)
  {
    LessTotal(a, b);
    if Less(a, b) {
      LessEncoded(a, b);
    } else if Less(b, a) {
      LessEncoded(b, a);
      BytesAsymmetric(Encode(b), Encode(a));
    } else {
      NotBelowItself(Encode(a));
    }
  }

  lemma {:induction false} NotBelowItself(a: Bytes)
    ensures !BytesLess(a, a)
  {
    if a != [] {
      NotBelowItself(a[1..]);
    }
  }

  /** Different strings have different bytes. */
  lemma EncodeInjective(a: string, b: string)
    ensures Encode(a) == Encode(b) <==> a == b
  {
    if Encode(a) == Encode(b) {
      NotBelowItself(Encode(a));
      ByteOrder(a, b);
      ByteOrder(b, a);
      LessTotal(a, b);
    }
  }
}
