/**
 What a text denotes, said without the functions that compute it: the last of several members
 with one name, the character each escape stands for, the integer a literal spells.
 */
module JsonMeaning {
  import opened JsonSyntax
  import opened JsonParser
  import opened JsonComplete
  import opened Options

  // ----- arrays and objects, by position -----

  function ElemCount(es: Elems): (n: nat) {
    if es.LastElem? then 1 else 1 + ElemCount(es.rest)
  }

  function ElemAt(es: Elems, i: nat): Syntax
    requires i < ElemCount(es)
  {
    if i == 0 then es.e.v else ElemAt(es.rest, i - 1)
  }

  function MemberCount(ms: Members): (n: nat)
    ensures n > 0
  {
    if ms.LastMember? then 1 else 1 + MemberCount(ms.rest)
  }

  function KeyAt(ms: Members, i: nat): List<Piece>
    requires i < MemberCount(ms)
  {
    if i == 0 then ms.n.key else KeyAt(ms.rest, i - 1)
  }

  function ValueAt(ms: Members, i: nat): Syntax
    requires i < MemberCount(ms)
  {
    if i == 0 then ms.e.v else ValueAt(ms.rest, i - 1)
  }

  /** Member `i` has a name that reads as `k`. */
  ghost predicate Named(ms: Members, i: nat, k: string) {
    i < MemberCount(ms) && PiecesOk(KeyAt(ms, i)) && PiecesValue(KeyAt(ms, i)) == k
  }

  /** ... and no later one has. */
  ghost predicate LastNamed(ms: Members, i: nat, k: string) {
    Named(ms, i, k) && forall j :: i < j < MemberCount(ms) ==> !Named(ms, j, k)
  }

  ghost predicate Means(c: Syntax, v: Json) {
    SyntaxOk(c) && Denote(c) == Some(v)
  }

  /** An array denotes what its elements denote, in order. */
  lemma {:induction false} ElementsInOrder(es: Elems, xs: seq<Json>)
    requires ElemsOk(es)
    ensures DenoteElems(es) == Some(xs)
            <==> |xs| == ElemCount(es) && forall i :: 0 <= i < |xs| ==> Means(ElemAt(es, i), xs[i])
  {
    if es.MoreElems? {
      if |xs| == ElemCount(es) {
        ElementsInOrder(es.rest, xs[1..]);
        assert forall i :: 1 <= i < |xs| ==> ElemAt(es, i) == ElemAt(es.rest, i - 1) && xs[i] == xs[1..][i - 1];
        assert xs == [xs[0]] + xs[1..];
        assert ElemAt(es, 0) == es.e.v;
        if forall i :: 0 <= i < |xs| ==> Means(ElemAt(es, i), xs[i]) {
          forall i | 0 <= i < |xs[1..]| ensures Means(ElemAt(es.rest, i), xs[1..][i]) {
            assert Means(ElemAt(es, i + 1), xs[i + 1]);
          }
        }
      } else if DenoteElems(es).Some? {
        ElementsInOrder(es.rest, DenoteElems(es.rest).value);
      }
    } else {
      assert ElemCount(es) == 1 && ElemAt(es, 0) == es.e.v;
      if |xs| == 1 {
        assert xs == [xs[0]];
      }
    }
  }

  predicate Readable(c: Syntax) {
    SyntaxOk(c) && Denote(c).Some?
  }

  /** Every member's value is read, those of the overwritten ones too. */
  lemma {:induction false} MembersAllRead(ms: Members)
    requires MembersOk(ms)
    ensures DenoteMembers(ms).Some? ==> forall i: nat :: i < MemberCount(ms) ==> Readable(ValueAt(ms, i))
    ensures DenoteMembers(ms).None? ==> exists i: nat :: i < MemberCount(ms) && !Readable(ValueAt(ms, i))
  {
    assert ItemOk(ms.e) && ValueAt(ms, 0) == ms.e.v;
    if ms.MoreMembers? {
      MembersAllRead(ms.rest);
      if DenoteMembers(ms).Some? {
        forall i | 0 < i < MemberCount(ms) ensures Readable(ValueAt(ms, i)) {
          assert ValueAt(ms, i) == ValueAt(ms.rest, i - 1);
          assert Readable(ValueAt(ms.rest, i - 1));
        }
      } else if Denote(ms.e.v).Some? {
        var i: nat :| i < MemberCount(ms.rest) && !Readable(ValueAt(ms.rest, i));
        assert !Readable(ValueAt(ms, i + 1));
      } else {
        assert !Readable(ValueAt(ms, 0));
      }
    }
  }

  /** A name is in the object exactly if some member has it, and the last such member decides its value. */
  lemma {:induction false} LastMemberWins(ms: Members, m: map<string, Json>, k: string)
    requires MembersOk(ms) && DenoteMembers(ms) == Some(m)
    ensures k in m <==> exists i: nat :: Named(ms, i, k)
    ensures k in m ==> exists i: nat :: LastNamed(ms, i, k)
    ensures forall i: nat :: LastNamed(ms, i, k) ==> Means(ValueAt(ms, i), m[k])
  {
    var v := Denote(ms.e.v).value;
    assert Named(ms, 0, k) <==> PiecesValue(ms.n.key) == k;
    if ms.LastMember? {
      assert Named(ms, 0, k) ==> LastNamed(ms, 0, k);
    } else {
      var rest := DenoteMembers(ms.rest).value;
      LastMemberWins(ms.rest, rest, k);
      Shifted(ms, k);
      if k !in rest && Named(ms, 0, k) {
        forall j | 0 < j < MemberCount(ms) ensures !Named(ms, j, k) {
          assert !Named(ms.rest, j - 1, k);
        }
        assert LastNamed(ms, 0, k);
      }
      if k in rest {
        var i: nat :| LastNamed(ms.rest, i, k);
        assert LastNamed(ms, i + 1, k);
      }
      if i: nat :| Named(ms, i, k) && i > 0 {
        assert Named(ms.rest, i - 1, k);
      }
    }
  }

  lemma Shifted(ms: Members, k: string)
    requires MembersOk(ms) && ms.MoreMembers?
    ensures forall i: nat :: Named(ms, i + 1, k) <==> Named(ms.rest, i, k)
    ensures forall i: nat :: LastNamed(ms, i + 1, k) <==> LastNamed(ms.rest, i, k)
    ensures forall i: nat :: i < MemberCount(ms.rest) ==> ValueAt(ms, i + 1) == ValueAt(ms.rest, i)
  {
    forall i: nat ensures LastNamed(ms, i + 1, k) <==> LastNamed(ms.rest, i, k) {
      if LastNamed(ms.rest, i, k) {
        forall j | i + 1 < j < MemberCount(ms) ensures !Named(ms, j, k) {
          assert Named(ms, j, k) ==> Named(ms.rest, j - 1, k);
        }
      }
      if LastNamed(ms, i + 1, k) {
        forall j | i < j < MemberCount(ms.rest) ensures !Named(ms.rest, j, k) {
          assert Named(ms.rest, j, k) ==> Named(ms, j + 1, k);
        }
      }
    }
  }

  // ----- strings -----

  const LOWER := "0123456789abcdef"
  const UPPER := "0123456789ABCDEF"

  /** Either case of a hexadecimal digit has the value of its place in the alphabet. */
  lemma HexDigits(d: nat)
    requires d < 16
    ensures IsHex(LOWER[d]) && HexDigitValue(LOWER[d]) == d
    ensures IsHex(UPPER[d]) && HexDigitValue(UPPER[d]) == d
    ensures d < 10 ==> IsDigit(LOWER[d]) && DigitValue(LOWER[d]) == d
  {
  }

  ghost predicate Spells(c: char, d: nat) {
    d < 16 && (c == LOWER[d] || c == UPPER[d])
  }

  /** `p` is a \u escape of four digits worth `n` in base sixteen. */
  ghost predicate Escapes(p: Piece, n: nat) {
    && p.Hex? && n < 0x10000
    && Spells(p.a, n / 0x1000) && Spells(p.b, n / 0x100 % 16)
    && Spells(p.c1, n / 0x10 % 16) && Spells(p.d, n % 16)
  }

  lemma EscapesValue(p: Piece, n: nat)
    requires Escapes(p, n)
    ensures PieceOk(p) && HexValue(p) == n
  {
    Digit(p.a, n / 0x1000);
    Digit(p.b, n / 0x100 % 16);
    Digit(p.c1, n / 0x10 % 16);
    Digit(p.d, n % 16);
    FourDigits(n);
  }

  lemma Digit(c: char, d: nat)
    requires Spells(c, d)
    ensures IsHex(c) && HexDigitValue(c) == d
  {
    HexDigits(d);
  }

  lemma FourDigits(n: nat)
    ensures ((n / 0x1000 * 16 + n / 0x100 % 16) * 16 + n / 0x10 % 16) * 16 + n % 16 == n
  {
    assert n / 0x1000 == n / 0x100 / 16 && n / 0x100 == n / 0x10 / 16;
  }

  /** The two-character escapes, and no others. */
  lemma ShortEscapes(l: char)
    ensures IsShort(l) <==> l in "\"\\/bfnrt"
    ensures ShortValue('\"') == '\"' && ShortValue('\\') == '\\' && ShortValue('/') == '/'
    ensures ShortValue('b') == '\U{0008}' && ShortValue('f') == '\U{000C}' && ShortValue('n') == '\U{000A}'
    ensures ShortValue('r') == '\U{000D}' && ShortValue('t') == '\U{0009}'
  {
  }

  lemma EscapedShort(l: char, rest: List<Piece>)
    requires IsShort(l) && PiecesOk(rest)
    ensures PiecesOk(Cons(Short(l), rest)) && PiecesValue(Cons(Short(l), rest)) == [ShortValue(l)] + PiecesValue(rest)
  {
  }

  lemma RawIsItself(c: char, rest: List<Piece>)
    requires PieceOk(Raw(c)) && PiecesOk(rest)
    ensures PiecesValue(Cons(Raw(c), rest)) == [c] + PiecesValue(rest)
  {
  }

  /** A \u escape of a character of the basic plane is that character, whatever follows. */
  lemma EscapedCharacter(c: char, p: Piece, rest: List<Piece>)
    requires Escapes(p, c as nat) && PiecesOk(rest)
    ensures PiecesOk(Cons(p, rest)) && PiecesValue(Cons(p, rest)) == [c] + PiecesValue(rest)
  {
    EscapesValue(p, c as nat);
  }

  /** The UTF-16 form of a character beyond the basic plane (section 7) reads as that character. */
  lemma EscapedPair(c: char, hi: Piece, lo: Piece, rest: List<Piece>)
    requires c as nat >= 0x10000 && PiecesOk(rest)
    requires Escapes(hi, 0xD800 + (c as nat - 0x10000) / 0x400)
    requires Escapes(lo, 0xDC00 + (c as nat - 0x10000) % 0x400)
    ensures var ps := Cons(hi, Cons(lo, rest)); PiecesOk(ps) && PiecesValue(ps) == [c] + PiecesValue(rest)
  {
    var h, l := 0xD800 + (c as nat - 0x10000) / 0x400, 0xDC00 + (c as nat - 0x10000) % 0x400;
    EscapesValue(hi, h);
    EscapesValue(lo, l);
    PairMeans(c, h, l);
    PairRead(hi, lo, rest);
  }

  lemma PairMeans(c: char, h: nat, l: nat)
    requires c as nat >= 0x10000
    requires h == 0xD800 + (c as nat - 0x10000) / 0x400 && l == 0xDC00 + (c as nat - 0x10000) % 0x400
    ensures IsHigh(h) && IsLow(l) && Pair(h, l) == c
  {
  }

  lemma PairRead(hi: Piece, lo: Piece, rest: List<Piece>)
    requires hi.Hex? && lo.Hex? && PieceOk(hi) && PieceOk(lo) && PiecesOk(rest)
    requires IsHigh(HexValue(hi)) && IsLow(HexValue(lo))
    ensures var ps := Cons(hi, Cons(lo, rest));
            PiecesOk(ps) && PiecesValue(ps) == [Pair(HexValue(hi), HexValue(lo))] + PiecesValue(rest)
  {
    assert PiecesOk(Cons(lo, rest));
  }

  /** `rest` starts with a \u escape of a low surrogate. */
  ghost predicate LowNext(rest: List<Piece>) {
    rest.Cons? && exists n: nat :: 0xDC00 <= n < 0xE000 && Escapes(rest.head, n)
  }

  /** A surrogate without its other half reads as the replacement character. */
  lemma StraySurrogate(n: nat, p: Piece, rest: List<Piece>)
    requires 0xD800 <= n < 0xE000 && Escapes(p, n) && PiecesOk(rest)
    requires n >= 0xDC00 || !LowNext(rest)
    ensures PiecesOk(Cons(p, rest)) && PiecesValue(Cons(p, rest)) == "\U{FFFD}" + PiecesValue(rest)
  {
    EscapesValue(p, n);
    if rest.Cons? && rest.head.Hex? {
      HexEscapes(rest.head);
    }
  }

  lemma HexEscapes(p: Piece)
    requires p.Hex? && PieceOk(p)
    ensures Escapes(p, HexValue(p))
  {
    var a, b, c, d := HexDigitValue(p.a), HexDigitValue(p.b), HexDigitValue(p.c1), HexDigitValue(p.d);
    HexSpells(p.a);
    HexSpells(p.b);
    HexSpells(p.c1);
    HexSpells(p.d);
    DigitsEscape(p, a, b, c, d, HexValue(p));
  }

  lemma DigitsEscape(p: Piece, a: nat, b: nat, c: nat, d: nat, n: nat)
    requires p.Hex? && Spells(p.a, a) && Spells(p.b, b) && Spells(p.c1, c) && Spells(p.d, d)
    requires n == ((a * 16 + b) * 16 + c) * 16 + d
    ensures Escapes(p, n)
  {
    FourRead(a, b, c, d);
  }

  lemma FourRead(a: nat, b: nat, c: nat, d: nat)
    requires a < 16 && b < 16 && c < 16 && d < 16
    ensures var n := ((a * 16 + b) * 16 + c) * 16 + d;
            n / 0x1000 == a && n / 0x100 % 16 == b && n / 0x10 % 16 == c && n % 16 == d
  {
  }

  lemma HexSpells(c: char)
    requires IsHex(c)
    ensures Spells(c, HexDigitValue(c))
  {
  }

  // ----- numbers -----

  /** The usual reading of a digit string: each digit weighs as many tens as digits follow it. */
  ghost function Decimal(w: Chars): nat
    requires All(w, IsDigit)
  {
    if w.Nil? then 0 else DigitValue(w.head) * PowerOfTen(Length(w.tail)) + Decimal(w.tail)
  }

  lemma {:induction false} ReadsDecimal(high: nat, w: Chars)
    requires All(w, IsDigit)
    ensures DigitsFrom(high, w) == high * PowerOfTen(Length(w)) + Decimal(w)
    decreases w
  {
    if w.Cons? {
      ReadsDecimal(high * 10 + DigitValue(w.head), w.tail);
      ShiftDigit(high, DigitValue(w.head), PowerOfTen(Length(w.tail)));
    }
  }

  lemma ShiftDigit(high: nat, d: nat, p: nat)
    ensures (high * 10 + d) * p == high * (10 * p) + d * p
  {
  }

  /** `v` is the value of `whole.frac * 10^exp`, all fractions multiplied out. */
  ghost predicate IsValueOf(n: Number, v: int)
    requires NumberOk(n)
  {
    var digits := Decimal(n.whole) * PowerOfTen(Length(n.frac)) + Decimal(n.frac);
    var signed := if n.neg then -digits else digits;
    match n.exp
    case NoExp => v * PowerOfTen(Length(n.frac)) == signed
    case Exp(_, sign, size) =>
      if sign == Cons('-', Nil) then v * PowerOfTen(Length(n.frac)) * PowerOfTen(Decimal(size)) == signed
      else v * PowerOfTen(Length(n.frac)) == signed * PowerOfTen(Decimal(size))
  }

  lemma {:induction false} PowerAdds(a: nat, b: nat)
    ensures PowerOfTen(a + b) == PowerOfTen(a) * PowerOfTen(b)
  {
    if a > 0 {
      PowerAdds(a - 1, b);
      Regroup(10, PowerOfTen(a - 1), PowerOfTen(b));
    }
  }

  lemma Cancel(a: int, b: int, p: nat)
    requires p > 0 && a * p == b * p
    ensures a == b
  {
    assert (a - b) * p == 0;
  }

  lemma ScaledUp(m: nat, gap: nat, up: nat, down: nat, x: nat)
    requires gap + down == up
    ensures Scaled(m, gap) == Some(x) <==> x * PowerOfTen(down) == m * PowerOfTen(up)
  {
    PowerAdds(gap, down);
    SolvesUp(m, PowerOfTen(gap), PowerOfTen(down), PowerOfTen(up), x);
    assert Scaled(m, gap) == Some(m * PowerOfTen(gap));
  }

  lemma ScaledDown(m: nat, gap: nat, up: nat, down: nat, x: nat)
    requires gap > 0 && gap + up == down
    ensures Scaled(m, 0 - gap) == Some(x) <==> x * PowerOfTen(down) == m * PowerOfTen(up)
  {
    var p := PowerOfTen(gap);
    PowerAdds(gap, up);
    SolvesDown(m, p, PowerOfTen(up), PowerOfTen(down), x);
    assert Scaled(m, 0 - gap) == if m % p == 0 then Some(m / p) else None;
  }

  lemma SolvesUp(m: nat, p: nat, q: nat, pq: nat, x: nat)
    requires q > 0 && pq == p * q
    ensures x * q == m * pq <==> x == m * p
  {
    Regroup(m, p, q);
    if x * q == m * pq {
      Cancel(x, m * p, q);
    }
  }

  lemma SolvesDown(m: nat, p: nat, q: nat, pq: nat, x: nat)
    requires p > 0 && q > 0 && pq == p * q
    ensures x * pq == m * q <==> m % p == 0 && m / p == x
  {
    Regroup(x, p, q);
    if x * pq == m * q {
      Cancel(x * p, m, q);
      Quotient(m, p, x);
    }
    if m % p == 0 && m / p == x {
      assert m == p * (m / p) + m % p;
    }
  }

  lemma Quotient(m: nat, p: nat, x: nat)
    requires p > 0 && x * p == m
    ensures m % p == 0 && m / p == x
  {
    var q, r := m / p, m % p;
    assert m == p * q + r;
    Unique(p, x, q, r);
  }

  lemma Unique(p: nat, x: nat, q: nat, r: nat)
    requires r < p && x * p == p * q + r
    ensures r == 0 && q == x
  {
    Distribute(p, x, q);
    if x != q {
      AtLeast(p, x - q);
    }
  }

  lemma Distribute(p: int, x: int, q: int)
    ensures p * (x - q) == x * p - p * q
  {
  }

  /** A multiple other than zero is at least as large. */
  lemma {:induction false} AtLeast(p: nat, k: int)
    requires p > 0 && k != 0
    ensures if k > 0 then p * k >= p else p * k < 0
    decreases if k > 0 then k else 0 - k
  {
    if k > 1 {
      AtLeast(p, k - 1);
      Distribute(p, k, 1);
      assert p * 1 == p;
    } else if k < -1 {
      AtLeast(p, k + 1);
      Distribute(p, k, -1);
    }
  }

  lemma SignedSolves(neg: bool, v: int, p: nat, size: nat)
    requires p > 0
    ensures v * p == (if neg then 0 - size else size)
            <==> (if neg then v <= 0 else v >= 0) && (if neg then 0 - v else v) * p == size
  {
    if v > 0 {
      assert v * p > 0;
    } else if v < 0 {
      assert v * p < 0;
    }
  }

  ghost function Up(e: Exponent): nat
    requires ExponentOk(e)
  {
    if e.Exp? && e.sign != Cons('-', Nil) then Decimal(e.digits) else 0
  }

  ghost function Down(e: Exponent): nat
    requires ExponentOk(e)
  {
    if e.Exp? && e.sign == Cons('-', Nil) then Decimal(e.digits) else 0
  }

  ghost function Mantissa(n: Number): nat
    requires NumberOk(n)
  {
    Decimal(n.whole) * PowerOfTen(Length(n.frac)) + Decimal(n.frac)
  }

  lemma MantissaRead(n: Number)
    requires NumberOk(n)
    ensures DigitsFrom(DigitsFrom(0, n.whole), n.frac) == Mantissa(n)
    ensures ExponentValue(n.exp) == Up(n.exp) - Down(n.exp)
  {
    ReadsDecimal(0, n.whole);
    ReadsDecimal(Decimal(n.whole), n.frac);
    if n.exp.Exp? {
      ReadsDecimal(0, n.exp.digits);
    }
  }

  lemma ValueEquation(n: Number, v: int)
    requires NumberOk(n)
    ensures var size := Mantissa(n) * PowerOfTen(Up(n.exp));
            IsValueOf(n, v) <==>
            v * PowerOfTen(Length(n.frac) + Down(n.exp)) == (if n.neg then 0 - size else size)
  {
    var f, d, u := PowerOfTen(Length(n.frac)), PowerOfTen(Down(n.exp)), PowerOfTen(Up(n.exp));
    PowerAdds(Length(n.frac), Down(n.exp));
    Regroup(v, f, d);
    Negate(Mantissa(n), u);
    assert PowerOfTen(0) == 1;
  }

  lemma Regroup(a: int, b: int, c: int)
    ensures a * (b * c) == a * b * c
  {
  }

  lemma Negate(a: int, b: int)
    ensures (0 - a) * b == 0 - a * b
  {
  }

  lemma MagnitudeMeans(n: Number, x: nat)
    requires NumberOk(n)
    ensures Scaled(Mantissa(n), ExponentValue(n.exp) - Length(n.frac)) == Some(x)
            <==> x * PowerOfTen(Length(n.frac) + Down(n.exp)) == Mantissa(n) * PowerOfTen(Up(n.exp))
  {
    var up, down := Up(n.exp), Length(n.frac) + Down(n.exp);
    MantissaRead(n);
    if up >= down {
      ScaledUp(Mantissa(n), up - down, up, down, x);
    } else {
      ScaledDown(Mantissa(n), down - up, up, down, x);
    }
  }

  /** The literal's value in terms of its magnitude. */
  lemma MagnitudeDecides(n: Number, v: int)
    requires NumberOk(n)
    ensures var x := if n.neg then 0 - v else v;
            NumberValue(n).Some? && NumberValue(n).value == v
            <==> && x >= 0 && Scaled(Mantissa(n), ExponentValue(n.exp) - Length(n.frac)) == Some(x)
                 && x <= LIMIT && !(n.neg && v == 0)
  {
    MantissaRead(n);
  }

  /** A literal denotes the integer that is its value, except beyond 2^53 and for minus zero. */
  lemma NumberMeans(n: Number, v: int)
    requires NumberOk(n)
    ensures NumberValue(n).Some? && NumberValue(n).value == v
            <==> IsValueOf(n, v) && -LIMIT <= v <= LIMIT && !(n.neg && v == 0)
  {
    var x := if n.neg then 0 - v else v;
    ValueEquation(n, v);
    SignedSolves(n.neg, v, PowerOfTen(Length(n.frac) + Down(n.exp)), Mantissa(n) * PowerOfTen(Up(n.exp)));
    MagnitudeDecides(n, v);
    if x >= 0 {
      MagnitudeMeans(n, x);
    }
  }

  // ----- what decoding answers -----

  /** A text whose value is an array is decoded to the values of its elements, in order. */
  lemma ArrayReads(d: Item, xs: seq<Json>)
    requires ItemOk(d) && d.v.SArr?
    ensures Unmarshal(Text(d)) == Value(Arr(xs))
            <==> |xs| == ElemCount(d.v.elems) && forall i :: 0 <= i < |xs| ==> Means(ElemAt(d.v.elems, i), xs[i])
  {
    CompleteDocument(d);
    ElementsInOrder(d.v.elems, xs);
  }

  /** The object that members make: of several with one name the last decides. */
  ghost predicate Makes(ms: Members, m: map<string, Json>) {
    && (forall i: nat :: i < MemberCount(ms) ==> Readable(ValueAt(ms, i)))
    && (forall k :: k in m <==> exists i: nat :: Named(ms, i, k))
    && (forall i: nat, k :: LastNamed(ms, i, k) && k in m ==> Means(ValueAt(ms, i), m[k]))
  }

  lemma MembersMake(ms: Members, m: map<string, Json>)
    requires MembersOk(ms) && DenoteMembers(ms) == Some(m)
    ensures Makes(ms, m)
  {
    MembersAllRead(ms);
    forall k ensures k in m <==> exists i: nat :: Named(ms, i, k) {
      LastMemberWins(ms, m, k);
    }
    forall i: nat, k | LastNamed(ms, i, k) && k in m ensures Means(ValueAt(ms, i), m[k]) {
      LastMemberWins(ms, m, k);
    }
  }

  lemma MadeOnce(ms: Members, m: map<string, Json>, n: map<string, Json>)
    requires MembersOk(ms) && DenoteMembers(ms) == Some(n) && Makes(ms, m)
    ensures m == n
  {
    MembersMake(ms, n);
    assert forall k :: k in m <==> k in n;
    forall k | k in m ensures m[k] == n[k] {
      LastMemberWins(ms, n, k);
      var i: nat :| LastNamed(ms, i, k);
      assert Means(ValueAt(ms, i), m[k]) && Means(ValueAt(ms, i), n[k]);
    }
  }

  /** A text whose value is an object is decoded to what its members make. */
  lemma ObjectReads(d: Item, m: map<string, Json>)
    requires ItemOk(d) && d.v.SObj?
    ensures Unmarshal(Text(d)) == Value(Obj(m)) <==> Makes(d.v.members, m)
  {
    CompleteDocument(d);
    var ms := d.v.members;
    if DenoteMembers(ms) == Some(m) {
      MembersMake(ms, m);
    }
    if Makes(ms, m) {
      MembersAllRead(ms);
      MadeOnce(ms, m, DenoteMembers(ms).value);
    }
  }

  /** A text whose value is a number is decoded to the integer it is worth. */
  lemma NumberReads(before: Chars, n: Number, after: Chars, v: SafeInt)
    requires All(before, IsSpace) && NumberOk(n) && All(after, IsSpace)
    ensures Unmarshal(Text(Item(before, SNum(n), after))) == Value(Num(v)) <==> IsValueOf(n, v) && !(n.neg && v == 0)
  {
    CompleteDocument(Item(before, SNum(n), after));
    NumberMeans(n, v);
  }

  /** A text whose value is a string is decoded to what its pieces read as. */
  lemma StringReads(before: Chars, ps: List<Piece>, after: Chars)
    requires All(before, IsSpace) && PiecesOk(ps) && All(after, IsSpace)
    ensures Unmarshal(Text(Item(before, SStr(ps), after))) == Value(Str(PiecesValue(ps)))
  {
    var d := Item(before, SStr(ps), after);
    StringDenotes(ps);
    CompleteDocument(d);
    assert ParseDocument(Text(d)) == Some(d);
  }

  lemma StringDenotes(ps: List<Piece>)
    requires PiecesOk(ps)
    ensures SyntaxOk(SStr(ps)) && Denote(SStr(ps)) == Some(Str(PiecesValue(ps)))
  {
  }

  lemma FiveSpelled(a: char, b: char, c: char, d: char, e: char, k: Chars)
    ensures ToString(Cons(a, Cons(b, Cons(c, Cons(d, Cons(e, k)))))) == [a, b, c, d, e] + ToString(k)
  {
    assert ToString(Cons(d, Cons(e, k))) == [d, e] + ToString(k);
    assert ToString(Cons(c, Cons(d, Cons(e, k)))) == [c, d, e] + ToString(k);
    assert [a] + ([b] + ([c, d, e] + ToString(k))) == [a, b, c, d, e] + ToString(k);
  }

  /** Two members of one name, the first true and the second false. */
  function TwoMembers(): Members {
    MoreMembers(NameA(), Item(Nil, STrue, Nil), OneMember())
  }

  function OneMember(): Members {
    LastMember(NameA(), Item(Nil, SFalse, Nil))
  }

  function NameA(): Name {
    Name(Nil, Cons(Raw('a'), Nil), Nil)
  }

  lemma NameSpelled(k: Chars)
    ensures ToString(PutName(NameA(), k)) == "\"a\":" + ToString(k)
  {
    var l := Cons('\"', Cons(':', k));
    assert PutPieces(Cons(Raw('a'), Nil), Cons(':', k)) == Cons('a', PutPieces(Nil, Cons(':', k)));
    assert PutName(NameA(), k) == Cons('\"', Cons('a', l));
    assert ToString(l) == "\":" + ToString(k);
    assert ToString(Cons('a', l)) == "a" + ("\":" + ToString(k));
  }

  lemma TwoMembersText()
    ensures Text(Item(Nil, SObj(TwoMembers()), Nil)) == "{" + ("\"a\":" + ("true" + ("," + ("\"a\":" + "false}"))))
  {
    var last := PutMembers(OneMember(), Nil);
    FiveSpelled('f', 'a', 'l', 's', 'e', Cons('}', Nil));
    NameSpelled(Put(SFalse, Cons('}', Nil)));
    var more := Cons(',', last);
    FiveSpelled('t', 'r', 'u', 'e', ',', last);
    NameSpelled(Put(STrue, more));
  }

  /** One object with two members of one name. */
  lemma DuplicateName()
    ensures Unmarshal("{" + ("\"a\":" + ("true" + ("," + ("\"a\":" + "false}"))))) == Value(Obj(map["a" := Bool(false)]))
  {
    TwoMembersText();
    TwoMembersDenote();
    CompleteDocument(Item(Nil, SObj(TwoMembers()), Nil));
  }

  lemma TwoMembersDenote()
    ensures MembersOk(TwoMembers()) && DenoteMembers(TwoMembers()) == Some(map["a" := Bool(false)])
  {
    RawIsItself('a', Nil);
    assert PiecesOk(NameA().key) && PiecesValue(NameA().key) == "a";
    assert ItemOk(Item(Nil, SFalse, Nil)) && ItemOk(Item(Nil, STrue, Nil));
    assert DenoteMembers(OneMember()) == Some(map["a" := Bool(false)]);
    assert DenoteMembers(TwoMembers()) == Some(map["a" := Bool(true)] + map["a" := Bool(false)]);
    assert map["a" := Bool(true)] + map["a" := Bool(false)] == map["a" := Bool(false)];
  }
}
