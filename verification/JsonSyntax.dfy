/**
 The JSON texts of RFC 8259 and the values they denote.

 A text is described by its syntax tree: every choice an author has (white space,
 escapes, number spelling, member order, repeated names) is a field of the tree.
 The `Put...` functions spell a tree out in front of a following text, and `Denote`
 is the value a decoder builds from it. Texts are lists here, read from the front.
 */
module JsonSyntax {
  import opened Options

  // ----- values: what decoding into an empty interface yields -----

  const LIMIT: int := 9007199254740992

  /** Integers that a float64 holds exactly, together with all their neighbours. */
  type SafeInt = n: int | -LIMIT <= n <= LIMIT

  datatype Json =
    | Null
    | Bool(b: bool)
    | Num(n: SafeInt)
    | Str(s: string)
    | Arr(xs: seq<Json>)
    | Obj(m: map<string, Json>)

  // ----- characters -----

  predicate IsSpace(c: char) {
    c == ' ' || c == '\t' || c == '\n' || c == '\r'
  }

  predicate IsDigit(c: char) {
    '0' <= c <= '9'
  }

  predicate IsHex(c: char) {
    '0' <= c <= '9' || 'a' <= c <= 'f' || 'A' <= c <= 'F'
  }

  function DigitValue(c: char): (d: nat)
    requires IsDigit(c)
  {
    c as int - '0' as int
  }

  function HexDigitValue(c: char): (d: nat)
    requires IsHex(c)
    ensures d < 16
  {
    if '0' <= c <= '9' then c as int - '0' as int
    else if 'a' <= c <= 'f' then c as int - 'a' as int + 10
    else c as int - 'A' as int + 10
  }

  // ----- texts -----

  datatype List<T> = Nil | Cons(head: T, tail: List<T>)

  type Chars = List<char>

  function Length<T>(l: List<T>): nat {
    if l.Nil? then 0 else 1 + Length(l.tail)
  }

  function Prepend(w: Chars, k: Chars): Chars {
    if w.Nil? then k else Cons(w.head, Prepend(w.tail, k))
  }

  predicate All(w: Chars, p: char -> bool) {
    w.Nil? || (p(w.head) && All(w.tail, p))
  }

  function ToString(l: Chars): string {
    if l.Nil? then "" else [l.head] + ToString(l.tail)
  }

  function FromString(s: string): (l: Chars)
    ensures ToString(l) == s
  {
    if s == "" then Nil else Cons(s[0], FromString(s[1..]))
  }

  lemma {:induction false} FromToString(l: Chars)
    ensures FromString(ToString(l)) == l
  {
    if l.Cons? {
      FromToString(l.tail);
      assert ToString(l)[1..] == ToString(l.tail);
    }
  }

  // ----- strings (section 7) -----

  /** One source unit of a string: a bare character, a two-character escape or a \u escape. */
  datatype Piece = Raw(c: char) | Short(letter: char) | Hex(a: char, b: char, c1: char, d: char)

  predicate PieceOk(p: Piece) {
    match p
    case Raw(c) => c >= ' ' && c != '\"' && c != '\\'
    case Short(l) => IsShort(l)
    case Hex(a, b, c, d) => IsHex(a) && IsHex(b) && IsHex(c) && IsHex(d)
  }

  predicate IsShort(l: char) {
    l == '\"' || l == '\\' || l == '/' || l == 'b' || l == 'f' || l == 'n' || l == 'r' || l == 't'
  }

  predicate PiecesOk(ps: List<Piece>) {
    ps.Nil? || (PieceOk(ps.head) && PiecesOk(ps.tail))
  }

  function PutPiece(p: Piece, k: Chars): Chars {
    match p
    case Raw(c) => Cons(c, k)
    case Short(l) => Cons('\\', Cons(l, k))
    case Hex(a, b, c, d) => Cons('\\', Cons('u', Cons(a, Cons(b, Cons(c, Cons(d, k))))))
  }

  /** The pieces and the closing quote. */
  function PutPieces(ps: List<Piece>, k: Chars): Chars {
    if ps.Nil? then Cons('\"', k) else PutPiece(ps.head, PutPieces(ps.tail, k))
  }

  function PutString(ps: List<Piece>, k: Chars): Chars {
    Cons('\"', PutPieces(ps, k))
  }

  function ShortValue(letter: char): char {
    match letter
    case 'b' => 8 as char
    case 'f' => 12 as char
    case 'n' => '\n'
    case 'r' => '\r'
    case 't' => '\t'
    case _ => letter
  }

  function HexValue(p: Piece): (n: nat)
    requires PieceOk(p) && p.Hex?
    ensures n < 0x10000
  {
    ((HexDigitValue(p.a) * 16 + HexDigitValue(p.b)) * 16 + HexDigitValue(p.c1)) * 16 + HexDigitValue(p.d)
  }

  predicate IsHigh(n: nat) { 0xD800 <= n < 0xDC00 }
  predicate IsLow(n: nat) { 0xDC00 <= n < 0xE000 }

  /** A UTF-16 unit on its own: a stray surrogate reads as the replacement character. */
  function Scalar(n: nat): char
    requires n < 0x10000
  {
    if IsHigh(n) || IsLow(n) then 0xFFFD as char else n as char
  }

  function Pair(hi: nat, lo: nat): char
    requires IsHigh(hi) && IsLow(lo)
  {
    (0x10000 + (hi - 0xD800) * 0x400 + (lo - 0xDC00)) as char
  }

  /** Two \u escapes that together name one character beyond the basic plane. */
  predicate IsPair(ps: List<Piece>)
    requires PiecesOk(ps)
  {
    && ps.Cons? && ps.tail.Cons? && ps.head.Hex? && ps.tail.head.Hex?
    && PiecesOk(ps.tail)
    && IsHigh(HexValue(ps.head)) && IsLow(HexValue(ps.tail.head))
  }

  function PiecesValue(ps: List<Piece>): string
    requires PiecesOk(ps)
  {
    if ps.Nil? then ""
    else if IsPair(ps) then [Pair(HexValue(ps.head), HexValue(ps.tail.head))] + PiecesValue(ps.tail.tail)
    else
      var c := match ps.head
               case Raw(c) => c
               case Short(l) => ShortValue(l)
               case Hex(_, _, _, _) => Scalar(HexValue(ps.head));
      [c] + PiecesValue(ps.tail)
  }

  // ----- numbers (section 6) -----

  datatype Exponent = NoExp | Exp(mark: char, sign: Chars, digits: Chars)

  /** `frac` is empty when there is no fraction part. */
  datatype Number = Number(neg: bool, whole: Chars, frac: Chars, exp: Exponent)

  predicate SignOk(sign: Chars) {
    sign.Nil? || ((sign.head == '+' || sign.head == '-') && sign.tail.Nil?)
  }

  predicate ExponentOk(e: Exponent) {
    e.Exp? ==> (e.mark == 'e' || e.mark == 'E') && SignOk(e.sign) && e.digits.Cons? && All(e.digits, IsDigit)
  }

  predicate WholeOk(w: Chars) {
    w.Cons? && All(w, IsDigit) && (w.head == '0' ==> w.tail.Nil?)
  }

  predicate NumberOk(n: Number) {
    WholeOk(n.whole) && All(n.frac, IsDigit) && ExponentOk(n.exp)
  }

  function PutExponent(e: Exponent, k: Chars): Chars {
    if e.NoExp? then k else Cons(e.mark, Prepend(e.sign, Prepend(e.digits, k)))
  }

  function PutFrac(frac: Chars, k: Chars): Chars {
    if frac.Nil? then k else Cons('.', Prepend(frac, k))
  }

  function PutNumber(n: Number, k: Chars): Chars {
    var unsigned := Prepend(n.whole, PutFrac(n.frac, PutExponent(n.exp, k)));
    if n.neg then Cons('-', unsigned) else unsigned
  }

  /** The number spelled by `w`, read after digits worth `high`. */
  function DigitsFrom(high: nat, w: Chars): (n: nat)
    requires All(w, IsDigit)
    decreases w
  {
    if w.Nil? then high else DigitsFrom(high * 10 + DigitValue(w.head), w.tail)
  }

  function PowerOfTen(e: nat): (p: nat)
    ensures p > 0
  {
    if e == 0 then 1 else 10 * PowerOfTen(e - 1)
  }

  function ExponentValue(e: Exponent): int
    requires ExponentOk(e)
  {
    if e.NoExp? then 0
    else
      var size := DigitsFrom(0, e.digits);
      if e.sign == Cons('-', Nil) then 0 - size else size
  }

  /** mantissa * 10^scale when that is an integer */
  function Scaled(mantissa: nat, scale: int): Option<nat> {
    if scale >= 0 then Some(mantissa * PowerOfTen(scale))
    else if mantissa % PowerOfTen(-scale) == 0 then Some(mantissa / PowerOfTen(-scale))
    else None
  }

  /** The integer a literal denotes; None outside the modelled range (fractions, -0, beyond 2^53). */
  function NumberValue(n: Number): Option<SafeInt>
    requires NumberOk(n)
  {
    var mantissa := DigitsFrom(DigitsFrom(0, n.whole), n.frac);
    var magnitude :- Scaled(mantissa, ExponentValue(n.exp) - Length(n.frac));
    if magnitude > LIMIT || (n.neg && magnitude == 0) then None
    else Some(if n.neg then 0 - magnitude else magnitude)
  }

  // ----- values (sections 3 to 5) -----

  datatype Syntax =
    | SNull
    | STrue
    | SFalse
    | SNum(num: Number)
    | SStr(pieces: List<Piece>)
    | SEmptyArr(gap: Chars)
    | SArr(elems: Elems)
    | SEmptyObj(gap: Chars)
    | SObj(members: Members)

  /** A value with the white space around it; a whole text is one of these. */
  datatype Item = Item(before: Chars, v: Syntax, after: Chars)

  /** The part of an object member through its colon. */
  datatype Name = Name(before: Chars, key: List<Piece>, mid: Chars)

  /** A non-empty list of array elements. */
  datatype Elems = LastElem(e: Item) | MoreElems(e: Item, rest: Elems)

  /** A non-empty list of object members. */
  datatype Members = LastMember(n: Name, e: Item) | MoreMembers(n: Name, e: Item, rest: Members)

  predicate SyntaxOk(c: Syntax) {
    match c
    case SNull => true
    case STrue => true
    case SFalse => true
    case SNum(n) => NumberOk(n)
    case SStr(ps) => PiecesOk(ps)
    case SEmptyArr(gap) => All(gap, IsSpace)
    case SArr(es) => ElemsOk(es)
    case SEmptyObj(gap) => All(gap, IsSpace)
    case SObj(ms) => MembersOk(ms)
  }

  predicate ItemOk(e: Item) {
    All(e.before, IsSpace) && SyntaxOk(e.v) && All(e.after, IsSpace)
  }

  predicate NameOk(n: Name) {
    All(n.before, IsSpace) && PiecesOk(n.key) && All(n.mid, IsSpace)
  }

  predicate ElemsOk(es: Elems) {
    ItemOk(es.e) && (es.MoreElems? ==> ElemsOk(es.rest))
  }

  predicate MembersOk(ms: Members) {
    NameOk(ms.n) && ItemOk(ms.e) && (ms.MoreMembers? ==> MembersOk(ms.rest))
  }

  function Put(c: Syntax, k: Chars): Chars {
    match c
    case SNull => Cons('n', Cons('u', Cons('l', Cons('l', k))))
    case STrue => Cons('t', Cons('r', Cons('u', Cons('e', k))))
    case SFalse => Cons('f', Cons('a', Cons('l', Cons('s', Cons('e', k)))))
    case SNum(n) => PutNumber(n, k)
    case SStr(ps) => PutString(ps, k)
    case SEmptyArr(gap) => Cons('[', Prepend(gap, Cons(']', k)))
    case SArr(es) => Cons('[', PutElems(es, k))
    case SEmptyObj(gap) => Cons('{', Prepend(gap, Cons('}', k)))
    case SObj(ms) => Cons('{', PutMembers(ms, k))
  }

  function PutItem(e: Item, k: Chars): Chars {
    Prepend(e.before, Put(e.v, Prepend(e.after, k)))
  }

  function PutName(n: Name, k: Chars): Chars {
    Prepend(n.before, PutString(n.key, Prepend(n.mid, Cons(':', k))))
  }

  /** Elements up to and including the closing bracket. */
  function PutElems(es: Elems, k: Chars): Chars {
    PutItem(es.e, if es.LastElem? then Cons(']', k) else Cons(',', PutElems(es.rest, k)))
  }

  /** Members up to and including the closing brace. */
  function PutMembers(ms: Members, k: Chars): Chars {
    PutName(ms.n, PutItem(ms.e, if ms.LastMember? then Cons('}', k) else Cons(',', PutMembers(ms.rest, k))))
  }

  /** The text a tree stands for. */
  function Text(d: Item): string {
    ToString(PutItem(d, Nil))
  }

  // ----- denotation -----

  function Denote(c: Syntax): Option<Json>
    requires SyntaxOk(c)
  {
    match c
    case SNull => Some(Null)
    case STrue => Some(Bool(true))
    case SFalse => Some(Bool(false))
    case SNum(num) =>
      var n :- NumberValue(num);
      Some(Num(n))
    case SStr(ps) => Some(Str(PiecesValue(ps)))
    case SEmptyArr(_) => Some(Arr([]))
    case SArr(es) =>
      var xs :- DenoteElems(es);
      Some(Arr(xs))
    case SEmptyObj(_) => Some(Obj(map[]))
    case SObj(ms) =>
      var m :- DenoteMembers(ms);
      Some(Obj(m))
  }

  function DenoteElems(es: Elems): Option<seq<Json>>
    requires ElemsOk(es)
  {
    assert ItemOk(es.e);
    var v :- Denote(es.e.v);
    if es.LastElem? then Some([v])
    else
      var rest :- DenoteElems(es.rest);
      Some([v] + rest)
  }

  /** Of members with the same name the last one wins. */
  function DenoteMembers(ms: Members): Option<map<string, Json>>
    requires MembersOk(ms)
  {
    assert ItemOk(ms.e);
    var v :- Denote(ms.e.v);
    var here := map[PiecesValue(ms.n.key) := v];
    if ms.LastMember? then Some(here)
    else
      var rest :- DenoteMembers(ms.rest);
      Some(here + rest)
  }
}
