/**
 A recursive-descent reader for JSON texts: the decoder's view of RFC 8259. What each
 function promises is soundness: the tree it returns is well formed and, spelled out in
 front of the unread rest, gives back its input. Completeness is in `JsonComplete`.
 */
module JsonParser {
  import opened JsonSyntax
  import opened Options

  datatype Parsed<+T> = Bad | Good(tree: T, rest: Chars) {
    predicate IsFailure() { Bad? }
    function PropagateFailure<U>(): Parsed<U>
      requires Bad?
    {
      Bad
    }
    function Extract(): (T, Chars)
      requires Good?
    {
      (tree, rest)
    }
  }

  datatype Cut = Cut(taken: Chars, rest: Chars)

  /** The longest run of characters of one class, and what follows it. */
  function Span(l: Chars, p: char -> bool): (r: Cut)
    ensures Prepend(r.taken, r.rest) == l && All(r.taken, p)
    ensures r.rest.Cons? ==> !p(r.rest.head)
    ensures Length(r.rest) + Length(r.taken) == Length(l)
  {
    if l.Nil? || !p(l.head) then Cut(Nil, l)
    else
      var Cut(w, rest) := Span(l.tail, p);
      Cut(Cons(l.head, w), rest)
  }

  // ----- strings -----

  function ParsePiece(l: Chars): (r: Parsed<Piece>)
    ensures r.Good? ==> PieceOk(r.tree) && PutPiece(r.tree, r.rest) == l && Length(r.rest) < Length(l)
  {
    match l
    case Nil => Bad
    case Cons(h, Nil) => if h >= ' ' && h != '\"' && h != '\\' then Good(Raw(h), Nil) else Bad
    case Cons(h, Cons(c, k)) =>
      if h != '\\' then
        if h >= ' ' && h != '\"' then Good(Raw(h), Cons(c, k)) else Bad
      else if c == 'u' then ParseHex(k)
      else if IsShort(c) then Good(Short(c), k)
      else Bad
  }

  function ParseHex(l: Chars): (r: Parsed<Piece>)
    ensures r.Good? ==> PieceOk(r.tree) && PutPiece(r.tree, r.rest) == Cons('\\', Cons('u', l))
                        && Length(r.rest) < Length(l)
  {
    match l
    case Cons(a, Cons(b, Cons(c, Cons(d, k)))) =>
      if IsHex(a) && IsHex(b) && IsHex(c) && IsHex(d) then
        assert Length(l.tail.tail) == 2 + Length(k);
        Good(Hex(a, b, c, d), k)
      else Bad
    case _ => Bad
  }

  function ParsePieces(l: Chars): (r: Parsed<List<Piece>>)
    ensures r.Good? ==> PiecesOk(r.tree) && PutPieces(r.tree, r.rest) == l && Length(r.rest) < Length(l)
    decreases Length(l)
  {
    if l.Nil? then Bad
    else if l.head == '\"' then Good(Nil, l.tail)
    else
      var (p, k) :- ParsePiece(l);
      var (ps, rest) :- ParsePieces(k);
      Good(Cons(p, ps), rest)
  }

  function ParseString(l: Chars): (r: Parsed<List<Piece>>)
    ensures r.Good? ==> PiecesOk(r.tree) && PutString(r.tree, r.rest) == l && Length(r.rest) < Length(l)
  {
    if l.Cons? && l.head == '\"' then ParsePieces(l.tail) else Bad
  }

  // ----- numbers -----

  function ParseWhole(l: Chars): (r: Parsed<Chars>)
    ensures r.Good? ==> WholeOk(r.tree) && Prepend(r.tree, r.rest) == l && Length(r.rest) < Length(l)
  {
    var Cut(w, rest) := Span(l, IsDigit);
    if w.Nil? then Bad
    else if w.head == '0' then
      assert All(Cons('0', Nil), IsDigit) && Prepend(Cons('0', Nil), l.tail) == Cons('0', Prepend(Nil, l.tail));
      Good(Cons('0', Nil), l.tail)
    else Good(w, rest)
  }

  function ParseFrac(l: Chars): (r: Parsed<Chars>)
    ensures r.Good? ==> All(r.tree, IsDigit) && PutFrac(r.tree, r.rest) == l && Length(r.rest) <= Length(l)
  {
    if l.Nil? || l.head != '.' then Good(Nil, l)
    else
      var Cut(w, rest) := Span(l.tail, IsDigit);
      if w.Nil? then Bad else Good(w, rest)
  }

  function ParseSign(l: Chars): (r: Cut)
    ensures SignOk(r.taken) && Prepend(r.taken, r.rest) == l && Length(r.rest) <= Length(l)
  {
    if l.Cons? && (l.head == '+' || l.head == '-') then
      assert Prepend(Cons(l.head, Nil), l.tail) == Cons(l.head, Prepend(Nil, l.tail));
      Cut(Cons(l.head, Nil), l.tail)
    else Cut(Nil, l)
  }

  function ParseExponent(l: Chars): (r: Parsed<Exponent>)
    ensures r.Good? ==> ExponentOk(r.tree) && PutExponent(r.tree, r.rest) == l && Length(r.rest) <= Length(l)
  {
    if l.Nil? || !(l.head == 'e' || l.head == 'E') then Good(NoExp, l)
    else
      var Cut(sign, k) := ParseSign(l.tail);
      var Cut(digits, rest) := Span(k, IsDigit);
      if digits.Nil? then Bad else Good(Exp(l.head, sign, digits), rest)
  }

  function ParseNumber(l: Chars): (r: Parsed<Number>)
    ensures r.Good? ==> NumberOk(r.tree) && PutNumber(r.tree, r.rest) == l && Length(r.rest) < Length(l)
  {
    var neg := l.Cons? && l.head == '-';
    var (whole, k) :- ParseWhole(if neg then l.tail else l);
    var (frac, k') :- ParseFrac(k);
    var (exp, rest) :- ParseExponent(k');
    Good(Number(neg, whole, frac, exp), rest)
  }

  // ----- values -----

  function ParseWord(l: Chars): (r: Parsed<Syntax>)
    ensures r.Good? ==> SyntaxOk(r.tree) && Put(r.tree, r.rest) == l && Length(r.rest) < Length(l)
  {
    match l
    case Cons(a, Cons(b, Cons(c, Cons(d, k)))) =>
      assert Length(l.tail.tail) == 2 + Length(k);
      if a == 'n' && b == 'u' && c == 'l' && d == 'l' then Good(SNull, k)
      else if a == 't' && b == 'r' && c == 'u' && d == 'e' then Good(STrue, k)
      else if a == 'f' && b == 'a' && c == 'l' && d == 's' && k.Cons? && k.head == 'e' then Good(SFalse, k.tail)
      else Bad
    case _ => Bad
  }

  /** What may stand between brackets that hold nothing, with the closing one. */
  function ParseEmpty(l: Chars, close: char): (r: Parsed<Chars>)
    ensures r.Good? ==> All(r.tree, IsSpace) && Prepend(r.tree, Cons(close, r.rest)) == l && Length(r.rest) < Length(l)
  {
    var Cut(gap, k) := Span(l, IsSpace);
    if k.Cons? && k.head == close then Good(gap, k.tail) else Bad
  }

  function ParseArray(l: Chars): (r: Parsed<Syntax>)
    ensures r.Good? ==> SyntaxOk(r.tree) && Put(r.tree, r.rest) == Cons('[', l) && Length(r.rest) < Length(l)
    decreases Length(l), 4
  {
    match ParseEmpty(l, ']')
    case Good(gap, rest) => Good(SEmptyArr(gap), rest)
    case Bad =>
      var (es, rest) :- ParseElems(l);
      Good(SArr(es), rest)
  }

  function ParseObject(l: Chars): (r: Parsed<Syntax>)
    ensures r.Good? ==> SyntaxOk(r.tree) && Put(r.tree, r.rest) == Cons('{', l) && Length(r.rest) < Length(l)
    decreases Length(l), 4
  {
    match ParseEmpty(l, '}')
    case Good(gap, rest) => Good(SEmptyObj(gap), rest)
    case Bad =>
      var (ms, rest) :- ParseMembers(l);
      Good(SObj(ms), rest)
  }

  function ParseValue(l: Chars): (r: Parsed<Syntax>)
    ensures r.Good? ==> SyntaxOk(r.tree) && Put(r.tree, r.rest) == l && Length(r.rest) < Length(l)
    decreases Length(l), 1
  {
    if l.Nil? then Bad
    else if l.head == '\"' then
      var (ps, rest) :- ParseString(l);
      Good(SStr(ps), rest)
    else if l.head == '[' then ParseArray(l.tail)
    else if l.head == '{' then ParseObject(l.tail)
    else if l.head == '-' || IsDigit(l.head) then
      var (n, rest) :- ParseNumber(l);
      Good(SNum(n), rest)
    else ParseWord(l)
  }

  function ParseItem(l: Chars): (r: Parsed<Item>)
    ensures r.Good? ==> ItemOk(r.tree) && PutItem(r.tree, r.rest) == l && Length(r.rest) < Length(l)
    decreases Length(l), 2
  {
    var Cut(before, k) := Span(l, IsSpace);
    var (v, k') :- ParseValue(k);
    var Cut(after, rest) := Span(k', IsSpace);
    Good(Item(before, v, after), rest)
  }

  function ParseElems(l: Chars): (r: Parsed<Elems>)
    ensures r.Good? ==> ElemsOk(r.tree) && PutElems(r.tree, r.rest) == l && Length(r.rest) < Length(l)
    decreases Length(l), 3
  {
    var (e, k) :- ParseItem(l);
    if k.Nil? then Bad
    else if k.head == ']' then Good(LastElem(e), k.tail)
    else if k.head == ',' then
      var (es, rest) :- ParseElems(k.tail);
      Good(MoreElems(e, es), rest)
    else Bad
  }

  function ParseName(l: Chars): (r: Parsed<Name>)
    ensures r.Good? ==> NameOk(r.tree) && PutName(r.tree, r.rest) == l && Length(r.rest) < Length(l)
  {
    var Cut(before, k) := Span(l, IsSpace);
    var (key, k') :- ParseString(k);
    var Cut(mid, rest) := Span(k', IsSpace);
    if rest.Cons? && rest.head == ':' then Good(Name(before, key, mid), rest.tail) else Bad
  }

  function ParseMembers(l: Chars): (r: Parsed<Members>)
    ensures r.Good? ==> MembersOk(r.tree) && PutMembers(r.tree, r.rest) == l && Length(r.rest) < Length(l)
    decreases Length(l), 3
  {
    var (n, j) :- ParseName(l);
    var (e, k) :- ParseItem(j);
    if k.Nil? then Bad
    else if k.head == '}' then Good(LastMember(n, e), k.tail)
    else if k.head == ',' then
      var (ms, rest) :- ParseMembers(k.tail);
      Good(MoreMembers(n, e, ms), rest)
    else Bad
  }

  /**
   A whole text: one value with white space around it and nothing after. Every accepted
   text is an RFC 8259 text: the tree read is well formed and spells all of it.
   */
  function ParseDocument(s: string): (r: Option<Item>)
    ensures r.Some? ==> ItemOk(r.value) && Text(r.value) == s
  {
    match ParseItem(FromString(s))
    case Bad => None
    case Good(e, rest) => if rest.Nil? then Some(e) else None
  }

  // ----- json.Unmarshal -----

  datatype Decoded =
    | Value(v: Json)
    | Malformed
    | OutOfRange  // well formed, with a number this model does not represent

  function Unmarshal(s: string): (r: Decoded) {
    match ParseDocument(s)
    case None => Malformed
    case Some(d) =>
      match Denote(d.v)
      case None => OutOfRange
      case Some(v) => Value(v)
  }
}
