/** Completeness of the reader: it finds the tree of every well-formed text. */
module JsonComplete {
  import opened JsonSyntax
  import opened JsonParser
  import opened Options

  lemma {:induction false} SpanFinds(w: Chars, k: Chars, p: char -> bool)
    requires All(w, p) && (k.Cons? ==> !p(k.head))
    ensures Span(Prepend(w, k), p) == Cut(w, k)
  {
    if w.Cons? {
      SpanFinds(w.tail, k, p);
    }
  }

  // ----- strings -----

  lemma FindsPiece(p: Piece, k: Chars)
    requires PieceOk(p) && k.Cons?
    ensures PutPiece(p, k).head != '\"' && ParsePiece(PutPiece(p, k)) == Good(p, k)
  {
  }

  lemma {:induction false} FindsPieces(ps: List<Piece>, k: Chars)
    requires PiecesOk(ps)
    ensures ParsePieces(PutPieces(ps, k)) == Good(ps, k)
  {
    if ps.Cons? {
      FindsPiece(ps.head, PutPieces(ps.tail, k));
      FindsPieces(ps.tail, k);
    }
  }

  // ----- numbers -----

  /** What may follow a value: the end, white space, or the punctuation that closes an item. */
  predicate Follow(k: Chars) {
    k.Cons? ==> IsSpace(k.head) || k.head == ',' || k.head == ']' || k.head == '}'
  }

  lemma FindsExponent(e: Exponent, k: Chars)
    requires ExponentOk(e) && Follow(k)
    ensures ParseExponent(PutExponent(e, k)) == Good(e, k)
  {
    if e.Exp? {
      SpanFinds(e.digits, k, IsDigit);
      if e.sign.Cons? {
        assert Prepend(e.sign, Prepend(e.digits, k)) == Cons(e.sign.head, Prepend(Nil, Prepend(e.digits, k)));
      }
    }
  }

  lemma FindsFrac(f: Chars, k: Chars)
    requires All(f, IsDigit) && (k.Cons? ==> !IsDigit(k.head) && k.head != '.')
    ensures ParseFrac(PutFrac(f, k)) == Good(f, k)
  {
    if f.Cons? {
      SpanFinds(f, k, IsDigit);
    }
  }

  lemma FindsNumber(n: Number, k: Chars)
    requires NumberOk(n) && Follow(k)
    ensures var l := PutNumber(n, k); l.Cons? && (l.head == '-' || IsDigit(l.head)) && ParseNumber(l) == Good(n, k)
  {
    var k1 := PutExponent(n.exp, k);
    var k2 := PutFrac(n.frac, k1);
    FindsExponent(n.exp, k);
    FindsFrac(n.frac, k1);
    SpanFinds(n.whole, k2, IsDigit);
    assert n.whole.head == '0' ==> Prepend(n.whole, k2) == Cons('0', Prepend(Nil, k2));
  }

  // ----- values -----

  lemma FirstCharacter(c: Syntax, k: Chars)
    requires SyntaxOk(c)
    ensures Put(c, k).Cons?
    ensures !IsSpace(Put(c, k).head) && Put(c, k).head != ']' && Put(c, k).head != '}'
  {
    if c.SNum? {
      assert All(c.num.whole, IsDigit);
    }
  }

  /** An item does not look like the inside of an empty pair of brackets. */
  lemma NotEmpty(before: Chars, l: Chars, close: char)
    requires All(before, IsSpace) && l.Cons? && !IsSpace(l.head) && l.head != close
    ensures ParseEmpty(Prepend(before, l), close).Bad?
  {
    SpanFinds(before, l, IsSpace);
  }

  lemma FindsWord(c: Syntax, k: Chars)
    requires c.SNull? || c.STrue? || c.SFalse?
    ensures ParseValue(Put(c, k)) == Good(c, k)
  {
    assert ParseWord(Put(c, k)) == Good(c, k);
  }

  lemma FindsNumeral(n: Number, k: Chars)
    requires NumberOk(n) && Follow(k)
    ensures ParseValue(Put(SNum(n), k)) == Good(SNum(n), k)
  {
    FindsNumber(n, k);
  }

  lemma FindsString(ps: List<Piece>, k: Chars)
    requires PiecesOk(ps)
    ensures ParseValue(Put(SStr(ps), k)) == Good(SStr(ps), k)
  {
    FindsPieces(ps, k);
  }

  lemma FindsEmpty(c: Syntax, k: Chars)
    requires SyntaxOk(c) && (c.SEmptyArr? || c.SEmptyObj?)
    ensures ParseValue(Put(c, k)) == Good(c, k)
  {
    SpanFinds(c.gap, Cons(if c.SEmptyArr? then ']' else '}', k), IsSpace);
  }

  lemma {:induction false} FindsArray(es: Elems, k: Chars)
    requires ParseElems(PutElems(es, k)) == Good(es, k) && ParseEmpty(PutElems(es, k), ']').Bad?
    ensures ParseValue(Put(SArr(es), k)) == Good(SArr(es), k)
  {
    assert ParseArray(PutElems(es, k)) == Good(SArr(es), k);
  }

  lemma {:induction false} FindsObject(ms: Members, k: Chars)
    requires ParseMembers(PutMembers(ms, k)) == Good(ms, k) && ParseEmpty(PutMembers(ms, k), '}').Bad?
    ensures ParseValue(Put(SObj(ms), k)) == Good(SObj(ms), k)
  {
    assert ParseObject(PutMembers(ms, k)) == Good(SObj(ms), k);
  }

  lemma {:induction false} FindsValue(c: Syntax, k: Chars)
    requires SyntaxOk(c) && Follow(k)
    ensures ParseValue(Put(c, k)) == Good(c, k)
    decreases c, 0
  {
    match c {
      case SArr(es) =>
        FindsElems(es, k);
        FindsArray(es, k);
      case SObj(ms) =>
        FindsMembers(ms, k);
        FindsObject(ms, k);
      case SEmptyArr(_) => FindsEmpty(c, k);
      case SEmptyObj(_) => FindsEmpty(c, k);
      case SNum(n) => FindsNumeral(n, k);
      case SStr(ps) => FindsString(ps, k);
      case _ => FindsWord(c, k);
    }
  }

  lemma {:induction false} FindsItem(e: Item, k: Chars)
    requires ItemOk(e) && (k.Cons? ==> k.head == ',' || k.head == ']' || k.head == '}')
    ensures ParseItem(PutItem(e, k)) == Good(e, k)
    decreases e, 1
  {
    var k1 := Prepend(e.after, k);
    FindsValue(e.v, k1);
    FirstCharacter(e.v, k1);
    SpanFinds(e.before, Put(e.v, k1), IsSpace);
    SpanFinds(e.after, k, IsSpace);
  }

  lemma {:induction false} FindsElems(es: Elems, k: Chars)
    requires ElemsOk(es)
    ensures ParseElems(PutElems(es, k)) == Good(es, k)
    ensures ParseEmpty(PutElems(es, k), ']').Bad?
    decreases es, 2
  {
    var k1 := if es.LastElem? then Cons(']', k) else Cons(',', PutElems(es.rest, k));
    FindsItem(es.e, k1);
    if es.MoreElems? {
      FindsElems(es.rest, k);
    }
    FirstCharacter(es.e.v, Prepend(es.e.after, k1));
    NotEmpty(es.e.before, Put(es.e.v, Prepend(es.e.after, k1)), ']');
  }

  lemma FindsName(n: Name, k: Chars)
    requires NameOk(n)
    ensures ParseName(PutName(n, k)) == Good(n, k)
    ensures ParseEmpty(PutName(n, k), '}').Bad?
  {
    var k1 := Prepend(n.mid, Cons(':', k));
    FindsPieces(n.key, k1);
    SpanFinds(n.before, PutString(n.key, k1), IsSpace);
    SpanFinds(n.mid, Cons(':', k), IsSpace);
  }

  lemma {:induction false} FindsMembers(ms: Members, k: Chars)
    requires MembersOk(ms)
    ensures ParseMembers(PutMembers(ms, k)) == Good(ms, k)
    ensures ParseEmpty(PutMembers(ms, k), '}').Bad?
    decreases ms, 2
  {
    var k1 := if ms.LastMember? then Cons('}', k) else Cons(',', PutMembers(ms.rest, k));
    FindsName(ms.n, PutItem(ms.e, k1));
    FindsItem(ms.e, k1);
    if ms.MoreMembers? {
      FindsMembers(ms.rest, k);
    }
  }

  /** Every RFC 8259 text is accepted, and its tree is the one found: the grammar is unambiguous. */
  lemma CompleteDocument(d: Item)
    requires ItemOk(d)
    ensures ParseDocument(Text(d)) == Some(d)
  {
    FromToString(PutItem(d, Nil));
    FindsItem(d, Nil);
  }

  // ----- json.Unmarshal against the grammar -----

  /** `s` is an RFC 8259 text denoting `v`. */
  ghost predicate Denotes(s: string, v: Json) {
    exists d: Item :: ItemOk(d) && Text(d) == s && Denote(d.v) == Some(v)
  }

  /** Decoding yields exactly the value a text denotes. */
  lemma UnmarshalIsDenotation(s: string, v: Json)
    ensures Unmarshal(s) == Value(v) <==> Denotes(s, v)
  {
    if Unmarshal(s) == Value(v) {
      assert Denote(ParseDocument(s).value.v) == Some(v);
    }
    if Denotes(s, v) {
      var d: Item :| ItemOk(d) && Text(d) == s && Denote(d.v) == Some(v);
      CompleteDocument(d);
    }
  }

  /** Decoding fails on syntax exactly when the grammar has no tree for the text. */
  lemma MalformedIsNotJson(s: string)
    ensures Unmarshal(s) == Malformed <==> !exists d: Item :: ItemOk(d) && Text(d) == s
  {
    if d: Item :| ItemOk(d) && Text(d) == s {
      CompleteDocument(d);
    }
    if ParseDocument(s).Some? {
      assert Text(ParseDocument(s).value) == s;
    }
  }
}
