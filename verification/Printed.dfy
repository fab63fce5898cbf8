/**
 The characters of a printed document: which ones can stand in it, what each character of a
 string is written as, and the digits of a number. `Written` is the table of json.Marshal, escape
 by escape, with HTML escaping on.
 */
module Printed {
  import opened JsonSyntax
  import opened JsonMeaning
  import opened Canonical
  import opened Concatenation

  function Written(c: char): string {
    match c
    case '\"' => "\\\""
    case '\\' => "\\\\"
    case '\U{0008}' => "\\b"
    case '\U{000C}' => "\\f"
    case '\n' => "\\n"
    case '\r' => "\\r"
    case '\t' => "\\t"
    case '<' => "\\u003c"
    case '>' => "\\u003e"
    case '&' => "\\u0026"
    case '\U{2028}' => "\\u2028"
    case '\U{2029}' => "\\u2029"
    case _ => if c < ' ' then "\\u00" + [LOWER[c as int / 16], LOWER[c as int % 16]] else [c]
  }

  /** A character that is written as it is. */
  predicate Plain(c: char) {
    c >= ' ' && c !in "\"\\<>&\U{2028}\U{2029}"
  }

  lemma PlainWritten(c: char)
    ensures Plain(c) <==> Written(c) == [c]
  {
  }

  lemma HexWritten(a: char, b: char, c: char, d: char)
    ensures ToString(PutPiece(Hex(a, b, c, d), Nil)) == "\\u" + [a, b, c, d]
  {
    FourSpelled(a, b, c, d, Nil);
    assert ToString(Cons('u', Cons(a, Cons(b, Cons(c, Cons(d, Nil)))))) == "u" + ([a, b, c, d] + "");
  }

  lemma ShortWritten(l: char)
    ensures ToString(PutPiece(Short(l), Nil)) == "\\" + [l]
  {
    assert ToString(Cons(l, Nil)) == [l] + "";
  }

  lemma ShortGroup(c: char)
    requires EscapePiece(c).Short?
    ensures Written(c) == "\\" + [EscapePiece(c).letter]
  {
  }

  lemma HexGroup(c: char)
    requires EscapePiece(c).Hex?
    ensures var p := EscapePiece(c); Written(c) == "\\u" + [p.a, p.b, p.c1, p.d]
  {
    assert c < ' ' ==> LowerDigit(c as int / 16) && LowerDigit(c as int % 16);
  }

  predicate LowerDigit(n: nat)
    requires n < 16
  {
    HexDigit(n) == LOWER[n]
  }

  /** The printer's escape of a character is the one in the table. */
  lemma PieceWritten(c: char)
    ensures ToString(PutPiece(EscapePiece(c), Nil)) == Written(c)
  {
    match EscapePiece(c) {
      case Raw(_) =>
      case Short(l) =>
        ShortWritten(l);
        ShortGroup(c);
      case Hex(a, b, c1, d) =>
        HexWritten(a, b, c1, d);
        HexGroup(c);
    }
  }

  lemma {:induction false} EscapesWritten(s: string, k: Chars)
    ensures ToString(PutPieces(EscapePieces(s), k)) == WrittenAll(s) + ToString(Cons('\"', k))
  {
    if s != "" {
      var rest := PutPieces(EscapePieces(s[1..]), k);
      EscapesWritten(s[1..], k);
      PutPiecePrepend(EscapePiece(s[0]), Nil, rest);
      PrependString(PutPiece(EscapePiece(s[0]), Nil), rest);
      PieceWritten(s[0]);
      Assoc(Written(s[0]), WrittenAll(s[1..]), ToString(Cons('\"', k)));
    }
  }

  /** What the characters of a string are written as, one after the other. */
  ghost function WrittenAll(s: string): string {
    if s == "" then "" else Written(s[0]) + WrittenAll(s[1..])
  }

  lemma QuoteWritten(s: string)
    ensures Quote(s) == "\"" + WrittenAll(s) + "\""
  {
    EscapesWritten(s, Nil);
    assert ToString(Cons('\"', Nil)) == "\"";
    Assoc("\"", WrittenAll(s), "\"");
  }

  lemma {:induction false} PlainAll(s: string)
    requires forall i :: 0 <= i < |s| ==> Plain(s[i])
    ensures WrittenAll(s) == s
  {
    if s != "" {
      assert Plain(s[0]);
      PlainWritten(s[0]);
      PlainAll(s[1..]);
      assert s == [s[0]] + s[1..];
    }
  }

  /** A string of plain characters is printed as itself between quotes. */
  lemma PlainQuoted(s: string)
    requires forall i :: 0 <= i < |s| ==> Plain(s[i])
    ensures Quote(s) == "\"" + s + "\""
  {
    PlainAll(s);
    QuoteWritten(s);
  }

  // ----- what never stands in a printed document -----

  predicate Clean(c: char) {
    c >= ' ' && c !in "<>&\U{2028}\U{2029}"
  }

  predicate AllClean(s: string) {
    forall i :: 0 <= i < |s| ==> Clean(s[i])
  }

  lemma CleanConcat(a: string, b: string)
    requires AllClean(a) && AllClean(b)
    ensures AllClean(a + b)
  {
  }

  lemma WrittenClean(c: char)
    ensures AllClean(Written(c))
  {
    if c < ' ' {
      assert Clean(LOWER[c as int / 16]) && Clean(LOWER[c as int % 16]);
    }
  }

  lemma {:induction false} WrittenAllClean(s: string)
    ensures AllClean(WrittenAll(s))
  {
    if s != "" {
      WrittenClean(s[0]);
      WrittenAllClean(s[1..]);
      CleanConcat(Written(s[0]), WrittenAll(s[1..]));
    }
  }

  lemma QuoteClean(s: string)
    ensures AllClean(Quote(s))
  {
    WrittenAllClean(s);
    QuoteWritten(s);
  }

  // ----- numbers -----

  /** An integer is printed as its decimal digits, the first not zero unless it is the only one. */
  lemma NumberPrinted(n: SafeInt)
    ensures exists w: Chars :: WholeOk(w) && Decimal(w) == (if n < 0 then 0 - n else n)
                               && CanonicalText(Num(n)) == (if n < 0 then "-" else "") + ToString(w)
  {
    LiteralRoundTrip(n);
    var w := Literal(n).whole;
    var size := if n < 0 then 0 - n else n;
    DigitsRoundTrip(size, Nil);
    ReadsDecimal(0, w);
    assert ToString(PutNumber(Literal(n), Nil)) == (if n < 0 then "-" else "") + ToString(w) by {
      PrependString(w, Nil);
      assert ToString(w) + "" == ToString(w);
    }
  }

  lemma {:induction false} DigitsClean(w: Chars)
    requires All(w, IsDigit)
    ensures AllClean(ToString(w))
  {
    if w.Cons? {
      DigitsClean(w.tail);
    }
  }

  lemma LeafClean(v: Json)
    requires !v.Arr? && !v.Obj?
    ensures AllClean(CanonicalText(v))
  {
    match v {
      case Num(n) =>
        NumberPrinted(n);
        var w: Chars :| WholeOk(w) && Decimal(w) == (if n < 0 then 0 - n else n)
                        && CanonicalText(Num(n)) == (if n < 0 then "-" else "") + ToString(w);
        DigitsClean(w);
      case Str(s) => QuoteClean(s);
      case _ =>
    }
  }

  // ----- whole documents -----

  /**
   No control character, no line or paragraph separator and none of the three characters special
   to HTML stands anywhere in a printed document.
   */
  lemma {:induction false} CanonicalClean(v: Json)
    ensures AllClean(CanonicalText(v))
    decreases v, 1, 0
  {
    match v {
      case Arr(xs) =>
        ElemsClean(xs);
        Bracketed("[", CanonicalElems(xs), "]");
      case Obj(m) =>
        MembersClean(v, NamesOf(v));
        Bracketed("{", CanonicalMembers(v, NamesOf(v)), "}");
      case _ => LeafClean(v);
    }
  }

  lemma Bracketed(a: string, b: string, c: string)
    requires AllClean(a) && AllClean(b) && AllClean(c)
    ensures AllClean(a + b + c)
  {
    CleanConcat(a, b);
    CleanConcat(a + b, c);
  }

  lemma {:induction false} ElemsClean(xs: seq<Json>)
    ensures AllClean(CanonicalElems(xs))
    decreases xs, 0, 0
  {
    if xs != [] {
      CanonicalClean(xs[0]);
      ElemsClean(xs[1..]);
      CleanConcat(",", CanonicalElems(xs[1..]));
      var rest := if |xs| == 1 then "" else "," + CanonicalElems(xs[1..]);
      CleanConcat(CanonicalText(xs[0]), rest);
    }
  }

  lemma {:induction false} MembersClean(v: Json, keys: seq<string>)
    requires Names(v, keys)
    ensures AllClean(CanonicalMembers(v, keys))
    decreases v, 0, |keys|
  {
    if keys != [] {
      QuoteClean(keys[0]);
      CanonicalClean(v.m[keys[0]]);
      MembersClean(v, keys[1..]);
      CleanConcat(",", CanonicalMembers(v, keys[1..]));
      var rest := if |keys| == 1 then "" else "," + CanonicalMembers(v, keys[1..]);
      Bracketed(Quote(keys[0]), ":", CanonicalText(v.m[keys[0]]));
      CleanConcat(Quote(keys[0]) + ":" + CanonicalText(v.m[keys[0]]), rest);
    }
  }
}
