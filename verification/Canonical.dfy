/**
 The canonical printer of assert/snapshot: `marshalSorted` and `NormalizeJSON`.
 `CanonicalText` says what is printed; `Tree` is the syntax tree the printed text has, through
 which the printer meets the grammar and the reader.
 */
module Canonical {
  import opened Sorting
  import opened JsonSyntax
  import opened JsonParser
  import opened JsonComplete
  import opened Options

  // ----- json.Marshal on leaves -----

  function HexDigit(n: nat): (c: char)
    requires n < 16
    ensures IsHex(c) && HexDigitValue(c) == n
  {
    if n < 10 then n as char + '0' else (n - 10) as char + 'a'
  }

  /** How json.Marshal writes one character of a string, with HTML escaping on. */
  function EscapePiece(c: char): (p: Piece) {
    var n := c as int;
    if c == '\"' || c == '\\' then Short(c)
    else if n == 8 then Short('b')
    else if n == 12 then Short('f')
    else if c == '\n' then Short('n')
    else if c == '\r' then Short('r')
    else if c == '\t' then Short('t')
    else if c < ' ' || c == '<' || c == '>' || c == '&' then Hex('0', '0', HexDigit(n / 16), HexDigit(n % 16))
    else if n == 0x2028 || n == 0x2029 then Hex('2', '0', '2', HexDigit(n % 16))
    else Raw(c)
  }

  function EscapePieces(s: string): List<Piece> {
    if s == "" then Nil else Cons(EscapePiece(s[0]), EscapePieces(s[1..]))
  }

  function Quote(s: string): string {
    ToString(PutString(EscapePieces(s), Nil))
  }

  /** The decimal digits of `n` in front of `k`. */
  function Digits(n: nat, k: Chars): Chars {
    var d := (n % 10) as char + '0';
    if n < 10 then Cons(d, k) else Digits(n / 10, Cons(d, k))
  }

  function Literal(n: SafeInt): Number {
    Number(n < 0, Digits(if n < 0 then 0 - n else n, Nil), Nil, NoExp)
  }

  function MarshalLeaf(v: Json): string
    requires !v.Arr? && !v.Obj?
  {
    match v
    case Null => "null"
    case Bool(b) => if b then "true" else "false"
    case Num(n) => ToString(PutNumber(Literal(n), Nil))
    case Str(s) => Quote(s)
  }

  // ----- what is printed -----

  /** Every element of `keys` names a member of the object `v`. */
  ghost predicate Names(v: Json, keys: seq<string>) {
    v.Obj? && forall i :: 0 <= i < |keys| ==> keys[i] in v.m
  }

  /** The sorted names of an object. */
  ghost function NamesOf(v: Json): (keys: seq<string>)
    requires v.Obj?
    ensures Names(v, keys)
  {
    var keys := SortedKeys(v.m.Keys);
    assert forall i :: 0 <= i < |keys| ==> keys[i] in Elements(keys);
    keys
  }

  ghost function CanonicalText(v: Json): string
    decreases v, 1, 0
  {
    match v
    case Arr(xs) => "[" + CanonicalElems(xs) + "]"
    case Obj(m) => "{" + CanonicalMembers(v, NamesOf(v)) + "}"
    case _ => MarshalLeaf(v)
  }

  ghost function CanonicalElems(xs: seq<Json>): string
    decreases xs, 0, 0
  {
    if xs == [] then ""
    else CanonicalText(xs[0]) + (if |xs| == 1 then "" else "," + CanonicalElems(xs[1..]))
  }

  ghost function CanonicalMembers(v: Json, keys: seq<string>): string
    requires Names(v, keys)
    decreases v, 0, |keys|
  {
    if keys == [] then ""
    else
      Quote(keys[0]) + ":" + CanonicalText(v.m[keys[0]]) +
      (if |keys| == 1 then "" else "," + CanonicalMembers(v, keys[1..]))
  }

  // ----- the loops of marshalSorted -----

  ghost function RestElems(xs: seq<Json>, i: nat): string
    requires i <= |xs|
  {
    if i == |xs| then "" else (if i > 0 then "," else "") + CanonicalElems(xs[i..])
  }

  ghost function RestMembers(v: Json, keys: seq<string>, i: nat): string
    requires Names(v, keys) && i <= |keys|
  {
    if i == |keys| then "" else (if i > 0 then "," else "") + CanonicalMembers(v, keys[i..])
  }

  lemma Regroup(buf: string, comma: string, one: string, rest: string)
    ensures buf + (comma + (one + rest)) == ((buf + comma) + one) + rest
  {
    assert comma + (one + rest) == (comma + one) + rest;
    assert buf + ((comma + one) + rest) == (buf + (comma + one)) + rest;
    assert buf + (comma + one) == (buf + comma) + one;
  }

  lemma NextElem(xs: seq<Json>, i: nat)
    requires i < |xs|
    ensures RestElems(xs, i) == (if i > 0 then "," else "") + (CanonicalText(xs[i]) + RestElems(xs, i + 1))
  {
    assert xs[i..][1..] == xs[i + 1..];
  }

  lemma NextMember(v: Json, keys: seq<string>, i: nat)
    requires Names(v, keys) && i < |keys|
    ensures RestMembers(v, keys, i) ==
            (if i > 0 then "," else "") + (Quote(keys[i]) + ":" + CanonicalText(v.m[keys[i]]) + RestMembers(v, keys, i + 1))
  {
    assert keys[i..][1..] == keys[i + 1..];
    assert keys[i..][0] == keys[i];
  }

  /** marshalSorted: every order the map iterates in gives the same text. */
  method MarshalSorted(v: Json) returns (out: string)
    ensures out == CanonicalText(v)
    decreases v, 1
  {
    match v {
      case Obj(_) => out := MarshalObject(v);
      case Arr(_) => out := MarshalArray(v);
      case _ => out := MarshalLeaf(v);
    }
  }

  /** The keys of a map, gathered in any order and sorted. */
  method SortedKeyList(v: Json) returns (keys: seq<string>)
    requires v.Obj?
    ensures keys == NamesOf(v)
  {
    var gathered := Gather(v.m.Keys);
    keys := SortStrings(gathered);
    SortingAnyListing(gathered);
  }

  method MarshalObject(v: Json) returns (out: string)
    requires v.Obj?
    ensures out == CanonicalText(v)
    decreases v, 0
  {
    var keys := SortedKeyList(v);
    var buf := "{";
    ghost var whole := buf + CanonicalMembers(v, keys);
    assert RestMembers(v, keys, 0) == CanonicalMembers(v, keys) by {
      assert keys[0..] == keys;
    }
    for i := 0 to |keys|
      invariant buf + RestMembers(v, keys, i) == whole
    {
      var k := keys[i];
      StepMember(v, keys, i, buf);
      if i > 0 {
        buf := buf + ",";
      }
      var value := MarshalSorted(v.m[k]);
      buf := buf + Quote(k) + ":" + value;
    }
    assert buf + "" == buf;
    out := buf + "}";
  }

  method MarshalArray(v: Json) returns (out: string)
    requires v.Arr?
    ensures out == CanonicalText(v)
    decreases v, 0
  {
    var buf := "[";
    assert v.xs[0..] == v.xs;
    for i := 0 to |v.xs|
      invariant buf + RestElems(v.xs, i) == "[" + CanonicalElems(v.xs)
    {
      NextElem(v.xs, i);
      ghost var before := buf;
      if i > 0 {
        buf := buf + ",";
      }
      var value := MarshalSorted(v.xs[i]);
      buf := buf + value;
      Regroup(before, if i > 0 then "," else "", value, RestElems(v.xs, i + 1));
    }
    out := buf + "]";
  }

  /** Writing one member moves it from what is left to the buffer. */
  lemma StepMember(v: Json, keys: seq<string>, i: nat, buf: string)
    requires Names(v, keys) && i < |keys|
    ensures var comma := if i > 0 then buf + "," else buf;
            buf + RestMembers(v, keys, i)
            == (((comma + Quote(keys[i])) + ":") + CanonicalText(v.m[keys[i]])) + RestMembers(v, keys, i + 1)
  {
    NextMember(v, keys, i);
    RegroupMember(buf, if i > 0 then "," else "", Quote(keys[i]), CanonicalText(v.m[keys[i]]), RestMembers(v, keys, i + 1));
    assert buf + "" == buf;
  }

  lemma RegroupMember(buf: string, comma: string, key: string, value: string, rest: string)
    ensures buf + (comma + (key + ":" + value + rest)) == ((((buf + comma) + key) + ":") + value) + rest
  {
    Regroup(buf, comma, key + ":" + value, rest);
    assert ((buf + comma) + (key + ":" + value)) == (((buf + comma) + key) + ":") + value by {
      assert (key + ":") + value == key + (":" + value);
    }
  }

  // ----- the syntax tree of the printed text -----

  function Bare(c: Syntax): Item {
    Item(Nil, c, Nil)
  }

  ghost function Tree(v: Json): Syntax
    decreases v, 1, 0
  {
    match v
    case Null => SNull
    case Bool(b) => if b then STrue else SFalse
    case Num(n) => SNum(Literal(n))
    case Str(s) => SStr(EscapePieces(s))
    case Arr(xs) => if xs == [] then SEmptyArr(Nil) else SArr(TreeElems(xs))
    case Obj(m) => if m == map[] then SEmptyObj(Nil) else SObj(TreeMembers(v, NamesOf(v)))
  }

  ghost function TreeElems(xs: seq<Json>): Elems
    requires xs != []
    decreases xs, 0, 0
  {
    if |xs| == 1 then LastElem(Bare(Tree(xs[0]))) else MoreElems(Bare(Tree(xs[0])), TreeElems(xs[1..]))
  }

  ghost function TreeMembers(v: Json, keys: seq<string>): Members
    requires Names(v, keys) && keys != []
    decreases v, 0, |keys|
  {
    var n, e := Name(Nil, EscapePieces(keys[0]), Nil), Bare(Tree(v.m[keys[0]]));
    if |keys| == 1 then LastMember(n, e) else MoreMembers(n, e, TreeMembers(v, keys[1..]))
  }

  lemma KeysOf(v: Json)
    requires v.Obj?
    ensures var keys := NamesOf(v);
            && Distinct(keys)
            && (forall k :: k in keys <==> k in v.m)
            && (v.m == map[] <==> keys == [])
  {
    var keys := NamesOf(v);
    StrictlyOrderedIsOrdered(keys);
    assert forall k :: k in keys <==> k in Elements(keys);
    assert keys != [] ==> keys[0] in Elements(keys);
    if v.m != map[] {
      assert v.m.Keys != {};
      var k :| k in v.m.Keys;
      assert k in Elements(keys);
    }
  }

  // ----- the tree spells the printed text -----

  lemma {:induction false} PrependString(w: Chars, k: Chars)
    ensures ToString(Prepend(w, k)) == ToString(w) + ToString(k)
  {
    if w.Cons? {
      PrependString(w.tail, k);
    }
  }

  lemma PutPiecePrepend(p: Piece, w: Chars, k: Chars)
    ensures PutPiece(p, Prepend(w, k)) == Prepend(PutPiece(p, w), k)
  {
    if p.Hex? {
      var w1 := Cons(p.c1, Cons(p.d, w));
      assert Prepend(w1, k) == Cons(p.c1, Cons(p.d, Prepend(w, k)));
      var w2 := Cons(p.a, Cons(p.b, w1));
      assert Prepend(w2, k) == Cons(p.a, Cons(p.b, Prepend(w1, k)));
    }
  }

  lemma {:induction false} PutPiecesString(ps: List<Piece>, k: Chars)
    ensures PutPieces(ps, k) == Prepend(PutPieces(ps, Nil), k)
  {
    if ps.Cons? {
      PutPiecesString(ps.tail, k);
      PutPiecePrepend(ps.head, PutPieces(ps.tail, Nil), k);
    }
  }

  lemma QuoteSpelled(s: string, k: Chars)
    ensures ToString(PutString(EscapePieces(s), k)) == Quote(s) + ToString(k)
  {
    PutPiecesString(EscapePieces(s), k);
    PrependString(PutString(EscapePieces(s), Nil), k);
  }

  lemma LiteralSpelled(n: SafeInt, k: Chars)
    ensures ToString(PutNumber(Literal(n), k)) == MarshalLeaf(Num(n)) + ToString(k)
  {
    var w := Literal(n).whole;
    PrependString(w, k);
    PrependString(w, Nil);
    assert ToString(w) + "" == ToString(w);
    if n < 0 {
      assert "-" + (ToString(w) + ToString(k)) == ("-" + ToString(w)) + ToString(k);
    }
  }

  lemma Wrap(open: string, body: string, close: string, k: string)
    ensures open + ((body + close) + k) == (open + body + close) + k
  {
    assert open + ((body + close) + k) == (open + (body + close)) + k;
    assert open + (body + close) == (open + body) + close;
  }

  lemma {:induction false} TreeSpelled(v: Json, k: Chars)
    ensures ToString(Put(Tree(v), k)) == CanonicalText(v) + ToString(k)
    decreases v, 1, 0
  {
    match v {
      case Null => FourSpelled('n', 'u', 'l', 'l', k);
      case Bool(b) =>
        if b {
          FourSpelled('t', 'r', 'u', 'e', k);
        } else {
          FourSpelled('a', 'l', 's', 'e', k);
          assert "f" + ("alse" + ToString(k)) == "false" + ToString(k);
        }
      case Num(n) => LiteralSpelled(n, k);
      case Str(s) => QuoteSpelled(s, k);
      case Arr(xs) => ArraySpelled(v, k);
      case Obj(m) => ObjectSpelled(v, k);
    }
  }

  lemma FourSpelled(a: char, b: char, c: char, d: char, k: Chars)
    ensures ToString(Cons(a, Cons(b, Cons(c, Cons(d, k))))) == [a, b, c, d] + ToString(k)
  {
    assert ToString(Cons(c, Cons(d, k))) == [c, d] + ToString(k);
    assert [a] + ([b] + ([c, d] + ToString(k))) == [a, b, c, d] + ToString(k);
  }

  lemma {:induction false} ArraySpelled(v: Json, k: Chars)
    requires v.Arr?
    ensures ToString(Put(Tree(v), k)) == CanonicalText(v) + ToString(k)
    decreases v, 0, 0
  {
    var body := if v.xs == [] then Cons(']', k) else PutElems(TreeElems(v.xs), k);
    assert Put(Tree(v), k) == Cons('[', body);
    if v.xs != [] {
      ElemsSpelled(v.xs, k);
    }
    Wrap("[", CanonicalElems(v.xs), "]", ToString(k));
  }

  lemma {:induction false} ObjectSpelled(v: Json, k: Chars)
    requires v.Obj?
    ensures ToString(Put(Tree(v), k)) == CanonicalText(v) + ToString(k)
    decreases v, 0, |NamesOf(v)| + 1
  {
    KeysOf(v);
    var keys := NamesOf(v);
    var body := if keys == [] then Cons('}', k) else PutMembers(TreeMembers(v, keys), k);
    assert Put(Tree(v), k) == Cons('{', body);
    if keys != [] {
      MembersSpelled(v, keys, k);
    }
    Wrap("{", CanonicalMembers(v, keys), "}", ToString(k));
  }

  /** The rest of an array after its first element. */
  ghost function AfterElem(xs: seq<Json>, k: Chars): Chars
    requires xs != []
  {
    if |xs| == 1 then Cons(']', k) else Cons(',', PutElems(TreeElems(xs[1..]), k))
  }

  lemma PutFirstElem(xs: seq<Json>, k: Chars)
    requires xs != []
    ensures PutElems(TreeElems(xs), k) == Put(Tree(xs[0]), AfterElem(xs, k))
  {
  }

  lemma {:induction false} ElemsSpelled(xs: seq<Json>, k: Chars)
    requires xs != []
    ensures ToString(PutElems(TreeElems(xs), k)) == (CanonicalElems(xs) + "]") + ToString(k)
    decreases xs, 0, 0
  {
    TreeSpelled(xs[0], AfterElem(xs, k));
    PutFirstElem(xs, k);
    if |xs| > 1 {
      ElemsSpelled(xs[1..], k);
    }
    CloseElem(xs, k);
  }

  lemma CloseElem(xs: seq<Json>, k: Chars)
    requires xs != []
    requires |xs| > 1 ==> ToString(PutElems(TreeElems(xs[1..]), k)) == (CanonicalElems(xs[1..]) + "]") + ToString(k)
    ensures CanonicalText(xs[0]) + ToString(AfterElem(xs, k)) == (CanonicalElems(xs) + "]") + ToString(k)
  {
    if |xs| > 1 {
      RegroupTail(CanonicalText(xs[0]), CanonicalElems(xs[1..]), "]", ToString(k));
    } else {
      Wrap(CanonicalText(xs[0]), "", "]", ToString(k));
    }
  }

  lemma RegroupTail(one: string, more: string, close: string, k: string)
    ensures one + ("," + ((more + close) + k)) == ((one + ("," + more)) + close) + k
  {
    assert "," + ((more + close) + k) == (("," + more) + close) + k;
    assert one + ((("," + more) + close) + k) == (one + (("," + more) + close)) + k;
    assert one + (("," + more) + close) == (one + ("," + more)) + close;
  }

  /** The rest of an object after one of its members. */
  ghost function AfterMember(v: Json, keys: seq<string>, k: Chars): Chars
    requires Names(v, keys) && keys != []
  {
    if |keys| == 1 then Cons('}', k) else Cons(',', PutMembers(TreeMembers(v, keys[1..]), k))
  }

  lemma PutFirstMember(v: Json, keys: seq<string>, k: Chars)
    requires Names(v, keys) && keys != []
    ensures PutMembers(TreeMembers(v, keys), k)
            == PutString(EscapePieces(keys[0]), Cons(':', Put(Tree(v.m[keys[0]]), AfterMember(v, keys, k))))
  {
  }

  lemma {:induction false} MembersSpelled(v: Json, keys: seq<string>, k: Chars)
    requires Names(v, keys) && keys != []
    ensures ToString(PutMembers(TreeMembers(v, keys), k)) == (CanonicalMembers(v, keys) + "}") + ToString(k)
    decreases v, 0, |keys|
  {
    var rest := AfterMember(v, keys, k);
    var value := v.m[keys[0]];
    TreeSpelled(value, rest);
    PutFirstMember(v, keys, k);
    OneMemberSpelled(keys[0], Tree(value), CanonicalText(value), rest);
    if |keys| > 1 {
      MembersSpelled(v, keys[1..], k);
    }
    CloseMember(v, keys, k);
  }

  lemma CloseMember(v: Json, keys: seq<string>, k: Chars)
    requires Names(v, keys) && keys != []
    requires |keys| > 1
             ==> ToString(PutMembers(TreeMembers(v, keys[1..]), k)) == (CanonicalMembers(v, keys[1..]) + "}") + ToString(k)
    ensures (Quote(keys[0]) + ":" + CanonicalText(v.m[keys[0]])) + ToString(AfterMember(v, keys, k))
            == (CanonicalMembers(v, keys) + "}") + ToString(k)
  {
    var one := Quote(keys[0]) + ":" + CanonicalText(v.m[keys[0]]);
    if |keys| > 1 {
      RegroupTail(one, CanonicalMembers(v, keys[1..]), "}", ToString(k));
    } else {
      Wrap(one, "", "}", ToString(k));
    }
  }

  lemma OneMemberSpelled(key: string, c: Syntax, text: string, rest: Chars)
    requires ToString(Put(c, rest)) == text + ToString(rest)
    ensures ToString(PutString(EscapePieces(key), Cons(':', Put(c, rest)))) == (Quote(key) + ":" + text) + ToString(rest)
  {
    QuoteSpelled(key, Cons(':', Put(c, rest)));
    MemberSpelled(Quote(key), text, ToString(rest));
  }

  lemma MemberSpelled(key: string, value: string, rest: string)
    ensures key + ([':'] + (value + rest)) == (key + ":" + value) + rest
  {
    assert [':'] + (value + rest) == (":" + value) + rest;
    assert key + ((":" + value) + rest) == (key + (":" + value)) + rest;
    assert key + (":" + value) == key + ":" + value;
  }

  /** The printed text is the text of its tree. */
  lemma CanonicalIsText(v: Json)
    ensures CanonicalText(v) == Text(Bare(Tree(v)))
  {
    TreeSpelled(v, Nil);
    assert CanonicalText(v) + "" == CanonicalText(v);
  }

  // ----- the tree denotes the printed value -----

  lemma {:induction false} EscapeRoundTrip(s: string)
    ensures PiecesOk(EscapePieces(s)) && PiecesValue(EscapePieces(s)) == s
  {
    if s != "" {
      EscapeRoundTrip(s[1..]);
      EscapeOne(s[0]);
      assert s == [s[0]] + s[1..];
    }
  }

  /** No escape the printer writes is a surrogate, so escapes never pair up. */
  lemma EscapeOne(c: char)
    ensures PieceOk(EscapePiece(c))
    ensures EscapePiece(c).Raw? ==> EscapePiece(c).c == c
    ensures EscapePiece(c).Short? ==> ShortValue(EscapePiece(c).letter) == c
    ensures EscapePiece(c).Hex? ==> HexValue(EscapePiece(c)) == c as int && HexValue(EscapePiece(c)) < 0xD800
  {
  }

  lemma {:induction false} DigitsRoundTrip(n: nat, k: Chars)
    requires All(k, IsDigit)
    ensures All(Digits(n, k), IsDigit) && DigitsFrom(0, Digits(n, k)) == DigitsFrom(n, k)
    ensures Digits(n, k).Cons? && (n > 0 ==> Digits(n, k).head != '0')
    decreases n
  {
    var d := (n % 10) as char + '0';
    assert IsDigit(d) && DigitValue(d) == n % 10;
    var l := Cons(d, k);
    assert All(l, IsDigit) && l.head == d && l.tail == k;
    var high := n / 10;
    assert high * 10 + DigitValue(d) == n;
    assert DigitsFrom(high, l) == DigitsFrom(high * 10 + DigitValue(d), k);
    if n < 10 {
      assert Digits(n, k) == l && high == 0;
    } else {
      assert Digits(n, k) == Digits(high, l);
      DigitsRoundTrip(high, l);
    }
  }

  lemma LiteralRoundTrip(n: SafeInt)
    ensures NumberOk(Literal(n)) && NumberValue(Literal(n)) == Some(n)
  {
    var size := if n < 0 then 0 - n else n;
    DigitsRoundTrip(size, Nil);
    assert DigitsFrom(0, Literal(n).whole) == size;
    assert PowerOfTen(0) == 1 && size * 1 == size;
  }

  lemma {:induction false} TreeDenotes(v: Json)
    ensures SyntaxOk(Tree(v)) && Denote(Tree(v)) == Some(v)
    decreases v, 1, 0
  {
    match v {
      case Null =>
      case Bool(_) =>
      case Num(n) => LiteralRoundTrip(n);
      case Str(s) => EscapeRoundTrip(s);
      case Arr(xs) =>
        if xs != [] {
          ElemsDenote(xs);
        }
      case Obj(m) =>
        KeysOf(v);
        if m != map[] {
          var keys := NamesOf(v);
          MembersDenote(v, keys);
          assert (map k | k in keys :: m[k]) == m;
        }
    }
  }

  lemma {:induction false} ElemsDenote(xs: seq<Json>)
    requires xs != []
    ensures ElemsOk(TreeElems(xs)) && DenoteElems(TreeElems(xs)) == Some(xs)
    decreases xs, 0, 0
  {
    TreeDenotes(xs[0]);
    if |xs| > 1 {
      ElemsDenote(xs[1..]);
      assert xs == [xs[0]] + xs[1..];
    } else {
      assert xs == [xs[0]];
    }
  }

  lemma {:induction false} MembersDenote(v: Json, keys: seq<string>)
    requires Names(v, keys) && keys != [] && Distinct(keys)
    ensures MembersOk(TreeMembers(v, keys))
    ensures DenoteMembers(TreeMembers(v, keys)) == Some(map k | k in keys :: v.m[k])
    decreases v, 0, |keys|
  {
    TreeDenotes(v.m[keys[0]]);
    EscapeRoundTrip(keys[0]);
    RestrictHead(v.m, keys);
    if |keys| > 1 {
      MembersDenote(v, keys[1..]);
    }
  }

  lemma RestrictHead(m: map<string, Json>, keys: seq<string>)
    requires keys != [] && Distinct(keys) && forall i :: 0 <= i < |keys| ==> keys[i] in m
    ensures |keys| == 1 ==> (map k | k in keys :: m[k]) == map[keys[0] := m[keys[0]]]
    ensures (map k | k in keys :: m[k]) == map[keys[0] := m[keys[0]]] + map k | k in keys[1..] :: m[k]
  {
    assert forall k :: k in keys <==> k == keys[0] || k in keys[1..];
    assert keys[0] !in keys[1..];
  }

  // ----- main results -----

  /** What `marshalSorted` prints, the decoder reads back to the same value, consuming all of it. */
  lemma RoundTrip(v: Json)
    ensures Unmarshal(CanonicalText(v)) == Value(v)
  {
    CanonicalIsText(v);
    TreeDenotes(v);
    CompleteDocument(Bare(Tree(v)));
  }

  /** Different values never print alike. */
  lemma CanonicalInjective(v: Json, w: Json)
    ensures CanonicalText(v) == CanonicalText(w) <==> v == w
  {
    RoundTrip(v);
    RoundTrip(w);
  }

  datatype Normalized = Normal(text: string) | Rejected | Unmodelled

  ghost function NormalForm(raw: string): Normalized {
    match Unmarshal(raw)
    case Malformed => Rejected
    case OutOfRange => Unmodelled
    case Value(v) => Normal(CanonicalText(v))
  }

  method NormalizeJSON(raw: string) returns (r: Normalized)
    ensures r == NormalForm(raw)
  {
    match Unmarshal(raw) {
      case Malformed => r := Rejected;
      case OutOfRange => r := Unmodelled;
      case Value(v) =>
        var text := MarshalSorted(v);
        r := Normal(text);
    }
  }

  lemma CanonicalIsNormal(v: Json)
    ensures NormalForm(CanonicalText(v)) == Normal(CanonicalText(v))
  {
    RoundTrip(v);
  }

  /** A text that is not its own normal form: a printed one with a space before it. */
  lemma PaddedIsNotNormal(v: Json)
    ensures NormalForm(" " + CanonicalText(v)) == Normal(CanonicalText(v))
  {
    var d := Item(Cons(' ', Nil), Tree(v), Nil);
    CanonicalIsText(v);
    TreeDenotes(v);
    assert PutItem(d, Nil) == Cons(' ', PutItem(Bare(Tree(v)), Nil));
    assert Text(d) == " " + CanonicalText(v);
    CompleteDocument(d);
  }

  /** A normal form is its own normal form. */
  lemma NormalFormIdempotent(raw: string)
    requires NormalForm(raw).Normal?
    ensures NormalForm(NormalForm(raw).text) == NormalForm(raw)
  {
    CanonicalIsNormal(Unmarshal(raw).v);
  }

  /**
   Normal forms decide equality of values: two texts, each denoting a value, normalize
   alike exactly when the values are the same. White space, member order, escapes and
   number spelling never matter; a difference in value always does.
   */
  lemma NormalFormDecides(a: string, b: string, v: Json, w: Json)
    requires Denotes(a, v) && Denotes(b, w)
    ensures NormalForm(a).Normal? && NormalForm(b).Normal?
    ensures NormalForm(a) == NormalForm(b) <==> v == w
  {
    UnmarshalIsDenotation(a, v);
    UnmarshalIsDenotation(b, w);
    CanonicalInjective(v, w);
  }

  // ----- the shape of a normal form -----

  /** No white space anywhere, and every object's names strictly increasing. */
  ghost predicate Tight(c: Syntax) {
    match c
    case SEmptyArr(gap) => gap.Nil?
    case SEmptyObj(gap) => gap.Nil?
    case SArr(es) => TightElems(es)
    case SObj(ms) => TightMembers(ms)
    case _ => true
  }

  ghost predicate TightItem(e: Item) {
    e.before.Nil? && Tight(e.v) && e.after.Nil?
  }

  ghost predicate TightElems(es: Elems) {
    TightItem(es.e) && (es.MoreElems? ==> TightElems(es.rest))
  }

  ghost predicate TightMembers(ms: Members) {
    && ms.n.before.Nil? && ms.n.mid.Nil? && PiecesOk(ms.n.key) && TightItem(ms.e)
    && (ms.MoreMembers? ==>
          && TightMembers(ms.rest)
          && Less(PiecesValue(ms.n.key), PiecesValue(ms.rest.n.key)))
  }

  lemma {:induction false} TreeTight(v: Json)
    ensures Tight(Tree(v))
    decreases v, 1, 0
  {
    if v.Arr? && v.xs != [] {
      TreeElemsTight(v.xs);
    } else if v.Obj? && v.m != map[] {
      KeysOf(v);
      TreeMembersTight(v, NamesOf(v));
    }
  }

  lemma {:induction false} TreeElemsTight(xs: seq<Json>)
    requires xs != []
    ensures TightElems(TreeElems(xs))
    decreases xs, 0, 0
  {
    TreeTight(xs[0]);
    if |xs| > 1 {
      TreeElemsTight(xs[1..]);
    }
  }

  lemma {:induction false} TreeMembersTight(v: Json, keys: seq<string>)
    requires Names(v, keys) && keys != [] && StrictlyOrdered(keys)
    ensures TightMembers(TreeMembers(v, keys))
    ensures TreeMembers(v, keys).n.key == EscapePieces(keys[0])
    decreases v, 0, |keys|
  {
    TreeTight(v.m[keys[0]]);
    EscapeRoundTrip(keys[0]);
    if |keys| > 1 {
      TreeMembersTight(v, keys[1..]);
      EscapeRoundTrip(keys[1]);
      assert Less(keys[0], keys[1]);
    }
  }

  /** A normal form has keys sorted at every level and no insignificant white space. */
  lemma NormalFormTight(raw: string)
    requires NormalForm(raw).Normal?
    ensures exists d: Item :: ItemOk(d) && TightItem(d) && Text(d) == NormalForm(raw).text
  {
    var v := Unmarshal(raw).v;
    CanonicalIsText(v);
    TreeDenotes(v);
    TreeTight(v);
    assert TightItem(Bare(Tree(v)));
  }
}
