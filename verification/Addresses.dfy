/** How Terraform writes the address of a resource in the root module of a plan. */
module Addresses {

  datatype Index = Whole | Counted(digits: string) | Keyed(escaped: string)

  /** A resource of the root module: `type.name`, with `data.` before it, an index behind it, or both. */
  datatype Address = Address(data: bool, kind: string, name: string, index: Index)

  /** Letters, digits, `_` and `-`; every character outside ASCII is let through. */
  predicate IdentifierChar(c: char) {
    'a' <= c <= 'z' || 'A' <= c <= 'Z' || '0' <= c <= '9' || c == '_' || c == '-' || c as int >= 0x80
  }

  predicate Identifier(s: string) {
    s == "" || (IdentifierChar(s[0]) && Identifier(s[1..]))
  }

  predicate Digits(s: string) {
    s == "" || ('0' <= s[0] <= '9' && Digits(s[1..]))
  }

  /** Inside double quotes: a quote or backslash of the key has a backslash before it. */
  predicate Escaped(s: string) {
    if s == "" then true
    else if s[0] == '\\' then |s| > 1 && Escaped(s[2..])
    else s[0] != '\"' && Escaped(s[1..])
  }

  predicate AddressOk(a: Address) {
    && a.kind != "" && Identifier(a.kind) && a.name != "" && Identifier(a.name)
    && match a.index
       case Whole => true
       case Counted(digits) => digits != "" && Digits(digits)
       case Keyed(escaped) => Escaped(escaped)
  }

  function IndexText(index: Index): string {
    match index
    case Whole => ""
    case Counted(digits) => "[" + (digits + "]")
    case Keyed(escaped) => "[\"" + (escaped + "\"]")
  }

  function AddressText(a: Address): string {
    (if a.data then "data." else "") + (a.kind + ("." + (a.name + IndexText(a.index))))
  }

  /** Where a reader of addresses is: outside quotes, inside, after a backslash, or past a bare colon. */
  datatype Scan = Outside | Inside | Backslash | Colon

  function Next(st: Scan, c: char): Scan {
    match st
    case Outside => if c == ':' then Colon else if c == '\"' then Inside else Outside
    case Inside => if c == '\"' then Outside else if c == '\\' then Backslash else Inside
    case Backslash => Inside
    case Colon => Colon
  }

  function Reads(st: Scan, s: string): Scan
    decreases s
  {
    if s == "" then st else Reads(Next(st, s[0]), s[1..])
  }

  lemma {:induction false} ReadsConcat(st: Scan, a: string, b: string)
    ensures Reads(st, a + b) == Reads(Reads(st, a), b)
    decreases a
  {
    if a == "" {
      assert a + b == b;
    } else {
      assert (a + b)[1..] == a[1..] + b;
      ReadsConcat(Next(st, a[0]), a[1..], b);
    }
  }

  lemma {:induction false} ColonStays(s: string)
    ensures Reads(Colon, s) == Colon
  {
    if s != "" {
      ColonStays(s[1..]);
    }
  }

  lemma {:induction false} IdentifierStaysOutside(s: string)
    requires Identifier(s) || Digits(s)
    ensures Reads(Outside, s) == Outside
  {
    if s != "" {
      IdentifierStaysOutside(s[1..]);
    }
  }

  lemma {:induction false} EscapedStaysInside(s: string)
    requires Escaped(s)
    ensures Reads(Inside, s) == Inside
  {
    if s != "" {
      if s[0] == '\\' {
        assert s[1..][1..] == s[2..];
        EscapedStaysInside(s[2..]);
      } else {
        EscapedStaysInside(s[1..]);
      }
    }
  }

  lemma {:induction false} IndexEndsOutside(index: Index)
    requires match index
             case Whole => true
             case Counted(digits) => Digits(digits)
             case Keyed(escaped) => Escaped(escaped)
    ensures Reads(Outside, IndexText(index)) == Outside
  {
    match index {
      case Whole =>
      case Counted(digits) =>
        ReadsConcat(Outside, "[", digits + "]");
        ReadsConcat(Outside, digits, "]");
        IdentifierStaysOutside(digits);
      case Keyed(escaped) =>
        ReadsConcat(Outside, "[\"", escaped + "\"]");
        ReadsConcat(Inside, escaped, "\"]");
        EscapedStaysInside(escaped);
    }
  }

  /** An address has no colon outside quotes, and closes its quotes. */
  lemma {:induction false} AddressEndsOutside(a: Address)
    requires AddressOk(a)
    ensures Reads(Outside, AddressText(a)) == Outside
  {
    var rest := "." + (a.name + IndexText(a.index));
    ReadsConcat(Outside, if a.data then "data." else "", a.kind + rest);
    ReadsConcat(Outside, a.kind, rest);
    ReadsConcat(Outside, ".", a.name + IndexText(a.index));
    ReadsConcat(Outside, a.name, IndexText(a.index));
    IdentifierStaysOutside(a.kind);
    IdentifierStaysOutside(a.name);
    IndexEndsOutside(a.index);
    DataStaysOutside();
  }

  lemma {:induction false} DataStaysOutside()
    ensures Reads(Outside, "data.") == Outside
  {
  }

  ghost predicate IsAddress(s: string) {
    exists a :: AddressOk(a) && s == AddressText(a)
  }

  lemma {:induction false} TagNotInside(a: string, tag: string, b: string)
    requires Reads(Outside, a) == Outside && Reads(Outside, b) == Outside && Reads(Outside, tag) == Colon
    ensures !(a + tag <= b)
  {
    if a + tag <= b {
      var m := b[|a + tag|..];
      assert b == (a + tag) + m;
      ReadsConcat(Outside, a + tag, m);
      ReadsConcat(Outside, a, tag);
      ColonStays(m);
    }
  }

  lemma {:induction false} InlineHasColon()
    ensures Reads(Outside, ".inline:") == Colon
  {
  }

  lemma {:induction false} ManagedHasColon()
    ensures Reads(Outside, ".managed:") == Colon
  {
  }

  /** No address goes on as another one followed by the tag of a policy. */
  lemma {:induction false} NeverExtended(a: string, b: string)
    requires IsAddress(a) && IsAddress(b)
    ensures !(a + ".inline:" <= b) && !(a + ".managed:" <= b)
  {
    var x :| AddressOk(x) && a == AddressText(x);
    var y :| AddressOk(y) && b == AddressText(y);
    AddressEndsOutside(x);
    AddressEndsOutside(y);
    InlineHasColon();
    ManagedHasColon();
    TagNotInside(a, ".inline:", b);
    TagNotInside(a, ".managed:", b);
  }
}
