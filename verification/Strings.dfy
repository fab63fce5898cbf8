/** The pieces of Go's `strings` package the modelled code uses. */
module Strings {

  // ----- Split and Join -----

  /** strings.Split with a one-character separator */
  function Split(s: string, sep: char): (parts: seq<string>)
    ensures parts != []
  {
    if s == "" then [""]
    else
      var rest := Split(s[1..], sep);
      if s[0] == sep then [""] + rest else [[s[0]] + rest[0]] + rest[1..]
  }

  function Join(parts: seq<string>, sep: char): string {
    if parts == [] then "" else if |parts| == 1 then parts[0] else parts[0] + ([sep] + Join(parts[1..], sep))
  }

  predicate Without(s: string, c: char) {
    s == "" || (s[0] != c && Without(s[1..], c))
  }

  predicate AllWithout(parts: seq<string>, c: char) {
    parts == [] || (Without(parts[0], c) && AllWithout(parts[1..], c))
  }

  lemma {:induction false} WithoutAt(s: string, c: char)
    ensures Without(s, c) <==> forall i :: 0 <= i < |s| ==> s[i] != c
  {
    if s != "" {
      WithoutAt(s[1..], c);
      assert forall i :: 0 < i < |s| ==> s[i] == s[1..][i - 1];
      if forall i :: 0 <= i < |s| ==> s[i] != c {
        assert s[0] != c;
        assert forall i :: 0 <= i < |s[1..]| ==> s[1..][i] == s[i + 1];
      }
    }
  }

  /** Splitting loses nothing, and no part holds the separator. */
  lemma {:induction false} SplitThenJoin(s: string, sep: char)
    ensures Join(Split(s, sep), sep) == s && AllWithout(Split(s, sep), sep)
  {
    if s != "" {
      SplitThenJoin(s[1..], sep);
      var rest := Split(s[1..], sep);
      var parts := Split(s, sep);
      assert s == [s[0]] + s[1..];
      if s[0] == sep {
        assert parts[1..] == rest;
        assert "" + ([sep] + s[1..]) == s;
      } else {
        assert parts[1..] == rest[1..];
        assert ([s[0]] + rest[0])[1..] == rest[0];
        if |rest| > 1 {
          assert ([s[0]] + rest[0]) + ([sep] + Join(rest[1..], sep)) == [s[0]] + (rest[0] + ([sep] + Join(rest[1..], sep)));
        }
      }
    }
  }

  /** Parts without the separator come back from their join. */
  lemma {:induction false} JoinThenSplit(parts: seq<string>, sep: char)
    requires parts != [] && AllWithout(parts, sep)
    ensures Split(Join(parts, sep), sep) == parts
    decreases |parts|, |parts[0]|
  {
    var head, tail := parts[0], parts[1..];
    var rest := if tail == [] then "" else [sep] + Join(tail, sep);
    assert Join(parts, sep) == head + rest;
    assert parts == [head] + tail;
    if head == "" {
      assert head + rest == rest;
      if tail != [] {
        JoinThenSplit(tail, sep);
        assert rest[1..] == Join(tail, sep);
      }
    } else {
      var shorter := [head[1..]] + tail;
      assert shorter[1..] == tail;
      assert Join(shorter, sep) == head[1..] + rest;
      JoinThenSplit(shorter, sep);
      assert (head + rest)[1..] == head[1..] + rest && (head + rest)[0] == head[0];
      assert head == [head[0]] + head[1..];
    }
  }

  // ----- TrimSpace -----

  /** White space as unicode.IsSpace knows it. */
  predicate IsUnicodeSpace(c: char) {
    var n := c as int;
    9 <= n <= 13 || n == 0x20 || n == 0x85 || n == 0xA0 || n == 0x1680 || 0x2000 <= n <= 0x200A
    || n == 0x2028 || n == 0x2029 || n == 0x202F || n == 0x205F || n == 0x3000
  }

  /** The white space of Unicode, character by character. */
  lemma WhiteSpace(c: char)
    ensures IsUnicodeSpace(c) <==>
            || c in "\t\n\U{000B}\U{000C}\r \U{0085}\U{00A0}\U{1680}\U{2028}\U{2029}\U{202F}\U{205F}\U{3000}"
            || c in "\U{2000}\U{2001}\U{2002}\U{2003}\U{2004}\U{2005}\U{2006}\U{2007}\U{2008}\U{2009}\U{200A}"
  {
  }

  predicate Blank(s: string) {
    s == "" || (IsUnicodeSpace(s[0]) && Blank(s[1..]))
  }

  function TrimLeft(s: string): string {
    if s != "" && IsUnicodeSpace(s[0]) then TrimLeft(s[1..]) else s
  }

  function TrimRight(s: string): string {
    if s != "" && IsUnicodeSpace(s[|s| - 1]) then TrimRight(s[..|s| - 1]) else s
  }

  function TrimSpace(s: string): string {
    TrimRight(TrimLeft(s))
  }

  lemma {:induction false} TrimLeftBlank(w: string, s: string)
    requires Blank(w)
    ensures TrimLeft(w + s) == TrimLeft(s)
  {
    if w == "" {
      assert w + s == s;
    } else {
      assert (w + s)[1..] == w[1..] + s;
      TrimLeftBlank(w[1..], s);
    }
  }

  lemma {:induction false} TrimLeftPadded(s: string, w: string)
    requires Blank(w)
    ensures if Blank(s) then TrimLeft(s + w) == "" && TrimLeft(s) == "" else TrimLeft(s + w) == TrimLeft(s) + w
  {
    if s == "" {
      assert s + w == w && w + "" == w;
      TrimLeftBlank(w, "");
    } else if IsUnicodeSpace(s[0]) {
      assert (s + w)[1..] == s[1..] + w;
      TrimLeftPadded(s[1..], w);
    }
  }

  lemma {:induction false} BlankLast(w: string)
    requires Blank(w) && w != ""
    ensures IsUnicodeSpace(w[|w| - 1]) && Blank(w[..|w| - 1])
  {
    if |w| > 1 {
      BlankLast(w[1..]);
      assert w[1..][..|w| - 2] == w[..|w| - 1][1..];
    }
  }

  lemma {:induction false} TrimRightBlank(s: string, w: string)
    requires Blank(w)
    ensures TrimRight(s + w) == TrimRight(s)
    decreases |w|
  {
    if w == "" {
      assert s + w == s;
    } else {
      BlankLast(w);
      assert (s + w)[..|s + w| - 1] == s + w[..|w| - 1];
      TrimRightBlank(s, w[..|w| - 1]);
    }
  }

  /** Blank padding on either side does not survive trimming. */
  lemma TrimPadding(w: string, s: string, v: string)
    requires Blank(w) && Blank(v)
    ensures TrimSpace(w + (s + v)) == TrimSpace(s)
  {
    TrimLeftBlank(w, s + v);
    TrimLeftPadded(s, v);
    if !Blank(s) {
      TrimRightBlank(TrimLeft(s), v);
    }
  }

  /** A text that neither begins nor ends with a space is left alone. */
  lemma TrimNothing(s: string)
    requires s == "" || (!IsUnicodeSpace(s[0]) && !IsUnicodeSpace(s[|s| - 1]))
    ensures TrimSpace(s) == s
  {
  }

  /** Only a blank text trims to nothing. */
  lemma TrimEmptyIff(s: string)
    ensures TrimSpace(s) == "" <==> Blank(s)
  {
    TrimLeftEmptyIff(s);
    TrimLeftFirst(s);
    TrimRightKeepsFirst(TrimLeft(s));
    if TrimLeft(s) != "" {
      TrimRightNonempty(TrimLeft(s));
    }
  }

  lemma {:induction false} TrimLeftEmptyIff(s: string)
    ensures TrimLeft(s) == "" <==> Blank(s)
  {
    if s != "" && IsUnicodeSpace(s[0]) {
      TrimLeftEmptyIff(s[1..]);
    }
  }

  lemma {:induction false} TrimRightNonempty(s: string)
    requires s != "" && !IsUnicodeSpace(s[0])
    ensures TrimRight(s) != ""
    decreases |s|
  {
    if IsUnicodeSpace(s[|s| - 1]) {
      TrimRightNonempty(s[..|s| - 1]);
    }
  }

  lemma TrimmedEnds(s: string)
    ensures var t := TrimSpace(s); t == "" || (!IsUnicodeSpace(t[0]) && !IsUnicodeSpace(t[|t| - 1]))
  {
    TrimLeftFirst(s);
    TrimRightKeepsFirst(TrimLeft(s));
  }

  lemma {:induction false} TrimLeftFirst(s: string)
    ensures TrimLeft(s) == "" || !IsUnicodeSpace(TrimLeft(s)[0])
  {
    if s != "" && IsUnicodeSpace(s[0]) {
      TrimLeftFirst(s[1..]);
    }
  }

  lemma {:induction false} TrimRightKeepsFirst(s: string)
    ensures var t := TrimRight(s); t == "" || (t[0] == s[0] && !IsUnicodeSpace(t[|t| - 1]))
    decreases |s|
  {
    if s != "" && IsUnicodeSpace(s[|s| - 1]) {
      TrimRightKeepsFirst(s[..|s| - 1]);
    }
  }
}
