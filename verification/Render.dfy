/** docgen's Markdown tables, and a reader that gets the markers back out of them. */
module Render {
  import Concatenation
  import opened Options
  import opened Sorting
  import opened JsonSyntax
  import Canonical
  import Strings
  import opened Docgen

  // ----- cells -----

  /** ReplaceAll(s, "|", `\|`) */
  function EscapePipes(s: string): string {
    if s == "" then "" else (if s[0] == '|' then "\\|" else [s[0]]) + EscapePipes(s[1..])
  }

  /** ReplaceAll(s, `\|`, "|") */
  function UnescapePipes(s: string): string {
    if s == "" then ""
    else if |s| > 1 && s[0] == '\\' && s[1] == '|' then "|" + UnescapePipes(s[2..])
    else [s[0]] + UnescapePipes(s[1..])
  }

  lemma {:induction false} UnescapeEscape(s: string)
    ensures UnescapePipes(EscapePipes(s)) == s
    ensures EscapePipes(s) == "" || EscapePipes(s)[0] != '|'
  {
    if s != "" {
      UnescapeEscape(s[1..]);
      var e := EscapePipes(s[1..]);
      assert s == [s[0]] + s[1..];
      if s[0] == '|' {
        assert ("\\|" + e)[2..] == e;
      } else {
        assert ([s[0]] + e)[1..] == e;
      }
    }
  }

  /** A Markdown row cut at its pipes; a pipe after a backslash does not cut. */
  function Cells(s: string, escaped: bool): (r: seq<string>)
    ensures r != []
  {
    if s == "" then [""]
    else
      var rest := Cells(s[1..], s[0] == '\\');
      if s[0] == '|' && !escaped then [""] + rest else [[s[0]] + rest[0]] + rest[1..]
  }

  function BarePipes(s: string, escaped: bool): nat {
    if s == "" then 0 else (if s[0] == '|' && !escaped then 1 else 0) + BarePipes(s[1..], s[0] == '\\')
  }

  lemma {:induction false} CellCount(s: string, escaped: bool)
    ensures |Cells(s, escaped)| == 1 + BarePipes(s, escaped)
  {
    if s != "" {
      CellCount(s[1..], s[0] == '\\');
    }
  }

  predicate EndsEscaped(s: string, escaped: bool) {
    if s == "" then escaped else s[|s| - 1] == '\\'
  }

  lemma {:induction false} BarePipesConcat(a: string, b: string, escaped: bool)
    ensures BarePipes(a + b, escaped) == BarePipes(a, escaped) + BarePipes(b, EndsEscaped(a, escaped))
  {
    if a == "" {
      assert a + b == b;
    } else {
      assert (a + b)[1..] == a[1..] + b;
      BarePipesConcat(a[1..], b, a[0] == '\\');
    }
  }

  lemma {:induction false} FirstCell(a: string, rest: string, escaped: bool)
    requires BarePipes(a, escaped) == 0 && !EndsEscaped(a, escaped)
    ensures Cells(a + ("|" + rest), escaped) == [a] + Cells(rest, false)
  {
    if a == "" {
      assert a + ("|" + rest) == "|" + rest;
      assert ("|" + rest)[1..] == rest;
    } else {
      assert (a + ("|" + rest))[1..] == a[1..] + ("|" + rest);
      FirstCell(a[1..], rest, a[0] == '\\');
      assert a == [a[0]] + a[1..];
    }
  }

  lemma {:induction false} EscapedHasNoBarePipe(s: string, escaped: bool)
    ensures BarePipes(EscapePipes(s), escaped) == 0
  {
    if s != "" {
      var e := EscapePipes(s[1..]);
      if s[0] == '|' {
        EscapedHasNoBarePipe(s[1..], false);
        assert ("\\|" + e)[1..] == "|" + e && ("|" + e)[1..] == e;
      } else {
        EscapedHasNoBarePipe(s[1..], s[0] == '\\');
        assert ([s[0]] + e)[1..] == e;
      }
    }
  }

  // ----- tags -----

  function Bold(t: string): string {
    "**" + t + "**"
  }

  function BoldAll(tags: seq<string>): (r: seq<string>)
    ensures |r| == |tags| && forall i :: 0 <= i < |tags| ==> r[i] == Bold(tags[i])
  {
    seq(|tags|, i requires 0 <= i < |tags| => Bold(tags[i]))
  }

  function TagsCell(tags: seq<string>): string {
    Strings.Join(BoldAll(SortStrings(tags)), ' ')
  }

  method FormatTags(tags: seq<string>) returns (r: string)
    ensures r == TagsCell(tags)
  {
    var sorted := SortStrings(tags);
    var parts := new string[|sorted|];
    for i := 0 to |sorted|
      invariant forall j :: 0 <= j < i ==> parts[j] == Bold(sorted[j])
    {
      parts[i] := "**" + sorted[i] + "**";
    }
    assert parts[..] == BoldAll(sorted);
    return Strings.Join(parts[..], ' ');
  }

  function ReadTags(cell: string): seq<string> {
    if cell == "" then []
    else
      var parts := Strings.Split(cell, ' ');
      seq(|parts|, i requires 0 <= i < |parts| => if |parts[i]| >= 4 then parts[i][2..|parts[i]| - 2] else "")
  }

  lemma {:induction false} WithoutConcat(a: string, b: string, c: char)
    ensures Strings.Without(a + b, c) <==> Strings.Without(a, c) && Strings.Without(b, c)
  {
    if a == "" {
      assert a + b == b;
    } else {
      assert (a + b)[1..] == a[1..] + b;
      WithoutConcat(a[1..], b, c);
    }
  }

  lemma {:induction false} AllWithoutAt(parts: seq<string>, c: char)
    ensures Strings.AllWithout(parts, c) <==> forall i :: 0 <= i < |parts| ==> Strings.Without(parts[i], c)
  {
    if parts != [] {
      AllWithoutAt(parts[1..], c);
      assert forall i :: 0 < i < |parts| ==> parts[i] == parts[1..][i - 1];
      if forall i :: 0 <= i < |parts| ==> Strings.Without(parts[i], c) {
        assert forall i :: 0 <= i < |parts[1..]| ==> parts[1..][i] == parts[i + 1];
      }
    }
  }

  lemma BoldWithoutSpace(tags: seq<string>, i: nat)
    requires i < |SortStrings(tags)| && forall k :: 0 <= k < |tags| ==> Strings.Without(tags[k], ' ')
    ensures Strings.Without(Bold(SortStrings(tags)[i]), ' ')
  {
    var sorted := SortStrings(tags);
    assert sorted[i] in multiset(sorted);
    assert sorted[i] in multiset(tags);
    WithoutConcat("**", sorted[i], ' ');
    WithoutConcat("**" + sorted[i], "**", ' ');
  }

  lemma Unbold(t: string)
    ensures |Bold(t)| >= 4 && Bold(t)[2..|Bold(t)| - 2] == t
  {
  }

  lemma ReadBold(tags: seq<string>)
    requires tags != [] && Strings.AllWithout(BoldAll(tags), ' ')
    ensures ReadTags(Strings.Join(BoldAll(tags), ' ')) == tags
  {
    var bold := BoldAll(tags);
    Strings.JoinThenSplit(bold, ' ');
    forall i | 0 <= i < |tags|
      ensures |bold[i]| >= 4 && bold[i][2..|bold[i]| - 2] == tags[i]
    {
      Unbold(tags[i]);
    }
  }

  lemma {:induction false} TagsRoundTrip(tags: seq<string>)
    requires forall i :: 0 <= i < |tags| ==> Strings.Without(tags[i], ' ')
    ensures ReadTags(TagsCell(tags)) == SortStrings(tags)
  {
    var sorted := SortStrings(tags);
    forall i | 0 <= i < |sorted|
      ensures Strings.Without(BoldAll(sorted)[i], ' ')
    {
      BoldWithoutSpace(tags, i);
    }
    AllWithoutAt(BoldAll(sorted), ' ');
    if sorted != [] {
      ReadBold(sorted);
    }
  }

  // ----- line numbers -----

  function Itoa(n: int): string {
    (if n < 0 then "-" else "") + ToString(Canonical.Digits(if n < 0 then 0 - n else n, Nil))
  }

  function Atoi(s: string): int {
    if s != "" && s[0] == '-' then 0 - Magnitude(s[1..]) else Magnitude(s)
  }

  function Magnitude(s: string): nat {
    if All(FromString(s), IsDigit) then DigitsFrom(0, FromString(s)) else 0
  }

  lemma ItoaRoundTrip(n: int)
    ensures Atoi(Itoa(n)) == n && Strings.Without(Itoa(n), ':')
  {
    var l := Canonical.Digits(if n < 0 then 0 - n else n, Nil);
    Canonical.DigitsRoundTrip(if n < 0 then 0 - n else n, Nil);
    FromToString(l);
    DigitsHaveNoColon(l);
    if n < 0 {
      assert Itoa(n)[1..] == ToString(l);
    } else {
      assert Itoa(n) == ToString(l);
      assert ToString(l)[0] == l.head;
    }
  }

  lemma {:induction false} DigitsHaveNoColon(l: Chars)
    requires All(l, IsDigit)
    ensures Strings.Without(ToString(l), ':')
  {
    if l.Cons? {
      DigitsHaveNoColon(l.tail);
      assert ToString(l)[1..] == ToString(l.tail);
    }
  }

  /** What follows the last colon. */
  function AfterColon(s: string): (r: string)
    ensures |r| <= |s|
  {
    if s == "" || s[|s| - 1] == ':' then ""
    else AfterColon(s[..|s| - 1]) + [s[|s| - 1]]
  }

  lemma {:induction false} WithoutLast(s: string, c: char)
    requires Strings.Without(s, c) && s != ""
    ensures s[|s| - 1] != c && Strings.Without(s[..|s| - 1], c)
  {
    if |s| > 1 {
      WithoutLast(s[1..], c);
      assert s[..|s| - 1][1..] == s[1..][..|s| - 2];
    }
  }

  lemma DropLast(file: string, line: string)
    requires line != ""
    ensures var s := file + (":" + line);
            s[..|s| - 1] == file + (":" + line[..|line| - 1]) && s[|s| - 1] == line[|line| - 1]
    ensures line == line[..|line| - 1] + [line[|line| - 1]]
  {
  }

  lemma {:induction false} AfterLastColon(file: string, line: string)
    requires Strings.Without(line, ':')
    ensures AfterColon(file + (":" + line)) == line
    decreases |line|
  {
    if line == "" {
      assert (file + (":" + line))[|file|] == ':';
    } else {
      WithoutLast(line, ':');
      DropLast(file, line);
      AfterLastColon(file, line[..|line| - 1]);
    }
  }

  // ----- rows -----

  function Symbol(e: Entry): string {
    if e.receiver != "" then e.receiver + "." + e.name else e.name
  }

  /** Read back at its full stop, a symbol is the receiver, if there is one, and the name. */
  lemma SymbolReads(e: Entry)
    requires Strings.Without(e.receiver, '.') && Strings.Without(e.name, '.')
    ensures Strings.Split(Symbol(e), '.') == if e.receiver == "" then [e.name] else [e.receiver, e.name]
  {
    var parts := if e.receiver == "" then [e.name] else [e.receiver, e.name];
    assert Strings.Join([e.name], '.') == e.name;
    assert [e.receiver, e.name][1..] == [e.name];
    Concatenation.Assoc(e.receiver, ".", e.name);
    assert Strings.Join(parts, '.') == Symbol(e);
    Strings.JoinThenSplit(parts, '.');
  }

  function Source(e: Entry): string {
    e.file + (":" + Itoa(e.line))
  }

  /** One row, as the format string of the table spells it, without its line end. */
  function Row(e: Entry): string {
    "| `" + (Symbol(e) + ("` | `" + (e.package + ("` | " + (TagsCell(e.tags) + (" | " + (EscapePipes(e.reason) +
    (" | `" + (Source(e) + "` |")))))))))
  }

  function Code(s: string): string {
    " `" + (s + "` ")
  }

  function Plain(s: string): string {
    " " + (s + " ")
  }

  function Bars(cells: seq<string>): string {
    if cells == [] then "" else cells[0] + ("|" + Bars(cells[1..]))
  }

  function RowCells(e: Entry): seq<string> {
    [Code(Symbol(e)), Code(e.package), Plain(TagsCell(e.tags)), Plain(EscapePipes(e.reason)), Code(Source(e))]
  }

  lemma Separators(rest: string)
    ensures "| `" + rest == "|" + (" `" + rest)
    ensures "` | `" + rest == "` " + ("|" + (" `" + rest))
    ensures "` | " + rest == "` " + ("|" + (" " + rest))
    ensures " | " + rest == " " + ("|" + (" " + rest))
    ensures " | `" + rest == " " + ("|" + (" `" + rest))
  {
  }

  lemma CodeThen(x: string, rest: string)
    ensures " `" + (x + ("` " + rest)) == Code(x) + rest
  {
    Concatenation.AssocMiddle(" `", x, "` ", rest);
  }

  lemma PlainThen(x: string, rest: string)
    ensures " " + (x + (" " + rest)) == Plain(x) + rest
  {
    Concatenation.AssocMiddle(" ", x, " ", rest);
  }

  lemma BarsStep(cells: seq<string>, i: nat)
    requires i < |cells|
    ensures Bars(cells[i..]) == cells[i] + ("|" + Bars(cells[i + 1..]))
  {
    assert cells[i..][1..] == cells[i + 1..];
  }

  lemma LastCells(e: Entry)
    ensures " `" + (Source(e) + "` |") == Bars(RowCells(e)[4..])
  {
    var c := RowCells(e);
    BarsStep(c, 4);
    assert "` |" == "` " + ("|" + "");
    CodeThen(Source(e), "|" + "");
  }

  lemma ReasonCell(e: Entry, rest: string)
    ensures " " + (EscapePipes(e.reason) + (" | `" + rest)) == Plain(EscapePipes(e.reason)) + ("|" + (" `" + rest))
  {
    Separators(rest);
    PlainThen(EscapePipes(e.reason), "|" + (" `" + rest));
  }

  lemma TagCell(e: Entry, rest: string)
    ensures " " + (TagsCell(e.tags) + (" | " + rest)) == Plain(TagsCell(e.tags)) + ("|" + (" " + rest))
  {
    Separators(rest);
    PlainThen(TagsCell(e.tags), "|" + (" " + rest));
  }

  lemma PackageCell(e: Entry, rest: string)
    ensures " `" + (e.package + ("` | " + rest)) == Code(e.package) + ("|" + (" " + rest))
  {
    Separators(rest);
    CodeThen(e.package, "|" + (" " + rest));
  }

  lemma SymbolCell(e: Entry, rest: string)
    ensures "| `" + (Symbol(e) + ("` | `" + rest)) == "|" + (Code(Symbol(e)) + ("|" + (" `" + rest)))
  {
    Separators(rest);
    Separators(Symbol(e) + ("` | `" + rest));
    CodeThen(Symbol(e), "|" + (" `" + rest));
  }

  /** The format string puts each of the five cells between bars. */
  lemma RowIsCells(e: Entry)
    ensures Row(e) == "|" + Bars(RowCells(e))
  {
    var c := RowCells(e);
    var r4 := Source(e) + "` |";
    var r3 := EscapePipes(e.reason) + (" | `" + r4);
    var r2 := TagsCell(e.tags) + (" | " + r3);
    var r1 := e.package + ("` | " + r2);
    LastCells(e);
    ReasonCell(e, r4);
    BarsStep(c, 3);
    TagCell(e, r3);
    BarsStep(c, 2);
    PackageCell(e, r2);
    BarsStep(c, 1);
    SymbolCell(e, r1);
    BarsStep(c, 0);
    assert c[0..] == c;
  }

  // ----- exactly five cells -----

  /** No pipe in it would cut a row. */
  predicate Unbroken(s: string) {
    BarePipes(s, false) == 0
  }

  predicate Closed(cells: seq<string>) {
    cells == [] || (!EndsEscaped(cells[0], false) && Closed(cells[1..]))
  }

  function CutsIn(cells: seq<string>): nat {
    if cells == [] then 0 else BarePipes(cells[0], false) + CutsIn(cells[1..])
  }

  lemma {:induction false} CountBars(cells: seq<string>)
    requires Closed(cells)
    ensures BarePipes(Bars(cells), false) == |cells| + CutsIn(cells)
  {
    if cells != [] {
      var rest := "|" + Bars(cells[1..]);
      BarePipesConcat(cells[0], rest, false);
      assert rest[1..] == Bars(cells[1..]);
      CountBars(cells[1..]);
    }
  }

  lemma {:induction false} CellsOfBars(cells: seq<string>)
    requires Closed(cells) && CutsIn(cells) == 0
    ensures Cells(Bars(cells), false) == cells + [""]
  {
    if cells != [] {
      FirstCell(cells[0], Bars(cells[1..]), false);
      CellsOfBars(cells[1..]);
    }
  }

  lemma CellPipes(x: string)
    ensures BarePipes(Code(x), false) == BarePipes(Plain(x), false) == BarePipes(x, false)
    ensures !EndsEscaped(Code(x), false) && !EndsEscaped(Plain(x), false)
  {
    BarePipesConcat(" `", x + "` ", false);
    BarePipesConcat(x, "` ", false);
    BarePipesConcat(" ", x + " ", false);
    BarePipesConcat(x, " ", false);
    assert " `"[1..] == "`" && "` "[1..] == " ";
  }

  predicate UnbrokenAll(parts: seq<string>) {
    parts == [] || (Unbroken(parts[0]) && UnbrokenAll(parts[1..]))
  }

  lemma {:induction false} UnbrokenAllAt(parts: seq<string>)
    ensures UnbrokenAll(parts) <==> forall i :: 0 <= i < |parts| ==> Unbroken(parts[i])
  {
    if parts != [] {
      UnbrokenAllAt(parts[1..]);
      assert forall i :: 0 < i < |parts| ==> parts[i] == parts[1..][i - 1];
      if forall i :: 0 <= i < |parts| ==> Unbroken(parts[i]) {
        assert forall i :: 0 <= i < |parts[1..]| ==> parts[1..][i] == parts[i + 1];
      }
    }
  }

  lemma BoldPipes(t: string)
    ensures BarePipes(Bold(t), false) == BarePipes(t, false) && !EndsEscaped(Bold(t), false)
  {
    BarePipesConcat("**" + t, "**", false);
    BarePipesConcat("**", t, false);
    assert "**"[1..] == "*";
  }

  lemma {:induction false} JoinedPipes(tags: seq<string>)
    ensures Unbroken(Strings.Join(BoldAll(tags), ' ')) <==> UnbrokenAll(tags)
  {
    if tags != [] {
      BoldPipes(tags[0]);
      JoinedPipes(tags[1..]);
      var bold := BoldAll(tags);
      assert bold[1..] == BoldAll(tags[1..]);
      if |tags| > 1 {
        var rest := [' '] + Strings.Join(bold[1..], ' ');
        BarePipesConcat(bold[0], rest, false);
        assert rest[1..] == Strings.Join(bold[1..], ' ');
      }
    }
  }

  lemma TagsPipes(tags: seq<string>)
    ensures Unbroken(TagsCell(tags)) <==> forall i :: 0 <= i < |tags| ==> Unbroken(tags[i])
  {
    var sorted := SortStrings(tags);
    JoinedPipes(sorted);
    UnbrokenAllAt(sorted);
    forall i | 0 <= i < |tags| ensures tags[i] in sorted {
      assert tags[i] in multiset(tags);
      assert tags[i] in multiset(sorted);
    }
    forall i | 0 <= i < |sorted| ensures sorted[i] in tags {
      assert sorted[i] in multiset(sorted);
      assert sorted[i] in multiset(tags);
    }
  }

  lemma SourcePipes(e: Entry)
    ensures BarePipes(Source(e), false) == BarePipes(e.file, false)
  {
    var l := Canonical.Digits(if e.line < 0 then 0 - e.line else e.line, Nil);
    Canonical.DigitsRoundTrip(if e.line < 0 then 0 - e.line else e.line, Nil);
    DigitsHaveNoPipe(l, false);
    BarePipesConcat(e.file, ":" + Itoa(e.line), false);
    assert (":" + Itoa(e.line))[1..] == Itoa(e.line);
    BarePipesConcat(if e.line < 0 then "-" else "", ToString(l), false);
  }

  lemma {:induction false} DigitsHaveNoPipe(l: Chars, escaped: bool)
    requires All(l, IsDigit)
    ensures BarePipes(ToString(l), escaped) == 0
  {
    if l.Cons? {
      DigitsHaveNoPipe(l.tail, false);
      assert ToString(l)[1..] == ToString(l.tail);
    }
  }

  /** No field but the reason, which is escaped, holds a pipe that would cut the row. */
  ghost predicate Tabular(e: Entry) {
    Unbroken(Symbol(e)) && Unbroken(e.package) && (forall i :: 0 <= i < |e.tags| ==> Unbroken(e.tags[i])) && Unbroken(e.file)
  }

  lemma CutsFrom(cells: seq<string>, i: nat)
    requires i < |cells| && !EndsEscaped(cells[i], false) && Closed(cells[i + 1..])
    ensures Closed(cells[i..]) && CutsIn(cells[i..]) == BarePipes(cells[i], false) + CutsIn(cells[i + 1..])
  {
    assert cells[i..][1..] == cells[i + 1..];
  }

  lemma CutsInFive(c: seq<string>)
    requires |c| == 5 && forall i :: 0 <= i < 5 ==> !EndsEscaped(c[i], false)
    ensures Closed(c)
    ensures CutsIn(c) == BarePipes(c[0], false) + BarePipes(c[1], false) + BarePipes(c[2], false) + BarePipes(c[3], false)
            + BarePipes(c[4], false)
  {
    CutsFrom(c, 4);
    CutsFrom(c, 3);
    CutsFrom(c, 2);
    CutsFrom(c, 1);
    CutsFrom(c, 0);
    assert c[0..] == c;
  }

  lemma {:induction false} CutsInRow(e: Entry)
    ensures Closed(RowCells(e))
    ensures CutsIn(RowCells(e)) == BarePipes(Symbol(e), false) + BarePipes(e.package, false)
            + BarePipes(TagsCell(e.tags), false) + BarePipes(e.file, false)
  {
    var c := RowCells(e);
    CellPipes(Symbol(e));
    CellPipes(e.package);
    CellPipes(TagsCell(e.tags));
    CellPipes(EscapePipes(e.reason));
    CellPipes(Source(e));
    EscapedHasNoBarePipe(e.reason, false);
    SourcePipes(e);
    CutsInFive(c);
  }

  /** The cells between the outer bars are five, whatever the reason, exactly when the other fields allow it. */
  lemma FiveCellsIff(e: Entry)
    ensures |Cells(Row(e), false)| == 7 <==> Tabular(e)
    ensures Tabular(e) ==> Cells(Row(e), false) == [""] + (RowCells(e) + [""])
  {
    RowIsCells(e);
    CutsInRow(e);
    CountBars(RowCells(e));
    CellCount(Row(e), false);
    assert Row(e)[1..] == Bars(RowCells(e));
    TagsPipes(e.tags);
    if Tabular(e) {
      CellsOfBars(RowCells(e));
    }
  }

  // ----- reading a row back -----

  datatype Reading = Reading(symbol: string, package: string, tags: seq<string>, reason: string, file: string, line: int)

  function Inside(cell: string, margin: nat): string {
    if |cell| >= 2 * margin then cell[margin..|cell| - margin] else ""
  }

  function ReadRow(row: string): Option<Reading> {
    var c := Cells(row, false);
    if |c| == 7 then ReadCells(c[1], c[2], c[3], c[4], c[5]) else None
  }

  function ReadCells(symbol: string, package: string, tags: string, reason: string, source: string): Option<Reading> {
    var place := Inside(source, 2);
    var number := AfterColon(place);
    if |number| >= |place| then None
    else Some(Reading(Inside(symbol, 2), Inside(package, 2), ReadTags(Inside(tags, 1)), UnescapePipes(Inside(reason, 1)),
                      place[..|place| - |number| - 1], Atoi(number)))
  }

  lemma Insides(x: string)
    ensures Inside(Code(x), 2) == x && Inside(Plain(x), 1) == x
  {
  }

  lemma PlaceRead(file: string, line: int)
    ensures var place := file + (":" + Itoa(line));
            AfterColon(place) == Itoa(line) && |Itoa(line)| < |place| && place[..|place| - |Itoa(line)| - 1] == file
            && Atoi(Itoa(line)) == line
  {
    ItoaRoundTrip(line);
    AfterLastColon(file, Itoa(line));
  }

  lemma CellsRead(symbol: string, package: string, tags: string, reason: string, file: string, line: int)
    ensures ReadCells(Code(symbol), Code(package), Plain(tags), Plain(EscapePipes(reason)), Code(file + (":" + Itoa(line))))
            == Some(Reading(symbol, package, ReadTags(tags), reason, file, line))
  {
    Insides(symbol);
    Insides(package);
    Insides(tags);
    Insides(EscapePipes(reason));
    Insides(file + (":" + Itoa(line)));
    UnescapeEscape(reason);
    PlaceRead(file, line);
  }

  /** A rendered row gives its marker back, the tags sorted. */
  lemma RowRoundTrip(e: Entry)
    requires Tabular(e) && forall i :: 0 <= i < |e.tags| ==> Strings.Without(e.tags[i], ' ')
    ensures ReadRow(Row(e)) == Some(Reading(Symbol(e), e.package, SortStrings(e.tags), e.reason, e.file, e.line))
  {
    FiveCellsIff(e);
    CellsRead(Symbol(e), e.package, TagsCell(e.tags), e.reason, e.file, e.line);
    TagsRoundTrip(e.tags);
  }
}
