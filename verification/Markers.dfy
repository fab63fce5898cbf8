/** The `libtftest:requires` marker line: its pattern, its parser and its printer. */
module Markers {
  import opened Patterns
  import Strings
  import opened Options

  const WORD := "libtftest:requires"

  /** ^//\s*libtftest:requires\s+([a-z][a-z0-9_,-]*)\s+(.+?)\s*$ */
  const MARKER: seq<Item> := [
    Lit("//"), Many(Space, 0, true), Lit(WORD), Many(Space, 1, true),
    One(TagStart), Many(TagRest, 0, true),
    Many(Space, 1, true), Many(Dot, 1, false), Many(Space, 0, true)]

  datatype Marker = Marker(tags: seq<string>, reason: string)

  /** Capture group 1 of a cut, and what follows it. */
  function Group(parts: seq<string>): string
    requires |parts| == |MARKER|
  {
    parts[4] + parts[5]
  }

  function Tail(parts: seq<string>): string
    requires |parts| == |MARKER|
  {
    parts[6] + (parts[7] + parts[8])
  }

  function MarkerOf(line: string): Option<Marker> {
    match Match(MARKER, line)
    case None => None
    case Some(parts) => Some(Marker(Strings.Split(Group(parts), ','), Strings.TrimSpace(parts[7])))
  }

  // ----- the language -----

  predicate TagList(list: string) {
    list != "" && Member(TagStart, list[0]) && AllIn(list[1..], TagRest)
  }

  predicate Cuts(tail: string, gap: string, body: string, end: string) {
    tail == gap + (body + end) && gap != "" && body != "" && AllIn(gap, Space) && AllIn(body, Dot) && AllIn(end, Space)
  }

  ghost predicate ReasonTail(tail: string) {
    exists gap, body, end :: Cuts(tail, gap, body, end)
  }

  function Line(lead: string, gap: string, list: string, tail: string): string {
    "//" + (lead + (WORD + (gap + (list + tail))))
  }

  /** `line` is the comment mark, the marker word, a tag list and a reason, with white space between. */
  ghost predicate Reads(line: string, lead: string, gap: string, list: string, tail: string) {
    line == Line(lead, gap, list, tail) && AllIn(lead, Space) && gap != "" && AllIn(gap, Space) && TagList(list)
    && ReasonTail(tail)
  }

  lemma LineOfParts(parts: seq<string>)
    requires |parts| == |MARKER| && parts[0] == "//" && parts[2] == WORD
    ensures Concat(parts) == Line(parts[1], parts[3], Group(parts), Tail(parts))
  {
    assert parts[0..] == parts;
    ConcatAt(parts, 0);
    ConcatAt(parts, 1);
    ConcatAt(parts, 2);
    ConcatAt(parts, 3);
    GroupAndTail(parts);
  }

  lemma GroupAndTail(parts: seq<string>)
    requires |parts| == |MARKER|
    ensures Concat(parts[4..]) == Group(parts) + Tail(parts)
  {
    ConcatAt(parts, 4);
    ConcatAt(parts, 5);
    ConcatAt(parts, 6);
    ConcatAt(parts, 7);
    ConcatAt(parts, 8);
    assert Concat(parts[8..]) == parts[8];
    assert parts[4] + (parts[5] + Tail(parts)) == Group(parts) + Tail(parts);
  }

  lemma FitsReads(line: string, parts: seq<string>)
    requires Fits(MARKER, line, parts)
    ensures |parts| == |MARKER| && Reads(line, parts[1], parts[3], Group(parts), Tail(parts))
  {
    FitsIff(MARKER, line, parts);
    assert forall i :: 0 <= i < |MARKER| ==> Suits(MARKER[i], parts[i]);
    LineOfParts(parts);
    assert Group(parts)[1..] == parts[5];
    assert Cuts(Tail(parts), parts[6], parts[7], parts[8]);
  }

  lemma ReadsFits(line: string, lead: string, gap: string, list: string, tail: string)
    returns (parts: seq<string>)
    requires Reads(line, lead, gap, list, tail)
    ensures Fits(MARKER, line, parts)
  {
    var gap2, body, end :| Cuts(tail, gap2, body, end);
    parts := ["//", lead, WORD, gap, [list[0]], list[1..], gap2, body, end];
    assert list == Group(parts);
    LineOfParts(parts);
    FitsIff(MARKER, line, parts);
  }

  // ----- nothing in it is ambiguous -----

  lemma SameRun(x: string, y: string, x': string, y': string, k: Class)
    requires x + y == x' + y' && AllIn(x, k) && AllIn(x', k)
    requires y == "" || !Member(k, y[0])
    requires y' == "" || !Member(k, y'[0])
    ensures x == x' && y == y'
  {
    RunForced(x, y, k);
    RunForced(x', y', k);
    assert x == (x + y)[..|x|] && y == (x + y)[|x|..];
    assert x' == (x' + y')[..|x'|] && y' == (x' + y')[|x'|..];
  }

  lemma TailStarts(tail: string)
    requires ReasonTail(tail)
    ensures |tail| >= 2 && Member(Space, tail[0])
  {
    var gap, body, end :| Cuts(tail, gap, body, end);
    assert tail[0] == gap[0];
  }

  /** Wherever a line is cut, the pieces before the reason are the same. */
  lemma {:induction false} ReadsUnique(lead: string, gap: string, list: string, tail: string,
                                       lead': string, gap': string, list': string, tail': string)
    requires AllIn(lead, Space) && gap != "" && AllIn(gap, Space) && TagList(list)
    requires tail == "" || !Member(TagRest, tail[0])
    requires Reads(Line(lead, gap, list, tail), lead', gap', list', tail')
    ensures lead == lead' && gap == gap' && list == list' && tail == tail'
  {
    var a, b := WORD + (gap + (list + tail)), WORD + (gap' + (list' + tail'));
    assert lead + a == Line(lead, gap, list, tail)[2..] == lead' + b;
    SameRun(lead, a, lead', b, Space);
    assert gap + (list + tail) == a[|WORD|..] == b[|WORD|..] == gap' + (list' + tail');
    assert (list + tail)[0] == list[0] && (list' + tail')[0] == list'[0];
    SameRun(gap, list + tail, gap', list' + tail', Space);
    TailStarts(tail');
    assert list[1..] + tail == (list + tail)[1..] == list'[1..] + tail';
    SameRun(list[1..], tail, list'[1..], tail', TagRest);
    assert list == [(list + tail)[0]] + list[1..];
    assert list' == [(list' + tail')[0]] + list'[1..];
  }

  lemma {:induction false} SpacesAreBlank(s: string)
    requires AllIn(s, Space)
    ensures Strings.Blank(s)
  {
    if s != "" {
      SpacesAreBlank(s[1..]);
    }
  }

  /** However the tail is cut, the trimmed body is the trimmed tail. */
  lemma BodyIsTail(tail: string, gap: string, body: string, end: string)
    requires Cuts(tail, gap, body, end)
    ensures Strings.TrimSpace(body) == Strings.TrimSpace(tail)
  {
    SpacesAreBlank(gap);
    SpacesAreBlank(end);
    Strings.TrimPadding(gap, body, end);
  }

  // ----- what the parser returns -----

  /**
   The parser accepts exactly the lines of the grammar; the tags are the comma-separated pieces
   of the only possible tag list, and the reason is all that follows it, trimmed.
   */
  lemma MarkerLanguage(line: string, lead: string, gap: string, list: string, tail: string)
    requires Reads(line, lead, gap, list, tail)
    ensures MarkerOf(line) == Some(Marker(Strings.Split(list, ','), Strings.TrimSpace(tail)))
  {
    var some := ReadsFits(line, lead, gap, list, tail);
    MatchRight(MARKER, line);
    var parts := Match(MARKER, line).value;
    FitsReads(line, parts);
    TailStarts(tail);
    ReadsUnique(lead, gap, list, tail, parts[1], parts[3], Group(parts), Tail(parts));
    FitsIff(MARKER, line, parts);
    assert forall i :: 0 <= i < |MARKER| ==> Suits(MARKER[i], parts[i]);
    BodyIsTail(tail, parts[6], parts[7], parts[8]);
  }

  lemma AcceptedIsRead(line: string)
    returns (lead: string, gap: string, list: string, tail: string)
    requires MarkerOf(line).Some?
    ensures Reads(line, lead, gap, list, tail)
    ensures MarkerOf(line) == Some(Marker(Strings.Split(list, ','), Strings.TrimSpace(tail)))
  {
    MatchRight(MARKER, line);
    var parts := Match(MARKER, line).value;
    FitsReads(line, parts);
    lead, gap, list, tail := parts[1], parts[3], Group(parts), Tail(parts);
    MarkerLanguage(line, lead, gap, list, tail);
  }

  /** Trimming the tags, as the code does, changes none of them. */
  method ParseMarker(line: string) returns (r: Option<Marker>)
    ensures r == MarkerOf(line)
  {
    var m := Match(MARKER, line);
    if m.None? {
      return None;
    }
    var tags := Strings.Split(Group(m.value), ',');
    ghost var split := tags;
    MatchRight(MARKER, line);
    FitsReads(line, m.value);
    TagsHaveNoSpace(Group(m.value));
    for i := 0 to |tags|
      invariant tags == split
    {
      NoSpaceTrims(tags[i]);
      tags := tags[i := Strings.TrimSpace(tags[i])];
    }
    return Some(Marker(tags, Strings.TrimSpace(m.value[7])));
  }

  lemma NoSpaceTrims(tag: string)
    requires AllIn(tag, TagRest)
    ensures Strings.TrimSpace(tag) == tag
  {
    if tag != "" {
      AllInAt(tag, TagRest, 0);
      AllInAt(tag, TagRest, |tag| - 1);
      Strings.TrimNothing(tag);
    }
  }

  ghost predicate Tags(tags: seq<string>) {
    forall i :: 0 <= i < |tags| ==> AllIn(tags[i], TagRest)
  }

  lemma TagsHaveNoSpace(list: string)
    requires TagList(list)
    ensures Tags(Strings.Split(list, ','))
  {
    assert AllIn(list, TagRest);
    Strings.SplitThenJoin(list, ',');
    JoinIsTags(Strings.Split(list, ','));
  }

  lemma {:induction false} JoinIsTags(tags: seq<string>)
    ensures AllIn(Strings.Join(tags, ','), TagRest) <==> Tags(tags)
  {
    if |tags| > 1 {
      JoinIsTags(tags[1..]);
      var rest := [','] + Strings.Join(tags[1..], ',');
      AllInConcat(tags[0], rest, TagRest);
      assert rest[1..] == Strings.Join(tags[1..], ',');
      assert forall i :: 0 < i < |tags| ==> tags[i] == tags[1..][i - 1];
      if Tags(tags) {
        assert forall i :: 0 <= i < |tags[1..]| ==> tags[1..][i] == tags[i + 1];
      }
    }
  }

  // ----- where the pattern is looser than its documentation -----

  lemma {:induction false} NoNewlineIsDots(s: string)
    ensures Strings.Without(s, '\n') <==> AllIn(s, Dot)
  {
    if s != "" {
      NoNewlineIsDots(s[1..]);
    }
  }

  lemma LineTail(tail: string)
    requires Strings.Without(tail, '\n')
    ensures ReasonTail(tail) <==> |tail| >= 2 && Member(Space, tail[0])
  {
    if ReasonTail(tail) {
      TailStarts(tail);
    } else if |tail| >= 2 && Member(Space, tail[0]) {
      NoNewlineIsDots(tail[1..]);
      var end: string := [];
      assert AllIn(tail[..1], Space) && AllIn(end, Space);
      assert tail == tail[..1] + (tail[1..] + end);
      assert Cuts(tail, tail[..1], tail[1..], end);
    }
  }

  /**
   The documentation asks for a reason. Two characters of trailing white space stand in for one: a line is
   accepted with an empty reason exactly when all that follows its tag list is blank and at least two long.
   */
  lemma EmptyReasonIff(lead: string, gap: string, list: string, tail: string)
    requires AllIn(lead, Space) && gap != "" && AllIn(gap, Space) && TagList(list) && Strings.Without(tail, '\n')
    requires tail == "" || !Member(TagRest, tail[0])
    ensures var r := MarkerOf(Line(lead, gap, list, tail));
            (r.Some? <==> |tail| >= 2 && Member(Space, tail[0]))
            && (r.Some? ==> (r.value.reason == "" <==> Strings.Blank(tail)))
  {
    var line := Line(lead, gap, list, tail);
    LineTail(tail);
    if ReasonTail(tail) {
      MarkerLanguage(line, lead, gap, list, tail);
      Strings.TrimEmptyIff(tail);
    } else if MarkerOf(line).Some? {
      var lead', gap', list', tail' := AcceptedIsRead(line);
      ReadsUnique(lead, gap, list, tail, lead', gap', list', tail');
    }
  }

  const LETTERS := "abcdefghijklmnopqrstuvwxyz"
  const DIGITS := "0123456789"

  /** The characters of the pattern's classes, and those that trimming takes away. */
  lemma Alphabets(c: char)
    ensures Member(TagStart, c) <==> c in LETTERS
    ensures Member(TagRest, c) <==> c in LETTERS || c in DIGITS || c in "_,-"
    ensures Member(Space, c) <==> c in "\t\n\U{000C}\r "
    ensures Member(Dot, c) <==> c != '\n'
  {
    LowerCase(c);
    Decimal(c);
  }

  lemma LowerCase(c: char)
    ensures 'a' <= c <= 'z' <==> c in LETTERS
  {
    if 'a' <= c <= 'z' {
      assert LETTERS[c as int - 'a' as int] == c;
    }
  }

  lemma Decimal(c: char)
    ensures '0' <= c <= '9' <==> c in DIGITS
  {
    if '0' <= c <= '9' {
      assert DIGITS[c as int - '0' as int] == c;
    }
  }

  /** A marker line as its documentation spells it. */
  lemma PlainMarker()
    ensures MarkerOf("//" + (" " + ("libtftest:requires" + (" " + ("pro" + " why"))))) == Some(Marker(["pro"], "why"))
  {
    LineTail(" why");
    MarkerLanguage(Line(" ", " ", "pro", " why"), " ", " ", "pro", " why");
    Strings.JoinThenSplit(["pro"], ',');
    TrimWhy();
  }

  lemma TrimWhy()
    ensures Strings.TrimSpace(" why") == "why"
  {
    Strings.TrimPadding(" ", "why", "");
    Strings.TrimNothing("why");
    assert " why" == " " + ("why" + "");
  }

  lemma ReasonCanBeEmpty()
    ensures MarkerOf(Line(" ", " ", "pro", "  ")) == Some(Marker(["pro"], ""))
  {
    LineTail("  ");
    MarkerLanguage(Line(" ", " ", "pro", "  "), " ", " ", "pro", "  ");
    Strings.JoinThenSplit(["pro"], ',');
    Strings.TrimEmptyIff("  ");
  }

  ghost predicate LooseComma(list: string, i: int) {
    0 <= i < |list| && list[i] == ',' && (i + 1 == |list| || list[i + 1] == ',')
  }

  /** The documentation asks for tags between the commas: one is empty exactly at a doubled or final comma. */
  lemma EmptyTagIff(list: string)
    requires TagList(list)
    ensures "" in Strings.Split(list, ',') <==> exists i :: LooseComma(list, i)
  {
    EmptyPieceIff(list);
    assert Strings.Split(list, ',')[0] != "";
  }

  lemma {:induction false} TagCanBeEmpty()
    ensures MarkerOf(Line(" ", " ", "pro,", " r")) == Some(Marker(["pro", ""], "r"))
  {
    var tail := " r";
    assert tail[1..] == "r";
    LineTail(tail);
    MarkerLanguage(Line(" ", " ", "pro,", tail), " ", " ", "pro,", tail);
    assert ["pro", ""][1..] == [""] && "pro" + ([','] + "") == "pro,";
    Strings.JoinThenSplit(["pro", ""], ',');
    assert tail == " " + ("r" + "");
    Strings.TrimPadding(" ", "r", "");
    Strings.TrimNothing("r");
  }

  lemma {:induction false} EmptyPieceIff(list: string)
    ensures (Strings.Split(list, ',')[0] == "") <==> (list == "" || list[0] == ',')
    ensures "" in Strings.Split(list, ',')[1..] <==> exists i :: LooseComma(list, i)
  {
    if list != "" {
      var rest := list[1..];
      EmptyPieceIff(rest);
      var parts := Strings.Split(rest, ',');
      assert parts == [parts[0]] + parts[1..];
      assert Strings.Split(list, ',')[1..] == if list[0] == ',' then parts else parts[1..];
      forall i | LooseComma(rest, i) ensures LooseComma(list, i + 1) {}
      forall i | LooseComma(list, i) && i > 0 ensures LooseComma(rest, i - 1) {}
      if LooseComma(list, 0) {
        assert parts[0] == "";
      } else if list[0] == ',' {
        assert parts[0] != "";
      }
    }
  }

  // ----- the printer -----

  function Print(m: Marker): string {
    "// libtftest:requires " + (Strings.Join(m.tags, ',') + (" " + m.reason))
  }

  /** Comma-free tags over the tag alphabet, the first starting with a letter; a trimmed one-line reason. */
  ghost predicate Legal(m: Marker) {
    && m.tags != [] && m.tags[0] != "" && Member(TagStart, m.tags[0][0])
    && Tags(m.tags) && Strings.AllWithout(m.tags, ',')
    && m.reason != "" && Strings.TrimSpace(m.reason) == m.reason && Strings.Without(m.reason, '\n')
  }

  lemma PrintIsLine(m: Marker)
    ensures Print(m) == Line(" ", " ", Strings.Join(m.tags, ','), " " + m.reason)
  {
  }

  lemma JoinIsTagList(tags: seq<string>)
    ensures Strings.AllWithout(tags, ',') && TagList(Strings.Join(tags, ','))
            <==> tags != [] && tags[0] != "" && Member(TagStart, tags[0][0]) && Tags(tags) && Strings.AllWithout(tags, ',')
  {
    JoinIsTags(tags);
    var list := Strings.Join(tags, ',');
    if tags != [] && tags[0] != "" {
      assert list[0] == tags[0][0];
    }
    if list != "" && Member(TagStart, list[0]) {
      assert AllIn(list, TagRest) == AllIn(list[1..], TagRest);
    }
  }

  /** Parsing inverts printing for the legal markers and for no others. */
  lemma PrintThenParse(m: Marker)
    ensures MarkerOf(Print(m)) == Some(m) <==> Legal(m)
  {
    PrintIsLine(m);
    JoinIsTagList(m.tags);
    if Legal(m) {
      LegalParses(m);
    }
    if MarkerOf(Print(m)) == Some(m) {
      ParsedIsLegal(m);
    }
  }

  lemma LegalParses(m: Marker)
    requires Legal(m) && TagList(Strings.Join(m.tags, ','))
    ensures MarkerOf(Print(m)) == Some(m)
  {
    PrintIsLine(m);
    var list, tail := Strings.Join(m.tags, ','), " " + m.reason;
    assert tail[1..] == m.reason;
    LineTail(tail);
    MarkerLanguage(Print(m), " ", " ", list, tail);
    Strings.JoinThenSplit(m.tags, ',');
    assert tail == " " + (m.reason + "");
    Strings.TrimPadding(" ", m.reason, "");
  }

  lemma ParsedIsLegal(m: Marker)
    requires MarkerOf(Print(m)) == Some(m)
    ensures Legal(m)
  {
    var lead, gap, list, tail := AcceptedIsRead(Print(m));
    Strings.SplitThenJoin(list, ',');
    PrintIsLine(m);
    JoinIsTagList(m.tags);
    ReadsUnique(" ", " ", list, " " + m.reason, lead, gap, list, tail);
    Strings.TrimmedEnds(tail);
    Strings.TrimNothing(m.reason);
    TailStarts(tail);
    TailOfTrimmed(m.reason);
  }

  lemma TailOfTrimmed(reason: string)
    requires reason != "" && ReasonTail(" " + reason)
    requires !Strings.IsUnicodeSpace(reason[0]) && !Strings.IsUnicodeSpace(reason[|reason| - 1])
    ensures Strings.Without(reason, '\n')
  {
    var gap, body, end :| Cuts(" " + reason, gap, body, end);
    assert forall i :: 0 < i < |gap| ==> gap[i] == (" " + reason)[i];
    var at := 1 + |reason| - |end|;
    assert forall i :: 0 <= i < |end| ==> end[i] == (" " + reason)[at + i];
    if |gap| > 1 {
      AllInAt(gap, Space, 1);
    }
    if end != "" {
      AllInAt(end, Space, |end| - 1);
    }
    assert body == (" " + reason)[1..] == reason;
    NoNewlineIsDots(reason);
  }
}
