/** The whole feature matrix: its table, the tags it lists and how often it counts each. */
module RenderTable {
  import Concatenation
  import opened Options
  import opened Sorting
  import Strings
  import opened Docgen
  import opened Render

  const HEADING := "| Symbol | Package | Tags | Reason | Source |\n" + "| --- | --- | --- | --- | --- |\n"

  function Rows(es: seq<Entry>): (r: seq<string>)
    ensures |r| == |es|
  {
    seq(|es|, i requires 0 <= i < |es| => Row(es[i]))
  }

  /** Every row with its line end. */
  function Body(rows: seq<string>): string {
    Strings.Join(rows + [""], '\n')
  }

  function Table(es: seq<Entry>): string {
    HEADING + Body(Rows(es))
  }

  lemma {:induction false} BodyGrows(rows: seq<string>, last: string)
    ensures Body(rows + [last]) == Body(rows) + (last + "\n")
  {
    var a, b := rows + [last] + [""], rows + [""];
    if rows == [] {
      assert a[1..] == [""] && b == [""];
      assert "" + (last + "\n") == last + (['\n'] + "");
    } else {
      BodyGrows(rows[1..], last);
      assert a[1..] == rows[1..] + [last] + [""] && b[1..] == rows[1..] + [""];
      Concatenation.AssocMiddle(rows[0], ['\n'], Body(rows[1..]), last + "\n");
    }
  }

  method RenderRow(e: Entry) returns (row: string)
    ensures row == Row(e)
  {
    var symbol := e.name;
    if e.receiver != "" {
      symbol := e.receiver + "." + e.name;
    }
    var tags := FormatTags(e.tags);
    row := "| `" + (symbol + ("` | `" + (e.package + ("` | " + (tags + (" | " + (EscapePipes(e.reason) +
           (" | `" + ((e.file + (":" + Itoa(e.line))) + "` |")))))))));
  }

  lemma NextRow(heading: string, rows: seq<string>, i: nat, buf: string)
    requires i < |rows| && buf == heading + Body(rows[..i])
    ensures buf + (rows[i] + "\n") == heading + Body(rows[..i + 1])
  {
    BodyGrows(rows[..i], rows[i]);
    assert rows[..i + 1] == rows[..i] + [rows[i]];
    Concatenation.Assoc(heading, Body(rows[..i]), rows[i] + "\n");
  }

  /** The loop, behind what the buffer holds already. */
  method RenderRows(heading: string, es: seq<Entry>) returns (buf: string)
    ensures buf == heading + Body(Rows(es))
  {
    buf := heading;
    ghost var rows := Rows(es);
    for i := 0 to |es|
      invariant buf == heading + Body(rows[..i])
    {
      var row := RenderRow(es[i]);
      NextRow(heading, rows, i, buf);
      buf := buf + (row + "\n");
    }
    assert rows[..|es|] == rows;
  }

  method RenderTable(es: seq<Entry>) returns (buf: string)
    ensures buf == Table(es)
  {
    buf := "| Symbol | Package | Tags | Reason | Source |\n";
    buf := buf + "| --- | --- | --- | --- | --- |\n";
    buf := RenderRows(buf, es);
  }

  // ----- reading the table back -----

  ghost predicate OneLine(e: Entry) {
    var row := Row(e);
    Strings.Without(row, '\n')
  }

  lemma BodySplits(rows: seq<string>)
    requires forall i :: 0 <= i < |rows| ==> Strings.Without(rows[i], '\n')
    ensures Strings.Split(Body(rows), '\n') == rows + [""]
  {
    AllWithoutAt(rows + [""], '\n');
    Strings.JoinThenSplit(rows + [""], '\n');
  }

  ghost predicate Readable(e: Entry) {
    OneLine(e) && Tabular(e) && forall i :: 0 <= i < |e.tags| ==> Strings.Without(e.tags[i], ' ')
  }

  /** Below the heading, line i of a rendered table gives marker i back. */
  lemma TableRoundTrip(es: seq<Entry>, i: nat)
    requires i < |es| && forall k :: 0 <= k < |es| ==> OneLine(es[k])
    requires Readable(es[i])
    ensures |HEADING| <= |Table(es)|
    ensures var lines := Strings.Split(Table(es)[|HEADING|..], '\n');
            |lines| == |es| + 1 && lines[|es|] == ""
            && ReadRow(lines[i]) == Some(Reading(Symbol(es[i]), es[i].package, SortStrings(es[i].tags), es[i].reason,
                                                 es[i].file, es[i].line))
  {
    var rows := Rows(es);
    forall k | 0 <= k < |rows| ensures Strings.Without(rows[k], '\n') {
      assert OneLine(es[k]);
    }
    BodySplits(rows);
    AfterHeading(HEADING, Body(rows));
    assert rows[i] == Row(es[i]);
    RowRoundTrip(es[i]);
  }

  lemma AfterHeading(heading: string, body: string)
    ensures (heading + body)[|heading|..] == body
  {
  }

  // ----- the tags of the summary -----

  ghost function AllTags(es: seq<Entry>, n: nat): multiset<string>
    requires n <= |es|
  {
    if n == 0 then multiset{} else AllTags(es, n - 1) + multiset(es[n - 1].tags)
  }

  ghost function TagSet(es: seq<Entry>): set<string> {
    set t | t in AllTags(es, |es|)
  }

  lemma PrefixTags(tags: seq<string>, k: nat)
    requires k < |tags|
    ensures multiset(tags[..k + 1]) == multiset(tags[..k]) + multiset{tags[k]}
  {
    assert tags[..k + 1] == tags[..k] + [tags[k]];
  }

  /** Whatever order the map of seen tags is read in. */
  method CollectTags(es: seq<Entry>) returns (tags: seq<string>)
    ensures tags == SortedKeys(TagSet(es))
  {
    var seen: set<string> := {};
    for i := 0 to |es|
      invariant forall t :: t in seen <==> t in AllTags(es, i)
    {
      for k := 0 to |es[i].tags|
        invariant forall t :: t in seen <==> t in AllTags(es, i) + multiset(es[i].tags[..k])
      {
        PrefixTags(es[i].tags, k);
        seen := seen + {es[i].tags[k]};
      }
      assert es[i].tags[..|es[i].tags|] == es[i].tags;
    }
    assert seen == TagSet(es);
    tags := Gather(seen);
    SortingAnyListing(tags);
    tags := SortStrings(tags);
  }

  ghost predicate Counts(counts: map<string, nat>, m: multiset<string>) {
    forall t :: (if t in counts then counts[t] else 0) == m[t]
  }

  lemma CountsOneMore(counts: map<string, nat>, m: multiset<string>, t: string)
    requires Counts(counts, m)
    ensures Counts(counts[t := (if t in counts then counts[t] else 0) + 1], m + multiset{t})
  {
  }

  /** The counting loop of the summary. */
  method CountTags(es: seq<Entry>) returns (counts: map<string, nat>)
    ensures Counts(counts, AllTags(es, |es|))
  {
    counts := map[];
    for i := 0 to |es|
      invariant Counts(counts, AllTags(es, i))
    {
      for k := 0 to |es[i].tags|
        invariant Counts(counts, AllTags(es, i) + multiset(es[i].tags[..k]))
      {
        PrefixTags(es[i].tags, k);
        var t := es[i].tags[k];
        ghost var before := AllTags(es, i) + multiset(es[i].tags[..k]);
        CountsOneMore(counts, before, t);
        assert AllTags(es, i) + multiset(es[i].tags[..k + 1]) == before + multiset{t};
        counts := counts[t := (if t in counts then counts[t] else 0) + 1];
      }
      assert es[i].tags[..|es[i].tags|] == es[i].tags;
    }
  }

  function MarkersWith(es: seq<Entry>, n: nat, t: string): nat
    requires n <= |es|
  {
    if n == 0 then 0 else MarkersWith(es, n - 1, t) + if t in es[n - 1].tags then 1 else 0
  }

  ghost predicate NoneRepeats(es: seq<Entry>, n: nat, t: string)
    requires n <= |es|
  {
    forall i :: 0 <= i < n ==> multiset(es[i].tags)[t] <= 1
  }

  /** The count of a tag is the number of markers naming it exactly when none names it twice. */
  lemma {:induction false} MarkersRightIff(es: seq<Entry>, n: nat, t: string)
    requires n <= |es|
    ensures AllTags(es, n)[t] >= MarkersWith(es, n, t)
    ensures AllTags(es, n)[t] == MarkersWith(es, n, t) <==> NoneRepeats(es, n, t)
  {
    if n > 0 {
      MarkersRightIff(es, n - 1, t);
      assert t in es[n - 1].tags <==> t in multiset(es[n - 1].tags);
    }
  }

  /** One marker naming a tag twice is counted as two. */
  lemma RepeatedTag(e: Entry)
    requires e.tags == ["pro", "pro"]
    ensures AllTags([e], 1)["pro"] == 2 && MarkersWith([e], 1, "pro") == 1
  {
    assert AllTags([e], 0) == multiset{};
    assert multiset(e.tags) == multiset{"pro", "pro"};
    assert MarkersWith([e], 0, "pro") == 0;
  }

  // ----- functions, not markers -----

  datatype FunctionId = FunctionId(file: string, package: string, receiver: string, name: string)

  function Identity(e: Entry): FunctionId {
    FunctionId(e.file, e.package, e.receiver, e.name)
  }

  /** The functions that gate on a tag. */
  function Gating(es: seq<Entry>, n: nat, t: string): set<FunctionId>
    requires n <= |es|
  {
    if n == 0 then {} else Gating(es, n - 1, t) + if t in es[n - 1].tags then {Identity(es[n - 1])} else {}
  }

  ghost predicate MarkedTwice(es: seq<Entry>, i: nat, j: nat, t: string)
    requires i < |es| && j < |es|
  {
    t in es[i].tags && t in es[j].tags && Identity(es[i]) == Identity(es[j])
  }

  ghost predicate NoneMarkedTwice(es: seq<Entry>, n: nat, t: string)
    requires n <= |es|
  {
    forall i, j :: 0 <= i < j < n ==> !MarkedTwice(es, i, j, t)
  }

  lemma {:induction false} GatingIff(es: seq<Entry>, n: nat, t: string, f: FunctionId)
    requires n <= |es|
    ensures f in Gating(es, n, t) <==> exists i :: 0 <= i < n && t in es[i].tags && Identity(es[i]) == f
  {
    if n > 0 {
      GatingIff(es, n - 1, t, f);
    }
  }

  lemma GatingStep(es: seq<Entry>, n: nat, t: string)
    requires 0 < n <= |es|
    ensures var before, f := Gating(es, n - 1, t), Identity(es[n - 1]);
            |Gating(es, n, t)| == |before| + if t in es[n - 1].tags && f !in before then 1 else 0
  {
    var before, f := Gating(es, n - 1, t), Identity(es[n - 1]);
    if f in before {
      assert before + {f} == before;
    }
  }

  lemma MarkedTwiceStep(es: seq<Entry>, n: nat, t: string)
    requires 0 < n <= |es|
    ensures NoneMarkedTwice(es, n, t)
            <==> NoneMarkedTwice(es, n - 1, t) && !(t in es[n - 1].tags && Identity(es[n - 1]) in Gating(es, n - 1, t))
  {
    GatingIff(es, n - 1, t, Identity(es[n - 1]));
    if t in es[n - 1].tags && Identity(es[n - 1]) in Gating(es, n - 1, t) {
      var i :| 0 <= i < n - 1 && t in es[i].tags && Identity(es[i]) == Identity(es[n - 1]);
      assert MarkedTwice(es, i, n - 1, t);
    }
  }

  lemma {:induction false} FunctionsOfMarkers(es: seq<Entry>, n: nat, t: string)
    requires n <= |es|
    ensures |Gating(es, n, t)| <= MarkersWith(es, n, t)
    ensures |Gating(es, n, t)| == MarkersWith(es, n, t) <==> NoneMarkedTwice(es, n, t)
  {
    if n > 0 {
      FunctionsOfMarkers(es, n - 1, t);
      GatingStep(es, n, t);
      MarkedTwiceStep(es, n, t);
    }
  }

  /**
   The summary promises how many functions gate on each tag. It is right about a tag exactly when
   no marker names the tag twice and no function has two markers naming it.
   */
  lemma SummaryRightIff(es: seq<Entry>, n: nat, t: string)
    requires n <= |es|
    ensures AllTags(es, n)[t] >= |Gating(es, n, t)|
    ensures AllTags(es, n)[t] == |Gating(es, n, t)| <==> NoneRepeats(es, n, t) && NoneMarkedTwice(es, n, t)
  {
    MarkersRightIff(es, n, t);
    FunctionsOfMarkers(es, n, t);
  }

  /** Two marker lines on one function are counted as two functions. */
  lemma TwoMarkers(e: Entry, line: int)
    requires e.tags == ["pro"]
    ensures var es := [e, e.(line := line)]; AllTags(es, 2)["pro"] == 2 && |Gating(es, 2, "pro")| == 1
  {
    var es := [e, e.(line := line)];
    assert AllTags(es, 0) == multiset{} && AllTags(es, 1) == multiset{"pro"};
    assert multiset(es[1].tags) == multiset{"pro"};
    assert Gating(es, 0, "pro") == {} && Gating(es, 1, "pro") == {Identity(e)};
    assert Gating(es, 2, "pro") == {Identity(e)};
  }
}
