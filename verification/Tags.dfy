/** The tag propagation assertion: assert/tags/tags.go. */
module Tags {
  import opened Options
  import opened Sorting
  import opened Concatenation

  datatype Tag = Tag(key: Option<string>, value: Option<string>)

  datatype Mapping = Mapping(arn: Option<string>, tags: seq<Tag>)

  type TagMap = map<string, string>

  // ----- indexByARN -----

  function AddTag(m: TagMap, t: Tag): TagMap {
    if t.key.None? then m else m[t.key.value := if t.value.Some? then t.value.value else ""]
  }

  function TagsOf(tags: seq<Tag>): TagMap {
    if tags == [] then map[] else AddTag(TagsOf(tags[..|tags| - 1]), tags[|tags| - 1])
  }

  function AddMapping(out: map<string, TagMap>, m: Mapping): map<string, TagMap> {
    if m.arn.None? then out else out[m.arn.value := TagsOf(m.tags)]
  }

  function Index(ms: seq<Mapping>): map<string, TagMap> {
    if ms == [] then map[] else AddMapping(Index(ms[..|ms| - 1]), ms[|ms| - 1])
  }

  method IndexByARN(ms: seq<Mapping>) returns (out: map<string, TagMap>)
    ensures out == Index(ms)
  {
    out := map[];
    for i := 0 to |ms|
      invariant out == Index(ms[..i])
    {
      assert ms[..i + 1][..i] == ms[..i];
      var m := ms[i];
      if m.arn.None? {
        continue;
      }
      var tagMap: TagMap := map[];
      for j := 0 to |m.tags|
        invariant tagMap == TagsOf(m.tags[..j])
      {
        assert m.tags[..j + 1][..j] == m.tags[..j];
        var t := m.tags[j];
        if t.key.None? {
          continue;
        }
        var val := "";
        if t.value.Some? {
          val := t.value.value;
        }
        tagMap := tagMap[t.key.value := val];
      }
      assert m.tags[..|m.tags|] == m.tags;
      out := out[m.arn.value := tagMap];
    }
    assert ms[..|ms|] == ms;
  }

  ghost predicate LastTag(tags: seq<Tag>, key: string, i: int) {
    0 <= i < |tags| && tags[i].key == Some(key) && forall j :: i < j < |tags| ==> tags[j].key != Some(key)
  }

  /** The last tag with a key decides its value, a missing value being empty. */
  lemma {:induction false} LastTagWins(tags: seq<Tag>, key: string)
    ensures key in TagsOf(tags) <==> exists i :: LastTag(tags, key, i)
    ensures forall i :: LastTag(tags, key, i)
                        ==> key in TagsOf(tags) && TagsOf(tags)[key] == if tags[i].value.Some? then tags[i].value.value else ""
  {
    if tags != [] {
      var n := |tags| - 1;
      LastTagWins(tags[..n], key);
      if tags[n].key == Some(key) {
        assert LastTag(tags, key, n);
      } else {
        forall i ensures LastTag(tags, key, i) <==> LastTag(tags[..n], key, i) {}
      }
    }
  }

  ghost predicate LastMapping(ms: seq<Mapping>, arn: string, i: int) {
    0 <= i < |ms| && ms[i].arn == Some(arn) && forall j :: i < j < |ms| ==> ms[j].arn != Some(arn)
  }

  /** The last mapping of a resource replaces the earlier ones whole. */
  lemma {:induction false} LastMappingWins(ms: seq<Mapping>, arn: string)
    ensures arn in Index(ms) <==> exists i :: LastMapping(ms, arn, i)
    ensures forall i :: LastMapping(ms, arn, i) ==> arn in Index(ms) && Index(ms)[arn] == TagsOf(ms[i].tags)
  {
    if ms != [] {
      var n := |ms| - 1;
      LastMappingWins(ms[..n], arn);
      if ms[n].arn == Some(arn) {
        assert LastMapping(ms, arn, n);
      } else {
        forall i ensures LastMapping(ms, arn, i) <==> LastMapping(ms[..n], arn, i) {}
      }
    }
  }

  // ----- diffTags -----

  datatype Fault =
    | Absent(arn: string)
    | Missing(arn: string, key: string, want: string)
    | Differs(arn: string, key: string, got: string, want: string)

  /** `quote` is fmt's %q. */
  function Message(f: Fault, quote: string -> string): string {
    match f
    case Absent(arn) => arn + ": not returned by GetResources"
    case Missing(arn, key, want) => arn + ": missing tag " + quote(key) + " (want " + quote(want) + ")"
    case Differs(arn, key, got, want) => arn + ": tag " + quote(key) + " = " + quote(got) + ", want " + quote(want)
  }

  lemma Pluck<A>(b: seq<A>, x: A) returns (before: seq<A>, after: seq<A>)
    requires x in multiset(b)
    ensures b == before + [x] + after && multiset(before + after) == multiset(b) - multiset{x}
  {
    var j :| 0 <= j < |b| && b[j] == x;
    before, after := b[..j], b[j + 1..];
    assert b == before + [x] + after;
  }

  lemma FlatAround<A, B>(before: seq<A>, x: A, after: seq<A>, f: A -> seq<B>)
    ensures multiset(FlatMap(before + [x] + after, f)) == multiset(FlatMap(before + after, f)) + multiset(f(x))
  {
    FlatConcat(before, after, f);
    FlatConcat(before + [x], after, f);
    FlatConcat(before, [x], f);
    FlatOne(x, f);
  }

  /** The order of a loop shows in the order of its answers only. */
  lemma {:induction false} FlatForgetsOrder<A, B>(a: seq<A>, b: seq<A>, f: A -> seq<B>)
    requires multiset(a) == multiset(b)
    ensures multiset(FlatMap(a, f)) == multiset(FlatMap(b, f))
  {
    if a == [] {
      assert |multiset(b)| == |b|;
    } else {
      var n := |a| - 1;
      assert a == a[..n] + [a[n]];
      assert a[n] in multiset(a);
      var before, after := Pluck(b, a[n]);
      assert multiset(a[..n]) == multiset(a) - multiset{a[n]};
      FlatForgetsOrder(a[..n], before + after, f);
      FlatAround(before, a[n], after, f);
    }
  }

  /** What is wrong with one key of one resource: at most one fault. */
  function KeyFault(baseline: TagMap, arn: string, tags: TagMap, key: string): seq<Fault> {
    if key !in baseline then []
    else if key !in tags then [Missing(arn, key, baseline[key])]
    else if tags[key] != baseline[key] then [Differs(arn, key, tags[key], baseline[key])]
    else []
  }

  ghost function ByKey(baseline: TagMap, arn: string, tags: TagMap): string -> seq<Fault> {
    key => KeyFault(baseline, arn, tags, key)
  }

  ghost function ArnFaults(baseline: TagMap, arn: string, got: map<string, TagMap>): seq<Fault> {
    if arn !in got then [Absent(arn)] else FlatMap(SortedKeys(baseline.Keys), ByKey(baseline, arn, got[arn]))
  }

  ghost function ByArn(baseline: TagMap, got: map<string, TagMap>): string -> seq<Fault> {
    arn => ArnFaults(baseline, arn, got)
  }

  /** The faults in a fixed order: resource by resource as listed, key by sorted key. */
  ghost function Faults(baseline: TagMap, arns: seq<string>, got: map<string, TagMap>): seq<Fault> {
    FlatMap(arns, ByArn(baseline, got))
  }

  ghost function Worded(quote: string -> string): Fault -> seq<string> {
    f => [Message(f, quote)]
  }

  ghost function Messages(fs: seq<Fault>, quote: string -> string): seq<string> {
    FlatMap(fs, Worded(quote))
  }

  lemma OneMoreMessage(fs: seq<Fault>, more: seq<Fault>, quote: string -> string)
    requires |more| <= 1
    ensures Messages(fs + more, quote) == Messages(fs, quote) + if more == [] then [] else [Message(more[0], quote)]
  {
    if more == [] {
      assert fs + more == fs;
    } else {
      assert more == [more[0]];
      FlatSnoc(fs, more[0], Worded(quote));
    }
  }

  lemma NextKey(keys: seq<string>, k: nat, f: string -> seq<Fault>, quote: string -> string)
    requires k < |keys| && |f(keys[k])| <= 1
    ensures Messages(FlatMap(keys[..k + 1], f), quote)
            == Messages(FlatMap(keys[..k], f), quote) + if f(keys[k]) == [] then [] else [Message(f(keys[k])[0], quote)]
  {
    assert keys[..k + 1] == keys[..k] + [keys[k]];
    FlatSnoc(keys[..k], keys[k], f);
    OneMoreMessage(FlatMap(keys[..k], f), f(keys[k]), quote);
  }

  /** The inner loop, ranging over the baseline in any order. */
  method ResourceProblems(baseline: TagMap, arn: string, tags: TagMap, got: map<string, TagMap>, quote: string -> string)
    returns (ps: seq<string>)
    requires arn in got && got[arn] == tags
    ensures multiset(ps) == multiset(Messages(ArnFaults(baseline, arn, got), quote))
  {
    var keys := Gather(baseline.Keys);
    ghost var f := ByKey(baseline, arn, tags);
    ps := [];
    for k := 0 to |keys|
      invariant ps == Messages(FlatMap(keys[..k], f), quote)
    {
      assert keys[k] in Elements(keys);
      var key, want := keys[k], baseline[keys[k]];
      NextKey(keys, k, f, quote);
      if key !in tags {
        ps := ps + [arn + ": missing tag " + quote(key) + " (want " + quote(want) + ")"];
      } else if tags[key] != want {
        ps := ps + [arn + ": tag " + quote(key) + " = " + quote(tags[key]) + ", want " + quote(want)];
      }
    }
    assert keys[..|keys|] == keys;
    AnyOrder(baseline, keys, f, quote);
  }

  lemma AnyOrder(baseline: TagMap, keys: seq<string>, f: string -> seq<Fault>, quote: string -> string)
    requires Distinct(keys) && Elements(keys) == baseline.Keys
    ensures multiset(Messages(FlatMap(keys, f), quote)) == multiset(Messages(FlatMap(SortedKeys(baseline.Keys), f), quote))
  {
    var sorted := SortedKeys(baseline.Keys);
    StrictlyOrderedIsOrdered(sorted);
    DistinctMultiset(keys);
    DistinctMultiset(sorted);
    FlatForgetsOrder(keys, sorted, f);
    FlatForgetsOrder(FlatMap(keys, f), FlatMap(sorted, f), Worded(quote));
  }

  /** One sorted list, whatever the iteration order. */
  method DiffTags(baseline: TagMap, arns: seq<string>, got: map<string, TagMap>, quote: string -> string)
    returns (problems: seq<string>)
    ensures problems == SortStrings(Messages(Faults(baseline, arns, got), quote))
  {
    problems := [];
    ghost var f := ByArn(baseline, got);
    for i := 0 to |arns|
      invariant multiset(problems) == multiset(Messages(FlatMap(arns[..i], f), quote))
    {
      var arn := arns[i];
      assert arns[..i + 1] == arns[..i] + [arn];
      FlatSnoc(arns[..i], arn, f);
      FlatConcat(FlatMap(arns[..i], f), f(arn), Worded(quote));
      if arn !in got {
        FlatOne(Absent(arn), Worded(quote));
        problems := problems + [arn + ": not returned by GetResources"];
        continue;
      }
      var ps := ResourceProblems(baseline, arn, got[arn], got, quote);
      problems := problems + ps;
    }
    assert arns[..|arns|] == arns;
    SortForgetsOrder(problems, Messages(Faults(baseline, arns, got), quote));
    problems := SortStrings(problems);
  }

  // ----- exactly one problem per fault -----

  /** What the assertion promises to report about one listed resource. */
  ghost predicate IsFault(baseline: TagMap, arn: string, got: map<string, TagMap>, f: Fault) {
    f.arn == arn &&
    match f
    case Absent(_) => arn !in got
    case Missing(_, key, want) => arn in got && key in baseline && want == baseline[key] && key !in got[arn]
    case Differs(_, key, had, want) =>
      arn in got && key in baseline && want == baseline[key] && key in got[arn] && had == got[arn][key] && had != want
  }

  lemma {:induction false} KeyFaultsExact(baseline: TagMap, arn: string, tags: TagMap, keys: seq<string>, f: Fault)
    requires Distinct(keys)
    ensures Distinct(FlatMap(keys, ByKey(baseline, arn, tags)))
    ensures f in FlatMap(keys, ByKey(baseline, arn, tags))
            <==> !f.Absent? && f.key in keys && f in KeyFault(baseline, arn, tags, f.key)
  {
    if keys != [] {
      var n := |keys| - 1;
      var rest := keys[..n];
      KeyFaultsExact(baseline, arn, tags, rest, f);
      var last := KeyFault(baseline, arn, tags, keys[n]);
      if last != [] {
        KeyFaultsExact(baseline, arn, tags, rest, last[0]);
      }
      assert f.Absent? || (f.key in keys <==> f.key in rest || f.key == keys[n]);
    }
  }

  /** Each fault of a listed resource is reported once for that listing, and nothing else is. */
  lemma FaultsExact(baseline: TagMap, arn: string, got: map<string, TagMap>, f: Fault)
    ensures Distinct(ArnFaults(baseline, arn, got))
    ensures f in ArnFaults(baseline, arn, got) <==> IsFault(baseline, arn, got, f)
  {
    if arn in got {
      var keys := SortedKeys(baseline.Keys);
      StrictlyOrderedIsOrdered(keys);
      KeyFaultsExact(baseline, arn, got[arn], keys, f);
      assert forall k :: k in keys <==> k in Elements(keys);
    }
  }

  lemma {:induction false} CountDistinct<A>(s: seq<A>, x: A)
    requires Distinct(s)
    ensures multiset(s)[x] == if x in s then 1 else 0
  {
    if s != [] {
      var n := |s| - 1;
      CountDistinct(s[..n], x);
      assert s == s[..n] + [s[n]];
    }
  }

  /** The whole report: each fault once for every listing of its resource, and nothing else. */
  lemma {:induction false} ReportExact(baseline: TagMap, arns: seq<string>, got: map<string, TagMap>, f: Fault)
    ensures multiset(Faults(baseline, arns, got))[f] == if IsFault(baseline, f.arn, got, f) then multiset(arns)[f.arn] else 0
  {
    if arns != [] {
      var n := |arns| - 1;
      ReportExact(baseline, arns[..n], got, f);
      FaultsExact(baseline, arns[n], got, f);
      CountDistinct(ArnFaults(baseline, arns[n], got), f);
      assert arns == arns[..n] + [arns[n]];
    }
  }

  /** A line of the report about the resource `arn`, in the words of the assertion. */
  ghost predicate Tells(line: string, baseline: TagMap, arn: string, got: map<string, TagMap>, quote: string -> string) {
    || (arn !in got && line == arn + ": not returned by GetResources")
    || (arn in got && exists key :: key in baseline && TellsKey(line, baseline[key], arn, got[arn], key, quote))
  }

  ghost predicate TellsKey(line: string, want: string, arn: string, tags: TagMap, key: string, quote: string -> string) {
    || (key !in tags && line == arn + ": missing tag " + quote(key) + " (want " + quote(want) + ")")
    || (key in tags && tags[key] != want
        && line == arn + ": tag " + quote(key) + " = " + quote(tags[key]) + ", want " + quote(want))
  }

  lemma FaultTells(baseline: TagMap, arn: string, got: map<string, TagMap>, quote: string -> string, line: string)
    ensures Tells(line, baseline, arn, got, quote) <==> exists f :: IsFault(baseline, arn, got, f) && line == Message(f, quote)
  {
    if arn !in got {
      var f := Absent(arn);
      assert IsFault(baseline, arn, got, f);
    } else {
      forall key | key in baseline && TellsKey(line, baseline[key], arn, got[arn], key, quote)
        ensures exists f :: IsFault(baseline, arn, got, f) && line == Message(f, quote)
      {
        var f := if key !in got[arn] then Missing(arn, key, baseline[key]) else Differs(arn, key, got[arn][key], baseline[key]);
        assert IsFault(baseline, arn, got, f) && line == Message(f, quote);
      }
      forall f | IsFault(baseline, arn, got, f) && line == Message(f, quote)
        ensures Tells(line, baseline, arn, got, quote)
      {
        assert TellsKey(line, baseline[f.key], arn, got[arn], f.key, quote);
      }
    }
  }

  lemma FaultListed(baseline: TagMap, arns: seq<string>, got: map<string, TagMap>, f: Fault)
    ensures f in Faults(baseline, arns, got) <==> exists i :: 0 <= i < |arns| && IsFault(baseline, arns[i], got, f)
  {
    FlatMember(arns, ByArn(baseline, got), f);
    forall i | 0 <= i < |arns| ensures f in ByArn(baseline, got)(arns[i]) <==> IsFault(baseline, arns[i], got, f) {
      FaultsExact(baseline, arns[i], got, f);
    }
  }

  lemma LineListed(fs: seq<Fault>, quote: string -> string, line: string)
    ensures line in SortStrings(Messages(fs, quote)) <==> exists f :: f in fs && line == Message(f, quote)
  {
    var ms := Messages(fs, quote);
    assert line in SortStrings(ms) <==> line in multiset(SortStrings(ms));
    assert line in ms <==> line in multiset(ms);
    FlatMember(fs, Worded(quote), line);
    if line in ms {
      var k :| 0 <= k < |fs| && line in Worded(quote)(fs[k]);
      assert fs[k] in fs && line == Message(fs[k], quote);
    }
    forall f | f in fs && line == Message(f, quote) ensures line in ms {
      var k :| 0 <= k < |fs| && fs[k] == f;
      assert line in Worded(quote)(fs[k]);
    }
  }

  /** The report holds a line exactly if it is about a listed resource and tells a fault of it. */
  lemma LinesTell(baseline: TagMap, arns: seq<string>, got: map<string, TagMap>, quote: string -> string, line: string)
    ensures line in SortStrings(Messages(Faults(baseline, arns, got), quote))
            <==> exists i :: 0 <= i < |arns| && Tells(line, baseline, arns[i], got, quote)
  {
    var fs := Faults(baseline, arns, got);
    LineListed(fs, quote, line);
    forall i | 0 <= i < |arns| && Tells(line, baseline, arns[i], got, quote)
      ensures exists f :: f in fs && line == Message(f, quote)
    {
      FaultTells(baseline, arns[i], got, quote, line);
      var f :| IsFault(baseline, arns[i], got, f) && line == Message(f, quote);
      FaultListed(baseline, arns, got, f);
    }
    forall f | f in fs && line == Message(f, quote)
      ensures exists i :: 0 <= i < |arns| && Tells(line, baseline, arns[i], got, quote)
    {
      FaultListed(baseline, arns, got, f);
      var i :| 0 <= i < |arns| && IsFault(baseline, arns[i], got, f);
      FaultTells(baseline, arns[i], got, quote, line);
    }
  }

  ghost predicate Carries(baseline: TagMap, arn: string, got: map<string, TagMap>) {
    arn in got && forall key :: key in baseline ==> key in got[arn] && got[arn][key] == baseline[key]
  }

  lemma NoFaultIff(baseline: TagMap, arn: string, got: map<string, TagMap>)
    ensures ArnFaults(baseline, arn, got) == [] <==> Carries(baseline, arn, got)
  {
    var fs := ArnFaults(baseline, arn, got);
    if fs != [] {
      FaultsExact(baseline, arn, got, fs[0]);
    } else if arn in got {
      forall key | key in baseline
        ensures key in got[arn] && got[arn][key] == baseline[key]
      {
        FaultsExact(baseline, arn, got, Missing(arn, key, baseline[key]));
        if key in got[arn] {
          FaultsExact(baseline, arn, got, Differs(arn, key, got[arn][key], baseline[key]));
        }
      }
    }
  }

  /** Nothing is reported exactly when every listed resource carries the whole baseline. */
  lemma CleanIff(baseline: TagMap, arns: seq<string>, got: map<string, TagMap>, quote: string -> string)
    ensures SortStrings(Messages(Faults(baseline, arns, got), quote)) == []
            <==> forall i :: 0 <= i < |arns| ==> Carries(baseline, arns[i], got)
  {
    var fs := Faults(baseline, arns, got);
    var ms := Messages(fs, quote);
    FlatSize(fs, Worded(quote));
    assert |multiset(ms)| == |ms| && |multiset(SortStrings(ms))| == |SortStrings(ms)|;
    FlatEmptyIff(arns, ByArn(baseline, got));
    forall i | 0 <= i < |arns| ensures ArnFaults(baseline, arns[i], got) == [] <==> Carries(baseline, arns[i], got) {
      NoFaultIff(baseline, arns[i], got);
    }
  }

  // ----- the assertion -----

  datatype Outcome = Passed | NoArns | CallFailed | Problems(list: seq<string>)

  /** `response` is None when the call fails. */
  method PropagatesFromRoot(baseline: TagMap, arns: seq<string>, response: Option<seq<Mapping>>, quote: string -> string)
    returns (r: Outcome)
    ensures r.Passed? <==> baseline == map[]
                           || (arns != [] && response.Some?
                               && forall i :: 0 <= i < |arns| ==> Carries(baseline, arns[i], Index(response.value)))
    ensures r.NoArns? <==> baseline != map[] && arns == []
    ensures r.CallFailed? <==> baseline != map[] && arns != [] && response.None?
    ensures r.Problems? ==> r.list != [] && response.Some?
                            && r.list == SortStrings(Messages(Faults(baseline, arns, Index(response.value)), quote))
  {
    if |baseline| == 0 {
      return Passed;
    }
    if |arns| == 0 {
      return NoArns;
    }
    if response.None? {
      return CallFailed;
    }
    var got := IndexByARN(response.value);
    var problems := DiffTags(baseline, arns, got, quote);
    CleanIff(baseline, arns, got, quote);
    return if |problems| > 0 then Problems(problems) else Passed;
  }
}
