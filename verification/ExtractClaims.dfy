/**
 The answers of the extractor said outright: under which key each kind of resource files what,
 and where a dotted path leads.
 */
module ExtractClaims {
  import opened JsonSyntax
  import opened Canonical
  import opened Options
  import opened Extract
  import Strings

  // ----- ExtractIAMPolicies -----

  ghost predicate IsDocument(doc: Option<string>, text: string) {
    doc.Some? && NormalForm(doc.value) == Normal(text)
  }

  /** The resource files `text` under `key`: the table of the package documentation. */
  ghost predicate Files(r: Resource, key: string, text: string) {
    match r.kind
    case "aws_iam_role" =>
      key == r.address + ".assume_role" && IsDocument(StringValue(r, "assume_role_policy"), text)
    case "aws_iam_role_policy" =>
      var name := StringValue(r, "name");
      name.Some? && name.value != "" && key == r.address + (".inline:" + name.value) && IsDocument(StringValue(r, "policy"), text)
    case "aws_iam_role_policy_attachment" =>
      text != "" && StringValue(r, "policy_arn") == Some(text) && key == r.address + ".managed:" + text
    case "aws_iam_policy" =>
      key == r.address + ".policy" && IsDocument(StringValue(r, "policy"), text)
    case _ => false
  }

  /** What the slot holds is filed under its key. */
  ghost predicate IsContent(s: Slot, key: string, text: string) {
    match s
    case NoSlot => false
    case Document(k, raw) => k == key && NormalForm(raw) == Normal(text)
    case Managed(k, arn) => k == key && arn == text
  }

  lemma InlineFiles(r: Resource, key: string, text: string)
    requires r.kind == "aws_iam_role_policy"
    ensures Files(r, key, text) <==> IsContent(SlotOf(r), key, text)
  {
  }

  lemma AttachmentFiles(r: Resource, key: string, text: string)
    requires r.kind == "aws_iam_role_policy_attachment"
    ensures Files(r, key, text) <==> IsContent(SlotOf(r), key, text)
  {
  }

  lemma OtherFiles(r: Resource, key: string, text: string)
    requires r.kind != "aws_iam_role_policy" && r.kind != "aws_iam_role_policy_attachment"
    ensures Files(r, key, text) <==> IsContent(SlotOf(r), key, text)
  {
  }

  lemma FilesItsSlot(r: Resource, key: string, text: string)
    ensures Files(r, key, text) <==> IsContent(SlotOf(r), key, text)
  {
    if r.kind == "aws_iam_role_policy" {
      InlineFiles(r, key, text);
    } else if r.kind == "aws_iam_role_policy_attachment" {
      AttachmentFiles(r, key, text);
    } else {
      OtherFiles(r, key, text);
    }
  }

  /** Resource `i` files `text` under `key`, and no later one files anything there. */
  ghost predicate FilesLast(rs: seq<Resource>, i: nat, key: string, text: string) {
    && i < |rs| && Files(rs[i], key, text)
    && forall j, t :: i < j < |rs| ==> !Files(rs[j], key, t)
  }

  lemma FiledIsFiles(rs: seq<Resource>, key: string, i: nat)
    requires ExtractAll(rs).Extracted? && i < |rs|
    ensures FiledUnder(rs, key, i) <==> exists text :: Files(rs[i], key, text)
    ensures forall text :: Files(rs[i], key, text) <==> IsContent(SlotOf(rs[i]), key, text)
  {
    OneBadDocument(rs);
    forall text ensures Files(rs[i], key, text) <==> IsContent(SlotOf(rs[i]), key, text) {
      FilesItsSlot(rs[i], key, text);
    }
    if FiledUnder(rs, key, i) {
      var s := SlotOf(rs[i]);
      assert IsContent(s, key, if s.Managed? then s.arn else NormalForm(s.raw).text);
    }
  }

  /** The map holds, under every key, what the last resource files there, and nothing else. */
  lemma EntriesFiled(rs: seq<Resource>, key: string, text: string)
    requires ExtractAll(rs).Extracted?
    ensures key in ExtractAll(rs).out && ExtractAll(rs).out[key] == text <==> exists i: nat :: FilesLast(rs, i, key, text)
  {
    var out := ExtractAll(rs).out;
    LastResourceWins(rs, key);
    forall i: nat | i < |rs|
      ensures FiledUnder(rs, key, i) <==> exists t :: Files(rs[i], key, t)
      ensures forall t :: Files(rs[i], key, t) <==> IsContent(SlotOf(rs[i]), key, t)
    {
      FiledIsFiles(rs, key, i);
    }
    if key in out {
      var i :| LastFiledUnder(rs, key, i);
      assert Holds(out, SlotOf(rs[i]));
      assert Files(rs[i], key, out[key]);
      assert FilesLast(rs, i, key, out[key]);
    }
    if i: nat :| FilesLast(rs, i, key, text) {
      assert LastFiledUnder(rs, key, i);
      assert Holds(out, SlotOf(rs[i]));
    }
  }

  // ----- ExtractResourceAttribute -----

  /** `vs` are the values met along the path, from `from` to `to`, each a member of the one before. */
  ghost predicate Follows(vs: seq<Json>, from: Json, segs: seq<string>, to: Json) {
    && |vs| == |segs| + 1 && vs[0] == from && vs[|segs|] == to
    && forall k :: 0 <= k < |segs| ==> vs[k].Obj? && segs[k] in vs[k].m && vs[k].m[segs[k]] == vs[k + 1]
  }

  ghost predicate Leads(from: Json, segs: seq<string>, to: Json) {
    exists vs :: Follows(vs, from, segs, to)
  }

  /** The path goes as far as an object without the member `segs[k]`. */
  ghost predicate MissingAt(from: Json, segs: seq<string>, k: nat) {
    k < |segs| && exists v :: Leads(from, segs[..k], v) && v.Obj? && segs[k] !in v.m
  }

  /** The path goes as far as something that is not an object. */
  ghost predicate BlockedAt(from: Json, segs: seq<string>, k: nat) {
    k < |segs| && exists v :: Leads(from, segs[..k], v) && !v.Obj?
  }

  lemma LeadsCons(from: Json, segs: seq<string>, to: Json)
    requires segs != [] && from.Obj? && segs[0] in from.m && Leads(from.m[segs[0]], segs[1..], to)
    ensures Leads(from, segs, to)
  {
    var vs :| Follows(vs, from.m[segs[0]], segs[1..], to);
    assert Follows([from] + vs, from, segs, to);
  }

  lemma LeadsNil(v: Json)
    ensures Leads(v, [], v)
  {
    assert Follows([v], v, [], v);
  }

  /** A string whose first character that is not white space opens an object or an array. */
  ghost predicate OpensJSON(s: string) {
    exists k: nat :: k < |s| && (s[k] == '{' || s[k] == '[') && forall j :: 0 <= j < k ==> Strings.IsUnicodeSpace(s[j])
  }

  lemma {:induction false} LooksMeans(s: string)
    ensures LooksLikeJSON(s) <==> OpensJSON(s)
  {
    if s != "" && Strings.IsUnicodeSpace(s[0]) {
      LooksMeans(s[1..]);
      if OpensJSON(s[1..]) {
        var k: nat :| k < |s[1..]| && (s[1..][k] == '{' || s[1..][k] == '[')
                      && forall j :: 0 <= j < k ==> Strings.IsUnicodeSpace(s[1..][j]);
        assert s[k + 1] == s[1..][k];
        assert forall j :: 0 < j < k + 1 ==> s[j] == s[1..][j - 1];
      }
      if OpensJSON(s) {
        var k: nat :| k < |s| && (s[k] == '{' || s[k] == '[') && forall j :: 0 <= j < k ==> Strings.IsUnicodeSpace(s[j]);
        assert k > 0 && s[1..][k - 1] == s[k];
        assert forall j :: 0 <= j < k - 1 ==> s[1..][j] == s[j + 1];
      }
    }
  }

  /** What is returned for a value: the normal form of the document a string holds, or the printed value. */
  ghost predicate Renders(v: Json, text: string) {
    if v.Str? && OpensJSON(v.s) then NormalForm(v.s) == Normal(text) else text == CanonicalText(v)
  }

  lemma LeafRenders(v: Json)
    ensures forall text :: Leaf(v) == Found(text) <==> Renders(v, text)
    ensures Leaf(v).BadJson? <==> v.Str? && OpensJSON(v.s) && NormalForm(v.s).Rejected?
    ensures Leaf(v).Found? || Leaf(v).BadJson? || Leaf(v).OutsideModel?
  {
    if v.Str? {
      LooksMeans(v.s);
    }
  }

  /** What becomes of a path: it leads to a value, or misses a member, or meets something that has none. */
  lemma {:induction false} PathEnds(from: Json, segs: seq<string>) returns (k: nat, to: Json)
    ensures k <= |segs| && Leads(from, segs[..k], to)
    ensures k == |segs| ==> Walk(from, segs) == Leaf(to)
    ensures k < |segs| && !to.Obj? ==> Walk(from, segs) == NotAnObject(segs[k])
    ensures k < |segs| && to.Obj? ==> segs[k] !in to.m && Walk(from, segs) == NotPresent
    decreases |segs|
  {
    LeadsNil(from);
    assert segs[..0] == [];
    if segs == [] || !from.Obj? || segs[0] !in from.m {
      k, to := 0, from;
    } else {
      k, to := PathEnds(from.m[segs[0]], segs[1..]);
      assert segs[..k + 1][1..] == segs[1..][..k];
      LeadsCons(from, segs[..k + 1], to);
      k := k + 1;
    }
  }

  lemma {:induction false} WalkAlong(from: Json, segs: seq<string>, k: nat, v: Json)
    requires k <= |segs| && Leads(from, segs[..k], v)
    ensures Walk(from, segs) == Walk(v, segs[k..])
    decreases k
  {
    var vs :| Follows(vs, from, segs[..k], v);
    if k == 0 {
      assert segs[0..] == segs;
    } else {
      assert segs[..k][0] == segs[0];
      var rest := segs[1..];
      assert rest[..k - 1] == segs[..k][1..] && rest[k - 1..] == segs[k..];
      assert Follows(vs[1..], vs[1], rest[..k - 1], v);
      WalkAlong(vs[1], rest, k - 1, v);
    }
  }

  /** The path has an answer exactly if it leads to a value, which is then what is returned. */
  lemma FoundIff(from: Json, segs: seq<string>, text: string)
    ensures Walk(from, segs) == Found(text) <==> exists v :: Leads(from, segs, v) && Renders(v, text)
  {
    assert segs[..|segs|] == segs;
    var k, to := PathEnds(from, segs);
    LeafRenders(to);
    forall v | Leads(from, segs, v) && Renders(v, text) ensures Walk(from, segs) == Found(text) {
      WalkAlong(from, segs, |segs|, v);
      LeafRenders(v);
    }
  }

  /** Each error of the path has its own cause. */
  lemma PathErrors(from: Json, segs: seq<string>, segment: string)
    ensures Walk(from, segs).NotPresent? <==> exists k: nat :: MissingAt(from, segs, k)
    ensures Walk(from, segs) == NotAnObject(segment) <==> exists k: nat :: BlockedAt(from, segs, k) && segs[k] == segment
  {
    var k, to := PathEnds(from, segs);
    LeafRenders(to);
    if k < |segs| {
      assert if to.Obj? then MissingAt(from, segs, k) else BlockedAt(from, segs, k);
    }
    forall n: nat | MissingAt(from, segs, n) ensures Walk(from, segs).NotPresent? {
      var v :| Leads(from, segs[..n], v) && v.Obj? && segs[n] !in v.m;
      WalkAlong(from, segs, n, v);
    }
    forall n: nat | BlockedAt(from, segs, n) ensures Walk(from, segs) == NotAnObject(segs[n]) {
      var v :| Leads(from, segs[..n], v) && !v.Obj?;
      WalkAlong(from, segs, n, v);
    }
  }

  lemma BadJsonIff(from: Json, segs: seq<string>)
    ensures Walk(from, segs).BadJson?
            <==> exists v :: Leads(from, segs, v) && v.Str? && OpensJSON(v.s) && NormalForm(v.s).Rejected?
  {
    assert segs[..|segs|] == segs;
    var k, to := PathEnds(from, segs);
    LeafRenders(to);
    forall v | Leads(from, segs, v) && v.Str? && OpensJSON(v.s) && NormalForm(v.s).Rejected?
      ensures Walk(from, segs).BadJson?
    {
      WalkAlong(from, segs, |segs|, v);
      LeafRenders(v);
    }
  }
}
