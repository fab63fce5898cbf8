/** Extraction of policy documents from a decoded plan: assert/snapshot/extract.go. */
module Extract {
  import Concatenation
  import opened JsonSyntax
  import opened JsonParser
  import opened Canonical
  import opened Options
  import Addresses
  import Strings

  /** `values` is None when the plan has no values for the resource. */
  datatype Resource = Resource(address: string, kind: string, values: Option<map<string, Json>>)

  /** The policy a resource carries, if any, and the key it is filed under. */
  datatype Slot = NoSlot | Document(key: string, raw: string) | Managed(key: string, arn: string)

  datatype Extraction = Extracted(out: map<string, string>) | BadDocument(key: string) | Outside

  /** `r.Values[field].(string)` */
  function StringValue(r: Resource, field: string): Option<string> {
    if r.values.Some? && field in r.values.value && r.values.value[field].Str? then Some(r.values.value[field].s)
    else None
  }

  function StringPolicy(r: Resource, field: string, suffix: string): Slot {
    match StringValue(r, field)
    case None => NoSlot
    case Some(doc) => Document(r.address + suffix, doc)
  }

  function SlotOf(r: Resource): Slot {
    if r.kind == "aws_iam_role" then StringPolicy(r, "assume_role_policy", ".assume_role")
    else if r.kind == "aws_iam_role_policy" then
      match StringValue(r, "name")
      case None => NoSlot
      case Some(name) => if name == "" then NoSlot else StringPolicy(r, "policy", ".inline:" + name)
    else if r.kind == "aws_iam_role_policy_attachment" then
      match StringValue(r, "policy_arn")
      case None => NoSlot
      case Some(arn) => if arn == "" then NoSlot else Managed(r.address + ".managed:" + arn, arn)
    else if r.kind == "aws_iam_policy" then StringPolicy(r, "policy", ".policy")
    else NoSlot
  }

  ghost function AddSlot(out: map<string, string>, s: Slot): Extraction {
    match s
    case NoSlot => Extracted(out)
    case Managed(key, arn) => Extracted(out[key := arn])
    case Document(key, raw) =>
      match NormalForm(raw)
      case Rejected => BadDocument(key)
      case Unmodelled => Outside
      case Normal(text) => Extracted(out[key := text])
  }

  ghost function ExtractAll(rs: seq<Resource>): Extraction {
    if rs == [] then Extracted(map[])
    else
      var before := ExtractAll(rs[..|rs| - 1]);
      if before.Extracted? then AddSlot(before.out, SlotOf(rs[|rs| - 1])) else before
  }

  /** A field that is not a string adds nothing. */
  method ExtractStringPolicy(r: Resource, out: map<string, string>, field: string, suffix: string) returns (e: Extraction)
    ensures e == AddSlot(out, StringPolicy(r, field, suffix))
  {
    if r.values.None? || field !in r.values.value || !r.values.value[field].Str? {
      return Extracted(out);
    }
    var normalized := NormalizeJSON(r.values.value[field].s);
    match normalized {
      case Rejected => e := BadDocument(r.address + suffix);
      case Unmodelled => e := Outside;
      case Normal(text) => e := Extracted(out[r.address + suffix := text]);
    }
  }

  method ExtractFromResource(r: Resource, out: map<string, string>) returns (e: Extraction)
    ensures e == AddSlot(out, SlotOf(r))
  {
    if r.kind == "aws_iam_role" {
      e := ExtractStringPolicy(r, out, "assume_role_policy", ".assume_role");
    } else if r.kind == "aws_iam_role_policy" {
      if r.values.None? || "name" !in r.values.value || !r.values.value["name"].Str? || r.values.value["name"].s == "" {
        return Extracted(out);
      }
      e := ExtractStringPolicy(r, out, "policy", ".inline:" + r.values.value["name"].s);
    } else if r.kind == "aws_iam_role_policy_attachment" {
      e := Extracted(out);
      if r.values.Some? && "policy_arn" in r.values.value && r.values.value["policy_arn"].Str? {
        var arn := r.values.value["policy_arn"].s;
        if arn != "" {
          e := Extracted(out[r.address + ".managed:" + arn := arn]);
        }
      }
    } else if r.kind == "aws_iam_policy" {
      e := ExtractStringPolicy(r, out, "policy", ".policy");
    } else {
      e := Extracted(out);
    }
  }

  method ExtractIAMPolicies(rs: seq<Resource>) returns (e: Extraction)
    ensures e == ExtractAll(rs)
  {
    e := Extracted(map[]);
    for i := 0 to |rs|
      invariant e.Extracted? && e == ExtractAll(rs[..i])
    {
      assert rs[..i + 1][..i] == rs[..i];
      e := ExtractFromResource(rs[i], e.out);
      if !e.Extracted? {
        FirstFailure(rs, i + 1);
        return;
      }
    }
    assert rs[..|rs|] == rs;
  }

  /** A failure part-way is the result of the whole. */
  lemma {:induction false} FirstFailure(rs: seq<Resource>, n: nat)
    requires n <= |rs| && !ExtractAll(rs[..n]).Extracted?
    ensures ExtractAll(rs) == ExtractAll(rs[..n])
    decreases |rs| - n
  {
    if n < |rs| {
      assert rs[..n + 1][..n] == rs[..n];
      FirstFailure(rs, n + 1);
    } else {
      assert rs[..n] == rs;
    }
  }

  // ----- keys -----

  /** What a slot adds to the address: a fixed suffix, or one that ends in a name. */
  datatype KeyParts = Plain(suffix: string) | Tagged(suffix: string, name: string)

  predicate PartsOk(k: KeyParts) {
    match k
    case Plain(s) => s == ".assume_role" || s == ".policy"
    case Tagged(s, _) => s == ".inline:" || s == ".managed:"
  }

  function Ending(k: KeyParts): string {
    match k
    case Plain(s) => s
    case Tagged(s, name) => s + name
  }

  ghost function SlotKey(r: Resource): (k: KeyParts)
    requires !SlotOf(r).NoSlot?
    ensures PartsOk(k) && SlotOf(r).key == r.address + Ending(k)
  {
    if r.kind == "aws_iam_role" then Plain(".assume_role")
    else if r.kind == "aws_iam_policy" then Plain(".policy")
    else if r.kind == "aws_iam_role_policy" then Tagged(".inline:", StringValue(r, "name").value)
    else
      var arn := StringValue(r, "policy_arn").value;
      assert (r.address + ".managed:") + arn == r.address + (".managed:" + arn);
      Tagged(".managed:", arn)
  }

  /** The key of `k` at `a` reaches into the longer address `b`: the name of `k` holds the rest of it and all of `l`. */
  ghost predicate Nested(a: string, k: KeyParts, b: string, l: KeyParts) {
    k.Tagged? && exists m :: b == a + (k.suffix + m) && k.name == m + Ending(l)
  }

  /** An ending has its one full stop in front, up to its name. */
  lemma OneStop(k: KeyParts)
    requires PartsOk(k)
    ensures Ending(k) != "" && Ending(k)[0] == '.'
    ensures forall i :: 0 < i < |k.suffix| ==> Ending(k)[i] != '.'
  {
  }

  lemma NestedShares(a: string, k: KeyParts, b: string, l: KeyParts, m: string)
    requires k.Tagged? && b == a + (k.suffix + m) && k.name == m + Ending(l)
    ensures a + Ending(k) == b + Ending(l)
  {
    assert k.suffix + (m + Ending(l)) == (k.suffix + m) + Ending(l);
    assert a + ((k.suffix + m) + Ending(l)) == (a + (k.suffix + m)) + Ending(l);
  }

  lemma CutShared(a: string, s: string, b: string, t: string)
    requires |a| < |b| && a + s == b + t
    ensures b == a + b[|a|..] && s == b[|a|..] + t
  {
    assert a == (a + s)[..|a|] && b == (a + s)[..|b|];
    assert s == (a + s)[|a|..] && t == (b + t)[|b|..];
  }

  /** An ending inside another one starts in its name. */
  lemma InsideName(k: KeyParts, c: string, l: KeyParts)
    requires PartsOk(k) && PartsOk(l) && c != "" && Ending(k) == c + Ending(l)
    ensures k.Tagged? && |c| >= |k.suffix| && c == k.suffix + c[|k.suffix|..] && k.name == c[|k.suffix|..] + Ending(l)
  {
    OneStop(k);
    OneStop(l);
    assert Ending(k)[|c|] == Ending(l)[0];
    assert c[..|k.suffix|] == Ending(k)[..|k.suffix|];
    assert Ending(k)[|k.suffix|..] == c[|k.suffix|..] + Ending(l);
  }

  lemma SharedNests(a: string, k: KeyParts, b: string, l: KeyParts)
    requires PartsOk(k) && PartsOk(l) && |a| < |b| && a + Ending(k) == b + Ending(l)
    ensures Nested(a, k, b, l)
  {
    CutShared(a, Ending(k), b, Ending(l));
    InsideName(k, b[|a|..], l);
  }

  lemma SameEnding(k: KeyParts, l: KeyParts)
    requires PartsOk(k) && PartsOk(l) && Ending(k) == Ending(l)
    ensures k == l
  {
    assert Ending(k)[1] == k.suffix[1] && Ending(l)[1] == l.suffix[1];
    if k.Tagged? {
      assert k.name == Ending(k)[|k.suffix|..];
    }
  }

  lemma SameAddress(a: string, k: KeyParts, b: string, l: KeyParts)
    requires PartsOk(k) && PartsOk(l) && |a| == |b| && a + Ending(k) == b + Ending(l)
    ensures a == b && k == l
  {
    assert a == (a + Ending(k))[..|a|] && b == (b + Ending(l))[..|b|];
    assert Ending(k) == (a + Ending(k))[|a|..] && Ending(l) == (b + Ending(l))[|b|..];
    SameEnding(k, l);
  }

  predicate Bears(r: Resource) {
    !SlotOf(r).NoSlot?
  }

  /** What in the addresses, kinds and names of two resources makes them share an entry. */
  ghost predicate Clash(r: Resource, s: Resource)
    requires Bears(r) && Bears(s)
  {
    || (r.address == s.address && SlotKey(r) == SlotKey(s))
    || Nested(r.address, SlotKey(r), s.address, SlotKey(s))
    || Nested(s.address, SlotKey(s), r.address, SlotKey(r))
  }

  /** Two resources share a key exactly when they are one slot of one address or one reaches into the other's address. */
  lemma SharedKeyIff(r: Resource, s: Resource)
    requires Bears(r) && Bears(s)
    ensures SlotOf(r).key == SlotOf(s).key <==> Clash(r, s)
  {
    var a, k, b, l := r.address, SlotKey(r), s.address, SlotKey(s);
    if Nested(a, k, b, l) {
      var m :| b == a + (k.suffix + m) && k.name == m + Ending(l);
      NestedShares(a, k, b, l, m);
    }
    if Nested(b, l, a, k) {
      var m :| a == b + (l.suffix + m) && l.name == m + Ending(k);
      NestedShares(b, l, a, k, m);
    }
    if a + Ending(k) == b + Ending(l) {
      if |a| < |b| {
        SharedNests(a, k, b, l);
      } else if |b| < |a| {
        SharedNests(b, l, a, k);
      } else {
        SameAddress(a, k, b, l);
      }
    }
  }

  // ----- whose entry it is -----

  /** What a slot's entry holds. */
  ghost predicate Holds(out: map<string, string>, s: Slot) {
    !s.NoSlot? ==>
      && s.key in out
      && (if s.Managed? then out[s.key] == s.arn else NormalForm(s.raw) == Normal(out[s.key]))
  }

  ghost predicate FiledUnder(rs: seq<Resource>, key: string, i: int) {
    0 <= i < |rs| && Bears(rs[i]) && SlotOf(rs[i]).key == key
  }

  ghost predicate LastFiledUnder(rs: seq<Resource>, key: string, i: int) {
    FiledUnder(rs, key, i) && forall j :: i < j < |rs| ==> !FiledUnder(rs, key, j)
  }

  lemma AddKeepsOthers(out: map<string, string>, s: Slot, other: Slot)
    requires AddSlot(out, s).Extracted? && Holds(out, other)
    requires !s.NoSlot? && !other.NoSlot? ==> s.key != other.key
    ensures Holds(AddSlot(out, s).out, other)
  {
  }

  lemma AddHolds(out: map<string, string>, s: Slot)
    requires AddSlot(out, s).Extracted?
    ensures Holds(AddSlot(out, s).out, s)
    ensures AddSlot(out, s).out.Keys == out.Keys + if s.NoSlot? then {} else {s.key}
  {
  }

  /** In any plan, an entry is that of the last resource filed under its key, and there are no other entries. */
  lemma {:induction false} LastResourceWins(rs: seq<Resource>, key: string)
    requires ExtractAll(rs).Extracted?
    ensures key in ExtractAll(rs).out <==> exists i :: LastFiledUnder(rs, key, i)
    ensures forall i :: LastFiledUnder(rs, key, i) ==> Holds(ExtractAll(rs).out, SlotOf(rs[i]))
    decreases |rs|
  {
    if rs != [] {
      var n := |rs| - 1;
      var init, s := rs[..n], SlotOf(rs[n]);
      var before := ExtractAll(init).out;
      LastResourceWins(init, key);
      AddHolds(before, s);
      FiledSnoc(rs, key);
      if FiledUnder(rs, key, n) {
        assert LastFiledUnder(rs, key, n);
      } else {
        forall i | LastFiledUnder(rs, key, i)
          ensures Holds(ExtractAll(rs).out, SlotOf(rs[i]))
        {
          assert LastFiledUnder(init, key, i);
          AddKeepsOthers(before, s, SlotOf(rs[i]));
        }
      }
    }
  }

  lemma FiledSnoc(rs: seq<Resource>, key: string)
    requires rs != []
    ensures var n := |rs| - 1;
            !FiledUnder(rs, key, n) ==> forall i :: LastFiledUnder(rs, key, i) <==> LastFiledUnder(rs[..n], key, i)
  {
    var n := |rs| - 1;
    assert forall i :: 0 <= i < n ==> rs[..n][i] == rs[i];
    assert forall i :: i != n ==> (FiledUnder(rs, key, i) <==> FiledUnder(rs[..n], key, i));
  }

  /** A resource keeps its own entry exactly when no later one clashes with it. */
  lemma KeptIff(rs: seq<Resource>, i: nat)
    requires i < |rs| && Bears(rs[i])
    ensures LastFiledUnder(rs, SlotOf(rs[i]).key, i)
            <==> forall j :: i < j < |rs| && Bears(rs[j]) ==> !Clash(rs[i], rs[j])
  {
    forall j | i < j < |rs| && Bears(rs[j])
      ensures FiledUnder(rs, SlotOf(rs[i]).key, j) <==> Clash(rs[i], rs[j])
    {
      SharedKeyIff(rs[i], rs[j]);
    }
  }

  // ----- one entry for each -----

  function Bearing(rs: seq<Resource>): nat {
    if rs == [] then 0 else Bearing(rs[..|rs| - 1]) + if Bears(rs[|rs| - 1]) then 1 else 0
  }

  ghost predicate NoClash(rs: seq<Resource>) {
    forall i, j :: 0 <= i < j < |rs| && Bears(rs[i]) && Bears(rs[j]) ==> !Clash(rs[i], rs[j])
  }

  lemma {:induction false} NoClashSnoc(rs: seq<Resource>)
    requires rs != [] && ExtractAll(rs).Extracted?
    ensures var n := |rs| - 1;
            NoClash(rs) <==> NoClash(rs[..n]) && (Bears(rs[n]) ==> SlotOf(rs[n]).key !in ExtractAll(rs[..n]).out)
  {
    var n := |rs| - 1;
    var init := rs[..n];
    assert forall i :: 0 <= i < n ==> init[i] == rs[i];
    if Bears(rs[n]) {
      var key := SlotOf(rs[n]).key;
      LastResourceWins(init, key);
      forall i | 0 <= i < n && Bears(rs[i])
        ensures Clash(rs[i], rs[n]) <==> FiledUnder(init, key, i)
      {
        SharedKeyIff(rs[i], rs[n]);
      }
      if exists i :: FiledUnder(init, key, i) {
        var i :| FiledUnder(init, key, i);
        var last := LastOf(init, key, i);
      }
    }
  }

  lemma {:induction false} LastOf(rs: seq<Resource>, key: string, i: int) returns (last: int)
    requires FiledUnder(rs, key, i)
    ensures LastFiledUnder(rs, key, last)
    decreases |rs| - i
  {
    if LastFiledUnder(rs, key, i) {
      last := i;
    } else {
      var j :| i < j < |rs| && FiledUnder(rs, key, j);
      last := LastOf(rs, key, j);
    }
  }

  /** The promise of one entry per policy-bearing resource is kept exactly when no two of them clash. */
  lemma {:induction false} OneEntryEachIff(rs: seq<Resource>)
    requires ExtractAll(rs).Extracted?
    ensures |ExtractAll(rs).out| <= Bearing(rs)
    ensures |ExtractAll(rs).out| == Bearing(rs) <==> NoClash(rs)
    decreases |rs|
  {
    if rs != [] {
      var n := |rs| - 1;
      OneEntryEachIff(rs[..n]);
      NoClashSnoc(rs);
      OneMoreEntry(ExtractAll(rs[..n]).out, SlotOf(rs[n]));
    }
  }

  lemma OneMoreEntry(out: map<string, string>, s: Slot)
    requires AddSlot(out, s).Extracted?
    ensures |AddSlot(out, s).out| == |out| + if s.NoSlot? || s.key in out then 0 else 1
  {
    var after := AddSlot(out, s).out;
    AddHolds(out, s);
    assert |after| == |after.Keys| && |out| == |out.Keys|;
    if !s.NoSlot? && s.key in out {
      assert after.Keys == out.Keys;
    }
  }

  /** Carries a policy, by its kind and its policy field alone. */
  predicate CarriesPolicy(r: Resource) {
    (r.kind == "aws_iam_role" && StringValue(r, "assume_role_policy").Some?)
    || (r.kind == "aws_iam_role_policy" && StringValue(r, "policy").Some?)
    || (r.kind == "aws_iam_role_policy_attachment" && StringValue(r, "policy_arn").Some? && StringValue(r, "policy_arn").value != "")
    || (r.kind == "aws_iam_policy" && StringValue(r, "policy").Some?)
  }

  function Carrying(rs: seq<Resource>): nat {
    if rs == [] then 0 else Carrying(rs[..|rs| - 1]) + if CarriesPolicy(rs[|rs| - 1]) then 1 else 0
  }

  predicate Unnamed(r: Resource) {
    r.kind == "aws_iam_role_policy" && StringValue(r, "policy").Some?
    && (StringValue(r, "name").None? || StringValue(r, "name").value == "")
  }

  ghost predicate AllNamed(rs: seq<Resource>) {
    forall i :: 0 <= i < |rs| ==> !Unnamed(rs[i])
  }

  lemma {:induction false} BearsIff(r: Resource)
    ensures Bears(r) <==> CarriesPolicy(r) && !Unnamed(r)
  {
  }

  lemma {:induction false} CarryingIff(rs: seq<Resource>)
    ensures Bearing(rs) <= Carrying(rs)
    ensures Bearing(rs) == Carrying(rs) <==> AllNamed(rs)
  {
    if rs != [] {
      var n := |rs| - 1;
      CarryingIff(rs[..n]);
      BearsIff(rs[n]);
      assert AllNamed(rs) <==> AllNamed(rs[..n]) && !Unnamed(rs[n]) by {
        assert forall i :: 0 <= i < n ==> rs[..n][i] == rs[i];
      }
    }
  }

  /**
   The promise of one entry for each resource that carries a policy is kept exactly when no two of
   them clash and every inline policy has a name: one whose name is not known yet is left out.
   */
  lemma OneEntryPerPolicyIff(rs: seq<Resource>)
    requires ExtractAll(rs).Extracted?
    ensures |ExtractAll(rs).out| == Carrying(rs) <==> NoClash(rs) && AllNamed(rs)
  {
    OneEntryEachIff(rs);
    CarryingIff(rs);
  }

  /** A plan with one inline policy whose name the provider will choose: its policy has no entry. */
  lemma UnnamedLeftOut(address: string, doc: string)
    ensures var r := Resource(address, "aws_iam_role_policy", Some(map["policy" := Str(doc)]));
            CarriesPolicy(r) && ExtractAll([r]) == Extracted(map[])
  {
    var r := Resource(address, "aws_iam_role_policy", Some(map["policy" := Str(doc)]));
    assert SlotOf(r).NoSlot?;
    assert [r][..0] == [];
    assert ExtractAll([r]) == AddSlot(ExtractAll([]).out, SlotOf(r));
  }

  /** Nothing is overwritten: without a clash every policy-bearing resource keeps its own entry, and there are no others. */
  lemma NothingOverwritten(rs: seq<Resource>)
    requires ExtractAll(rs).Extracted? && NoClash(rs)
    ensures forall i :: 0 <= i < |rs| ==> Holds(ExtractAll(rs).out, SlotOf(rs[i]))
    ensures |ExtractAll(rs).out| == Bearing(rs)
  {
    OneEntryEachIff(rs);
    forall i | 0 <= i < |rs| && Bears(rs[i])
      ensures Holds(ExtractAll(rs).out, SlotOf(rs[i]))
    {
      KeptIff(rs, i);
      LastResourceWins(rs, SlotOf(rs[i]).key);
    }
  }

  /** Distinct addresses, none of them another one followed by a tag. */
  ghost predicate Apart(rs: seq<Resource>) {
    forall i, j :: 0 <= i < |rs| && 0 <= j < |rs| && i != j ==> AddressesApart(rs[i].address, rs[j].address)
  }

  ghost predicate AddressesApart(a: string, b: string) {
    a != b && !(a + ".inline:" <= b) && !(a + ".managed:" <= b)
  }

  /** A condition on the addresses alone: for_each addresses with colons in them meet it too. */
  lemma ApartNeverClash(rs: seq<Resource>)
    requires Apart(rs)
    ensures NoClash(rs)
  {
    forall i, j | 0 <= i < j < |rs| && Bears(rs[i]) && Bears(rs[j])
      ensures !Clash(rs[i], rs[j])
    {
      assert AddressesApart(rs[i].address, rs[j].address) && AddressesApart(rs[j].address, rs[i].address);
      ApartNotNested(rs[i].address, SlotKey(rs[i]), rs[j].address, SlotKey(rs[j]));
      ApartNotNested(rs[j].address, SlotKey(rs[j]), rs[i].address, SlotKey(rs[i]));
    }
  }

  lemma ApartNotNested(a: string, k: KeyParts, b: string, l: KeyParts)
    requires PartsOk(k) && AddressesApart(a, b)
    ensures !Nested(a, k, b, l)
  {
    forall m | k.Tagged?
      ensures b != a + (k.suffix + m)
    {
      assert a + (k.suffix + m) == (a + k.suffix) + m;
      assert a + k.suffix <= (a + k.suffix) + m;
    }
  }

  lemma ColonShows(a: string, tag: string, b: string)
    requires tag != "" && tag[|tag| - 1] == ':' && Strings.Without(b, ':')
    ensures !(a + tag <= b)
  {
    var i := |a| + |tag| - 1;
    assert (a + tag)[i] == ':';
    Strings.WithoutAt(b, ':');
  }

  /** In particular distinct colon-free addresses do. */
  lemma ColonFreeApart(rs: seq<Resource>)
    requires forall i :: 0 <= i < |rs| ==> Strings.Without(rs[i].address, ':')
    requires forall i, j :: 0 <= i < j < |rs| ==> rs[i].address != rs[j].address
    ensures Apart(rs)
  {
    forall i, j | 0 <= i < |rs| && 0 <= j < |rs| && i != j
      ensures AddressesApart(rs[i].address, rs[j].address)
    {
      ColonShows(rs[i].address, ".inline:", rs[j].address);
      ColonShows(rs[i].address, ".managed:", rs[j].address);
    }
  }

  // ----- the addresses of a plan -----

  /** Distinct addresses of root modules never clash: no plan Terraform writes has an entry overwritten. */
  lemma PlansNeverClash(rs: seq<Resource>)
    requires forall i :: 0 <= i < |rs| ==> Addresses.IsAddress(rs[i].address)
    requires forall i, j :: 0 <= i < j < |rs| ==> rs[i].address != rs[j].address
    ensures Apart(rs) && NoClash(rs)
  {
    forall i, j | 0 <= i < |rs| && 0 <= j < |rs| && i != j
      ensures AddressesApart(rs[i].address, rs[j].address)
    {
      Addresses.NeverExtended(rs[i].address, rs[j].address);
    }
    ApartNeverClash(rs);
  }

  /** In such a plan only an inline policy without a name can be missing. */
  lemma PlanEntriesIff(rs: seq<Resource>)
    requires ExtractAll(rs).Extracted?
    requires forall i :: 0 <= i < |rs| ==> Addresses.IsAddress(rs[i].address)
    requires forall i, j :: 0 <= i < j < |rs| ==> rs[i].address != rs[j].address
    ensures |ExtractAll(rs).out| == Carrying(rs) <==> AllNamed(rs)
  {
    PlansNeverClash(rs);
    OneEntryPerPolicyIff(rs);
  }

  /** Every document that has its entry is there as a fixed point of NormalizeJSON, in any plan. */
  lemma DocumentsAreNormal(rs: seq<Resource>, i: nat)
    requires ExtractAll(rs).Extracted? && i < |rs| && SlotOf(rs[i]).Document?
    requires LastFiledUnder(rs, SlotOf(rs[i]).key, i)
    ensures var (out, key) := (ExtractAll(rs).out, SlotOf(rs[i]).key);
            key in out && NormalForm(out[key]) == Normal(out[key])
  {
    LastResourceWins(rs, SlotOf(rs[i]).key);
    NormalFormIdempotent(SlotOf(rs[i]).raw);
  }

  /** There is a map exactly when every document is well formed: one bad document gives no map at all. */
  lemma {:induction false} OneBadDocument(rs: seq<Resource>)
    ensures ExtractAll(rs).Extracted? <==>
            forall i :: 0 <= i < |rs| && SlotOf(rs[i]).Document? ==> NormalForm(SlotOf(rs[i]).raw).Normal?
    decreases |rs|
  {
    if rs != [] {
      var init := rs[..|rs| - 1];
      OneBadDocument(init);
      assert forall i :: 0 <= i < |init| ==> init[i] == rs[i];
    }
  }

  lemma ExtractSnoc(rs: seq<Resource>, r: Resource)
    ensures ExtractAll(rs + [r]) ==
            if ExtractAll(rs).Extracted? then AddSlot(ExtractAll(rs).out, SlotOf(r)) else ExtractAll(rs)
  {
    assert (rs + [r])[..|rs|] == rs;
  }

  function InlinePolicy(address: string, name: string, doc: string): Resource {
    Resource(address, "aws_iam_role_policy", Some(map["name" := Str(name), "policy" := Str(doc)]))
  }

  lemma InlineSlot(address: string, name: string, doc: string)
    requires name != ""
    ensures SlotOf(InlinePolicy(address, name, doc)) == Document(address + (".inline:" + name), doc)
  {
  }

  lemma NormalSlot(out: map<string, string>, key: string, doc: Json)
    ensures AddSlot(out, Document(key, CanonicalText(doc))) == Extracted(out[key := CanonicalText(doc)])
  {
    CanonicalIsNormal(doc);
  }

  lemma InlineAdds(out: map<string, string>, address: string, name: string, doc: Json)
    requires name != ""
    ensures AddSlot(out, SlotOf(InlinePolicy(address, name, CanonicalText(doc))))
            == Extracted(out[address + (".inline:" + name) := CanonicalText(doc)])
  {
    InlineSlot(address, name, CanonicalText(doc));
    NormalSlot(out, address + (".inline:" + name), doc);
  }

  lemma TwoPolicies(x: Resource, y: Resource, out: map<string, string>)
    requires AddSlot(map[], SlotOf(x)) == Extracted(out)
    ensures ExtractAll([x, y]) == AddSlot(out, SlotOf(y))
  {
    ExtractSnoc([], x);
    ExtractSnoc([x], y);
    assert [] + [x] == [x] && [x] + [y] == [x, y];
  }

  lemma InlineTwice(a: string, m: string, b: string, n: string, first: Json, second: Json)
    requires m != "" && n != ""
    ensures ExtractAll([InlinePolicy(a, m, CanonicalText(first)), InlinePolicy(b, n, CanonicalText(second))])
            == Extracted(map[a + (".inline:" + m) := CanonicalText(first)][b + (".inline:" + n) := CanonicalText(second)])
  {
    var out := map[a + (".inline:" + m) := CanonicalText(first)];
    InlineAdds(map[], a, m, first);
    InlineAdds(out, b, n, second);
    TwoPolicies(InlinePolicy(a, m, CanonicalText(first)), InlinePolicy(b, n, CanonicalText(second)), out);
  }

  /** Without the restriction on addresses entries do collide: two resources, one entry. */
  lemma ColonsCollide(address: string, m: string, n: string, first: Json, second: Json)
    requires m != "" && n != ""
    ensures address != address + (".inline:" + m)
    ensures ExtractAll([InlinePolicy(address, m + (".inline:" + n), CanonicalText(first)),
                        InlinePolicy(address + (".inline:" + m), n, CanonicalText(second))])
            == Extracted(map[address + (".inline:" + (m + (".inline:" + n))) := CanonicalText(second)])
  {
    InlineTwice(address, m + (".inline:" + n), address + (".inline:" + m), n, first, second);
    Concatenation.AssocMiddle(address, ".inline:", m, ".inline:" + n);
    LastOne(address + (".inline:" + (m + (".inline:" + n))), CanonicalText(first), CanonicalText(second));
  }

  lemma LastOne(key: string, a: string, b: string)
    ensures map[key := a][key := b] == map[key := b]
  {
  }

  // ----- ExtractResourceAttribute -----

  datatype Attribute =
    | EmptyAddress
    | EmptyPath
    | NoResource
    | NotAnObject(segment: string)
    | NotPresent
    | BadJson
    | OutsideModel
    | Found(text: string)

  ghost function Walk(cur: Json, segs: seq<string>): Attribute
    decreases |segs|
  {
    if segs == [] then Leaf(cur)
    else if !cur.Obj? then NotAnObject(segs[0])
    else if segs[0] !in cur.m then NotPresent
    else Walk(cur.m[segs[0]], segs[1..])
  }

  predicate LooksLikeJSON(s: string) {
    s != "" && (if Strings.IsUnicodeSpace(s[0]) then LooksLikeJSON(s[1..]) else s[0] == '{' || s[0] == '[')
  }

  ghost function Leaf(cur: Json): Attribute {
    if cur.Str? && LooksLikeJSON(cur.s) then
      match NormalForm(cur.s)
      case Rejected => BadJson
      case Unmodelled => OutsideModel
      case Normal(text) => Found(text)
    else Found(CanonicalText(cur))
  }

  /** The second half of ExtractResourceAttribute: from the values of the resource along the path. */
  method AttributeAt(values: map<string, Json>, path: string) returns (r: Attribute)
    ensures r == Walk(Obj(values), Strings.Split(path, '.'))
  {
    var cur := Obj(values);
    var segs := Strings.Split(path, '.');
    var n := 0;
    assert segs[0..] == segs;
    while n < |segs|
      invariant 0 <= n <= |segs|
      invariant Walk(cur, segs[n..]) == Walk(Obj(values), segs)
    {
      assert segs[n..][0] == segs[n] && segs[n..][1..] == segs[n + 1..];
      if !cur.Obj? {
        return NotAnObject(segs[n]);
      }
      if segs[n] !in cur.m {
        return NotPresent;
      }
      cur := cur.m[segs[n]];
      n := n + 1;
    }
    if cur.Str? && LooksLikeJSON(cur.s) {
      var norm := NormalizeJSON(cur.s);
      return match norm case Rejected => BadJson case Unmodelled => OutsideModel case Normal(text) => Found(text);
    }
    var text := MarshalSorted(cur);
    return Found(text);
  }

  /** The loop over the resources: the values of the first one with the address. */
  method FindResource(rs: seq<Resource>, address: string) returns (target: Option<map<string, Json>>)
    ensures (forall i :: 0 <= i < |rs| ==> rs[i].address != address) ==> target.None?
    ensures forall i :: 0 <= i < |rs| && rs[i].address == address && (forall j :: 0 <= j < i ==> rs[j].address != address)
                        ==> target == rs[i].values
  {
    for i := 0 to |rs|
      invariant forall j :: 0 <= j < i ==> rs[j].address != address
    {
      if rs[i].address == address {
        return rs[i].values;
      }
    }
    return None;
  }

  method ExtractResourceAttribute(rs: seq<Resource>, address: string, path: string) returns (r: Attribute)
    ensures address == "" ==> r.EmptyAddress?
    ensures address != "" && path == "" ==> r.EmptyPath?
    ensures address != "" && path != "" && (forall i :: 0 <= i < |rs| ==> rs[i].address != address) ==> r.NoResource?
    ensures forall i :: 0 <= i < |rs| && address != "" && path != "" && rs[i].address == address
                        && (forall j :: 0 <= j < i ==> rs[j].address != address)
                        ==> r == if rs[i].values.None? then NoResource else Walk(Obj(rs[i].values.value), Strings.Split(path, '.'))
  {
    if address == "" {
      return EmptyAddress;
    }
    if path == "" {
      return EmptyPath;
    }
    var target := FindResource(rs, address);
    if target.None? {
      return NoResource;
    }
    r := AttributeAt(target.value, path);
  }

  /** Whatever the path leads to, the bytes returned are a fixed point of NormalizeJSON. */
  lemma {:induction false} AttributeIsNormal(cur: Json, segs: seq<string>)
    requires Walk(cur, segs).Found?
    ensures NormalForm(Walk(cur, segs).text) == Normal(Walk(cur, segs).text)
    decreases |segs|
  {
    if segs == [] {
      if cur.Str? && LooksLikeJSON(cur.s) {
        NormalFormIdempotent(cur.s);
      } else {
        CanonicalIsNormal(cur);
      }
    } else {
      AttributeIsNormal(cur.m[segs[0]], segs[1..]);
    }
  }
}
