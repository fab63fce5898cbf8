/**
 A backtracking matcher for flat patterns, anchored at both ends: literals and repetitions of
 a character class, greedy or lazy. It is proved against the parts a text can be cut into,
 and to return the cut that leftmost-first matching prefers.
 */
module Patterns {
  import opened Options

  datatype Class = Space | TagStart | TagRest | Dot

  /** The classes \s, [a-z], [a-z0-9_,-] and . of the marker pattern. */
  predicate Member(k: Class, c: char) {
    match k
    case Space => c == ' ' || c == '\t' || c == '\n' || c == '\r' || c == 12 as char
    case TagStart => 'a' <= c <= 'z'
    case TagRest => 'a' <= c <= 'z' || '0' <= c <= '9' || c == '_' || c == ',' || c == '-'
    case Dot => c != '\n'
  }

  datatype Item = Lit(word: string) | Many(k: Class, min: nat, greedy: bool) | One(k: Class)

  predicate AllIn(s: string, k: Class) {
    s == "" || (Member(k, s[0]) && AllIn(s[1..], k))
  }

  predicate Suits(item: Item, part: string) {
    match item
    case Lit(w) => part == w
    case One(k) => |part| == 1 && Member(k, part[0])
    case Many(k, min, _) => |part| >= min && AllIn(part, k)
  }

  function Concat(parts: seq<string>): string {
    if parts == [] then "" else parts[0] + Concat(parts[1..])
  }

  /** `parts` cut `s` as the pattern allows. */
  predicate Fits(items: seq<Item>, s: string, parts: seq<string>)
    decreases |items|
  {
    |parts| == |items| &&
    if items == [] then s == ""
    else
      |parts[0]| <= |s| && s[..|parts[0]|] == parts[0] && Suits(items[0], parts[0]) &&
      Fits(items[1..], s[|parts[0]|..], parts[1..])
  }

  ghost predicate AllSuit(items: seq<Item>, parts: seq<string>) {
    |parts| == |items| && forall i :: 0 <= i < |items| ==> Suits(items[i], parts[i])
  }

  /** Fitting item by item is the same as suiting everywhere and adding up to the text. */
  lemma {:induction false} FitsIff(items: seq<Item>, s: string, parts: seq<string>)
    ensures Fits(items, s, parts) <==> AllSuit(items, parts) && Concat(parts) == s
    decreases |items|
  {
    if |parts| == |items| && items != [] {
      var n := |parts[0]|;
      if n <= |s| && s[..n] == parts[0] {
        FitsIff(items[1..], s[n..], parts[1..]);
        assert s == s[..n] + s[n..];
        assert forall i :: 0 < i < |items| ==> items[i] == items[1..][i - 1] && parts[i] == parts[1..][i - 1];
        if Suits(items[0], parts[0]) && AllSuit(items[1..], parts[1..]) {
          assert AllSuit(items, parts);
        }
        if AllSuit(items, parts) {
          assert forall i :: 0 <= i < |items[1..]| ==> items[1..][i] == items[i + 1] && parts[1..][i] == parts[i + 1];
        }
      }
    }
  }

  lemma ConcatAt(parts: seq<string>, i: nat)
    requires i < |parts|
    ensures Concat(parts[i..]) == parts[i] + Concat(parts[i + 1..])
  {
    assert parts[i..][1..] == parts[i + 1..];
  }

  // ----- the matcher -----

  /** The length of the longest prefix in a class. */
  function Run(s: string, k: Class): (n: nat)
    ensures n <= |s|
  {
    if s == "" || !Member(k, s[0]) then 0 else 1 + Run(s[1..], k)
  }

  function Match(items: seq<Item>, s: string): (r: Option<seq<string>>)
    ensures r.Some? ==> |r.value| == |items|
    decreases |items|, 0, 0
  {
    if items == [] then (if s == "" then Some([]) else None)
    else
      match items[0]
      case Lit(w) => if |w| <= |s| && s[..|w|] == w then Take(items, s, |w|) else None
      case One(k) => if s != "" && Member(k, s[0]) then Take(items, s, 1) else None
      case Many(k, min, greedy) =>
        var most := Run(s, k);
        if most < min then None
        else if greedy then Down(items, s, min, most)
        else Up(items, s, min, most)
  }

  /** Give the first item `n` characters and match the rest. */
  function Take(items: seq<Item>, s: string, n: nat): (r: Option<seq<string>>)
    requires items != [] && n <= |s|
    ensures r.Some? ==> |r.value| == |items|
    decreases |items| - 1, 1, 0
  {
    match Match(items[1..], s[n..])
    case None => None
    case Some(rest) => Some([s[..n]] + rest)
  }

  /** Greedy: the most first, fewer on backtracking. */
  function Down(items: seq<Item>, s: string, min: nat, n: nat): (r: Option<seq<string>>)
    requires items != [] && min <= n <= |s|
    ensures r.Some? ==> |r.value| == |items|
    decreases |items| - 1, 2, n - min
  {
    var r := Take(items, s, n);
    if r.Some? || n == min then r else Down(items, s, min, n - 1)
  }

  /** Lazy: the fewest first, more on backtracking. */
  function Up(items: seq<Item>, s: string, n: nat, most: nat): (r: Option<seq<string>>)
    requires items != [] && n <= most <= |s|
    ensures r.Some? ==> |r.value| == |items|
    decreases |items| - 1, 2, most - n
  {
    var r := Take(items, s, n);
    if r.Some? || n == most then r else Up(items, s, n + 1, most)
  }

  // ----- what it returns -----

  lemma {:induction false} RunIsLongest(s: string, k: Class, n: nat)
    requires n <= |s|
    ensures AllIn(s[..n], k) <==> n <= Run(s, k)
  {
    if n > 0 {
      assert s[..n][1..] == s[1..][..n - 1];
      if Member(k, s[0]) {
        RunIsLongest(s[1..], k, n - 1);
      }
    }
  }

  lemma {:induction false} AllInConcat(a: string, b: string, k: Class)
    ensures AllIn(a + b, k) <==> AllIn(a, k) && AllIn(b, k)
  {
    if a == "" {
      assert a + b == b;
    } else {
      assert (a + b)[1..] == a[1..] + b;
      AllInConcat(a[1..], b, k);
    }
  }

  lemma {:induction false} AllInAt(s: string, k: Class, i: nat)
    requires AllIn(s, k) && i < |s|
    ensures Member(k, s[i])
  {
    if i > 0 {
      AllInAt(s[1..], k, i - 1);
    }
  }

  /** A part that cannot be extended is the longest run. */
  lemma {:induction false} RunForced(part: string, rest: string, k: Class)
    requires AllIn(part, k) && (rest == "" || !Member(k, rest[0]))
    ensures Run(part + rest, k) == |part|
  {
    if part == "" {
      assert part + rest == rest;
    } else {
      assert (part + rest)[1..] == part[1..] + rest;
      RunForced(part[1..], rest, k);
    }
  }

  /** The cut `a` is the one leftmost-first matching prefers to `b`. */
  predicate Preferred(items: seq<Item>, a: seq<string>, b: seq<string>)
    requires |a| == |items| == |b|
  {
    items == [] ||
    if a[0] == b[0] then Preferred(items[1..], a[1..], b[1..])
    else items[0].Many? && if items[0].greedy then |a[0]| > |b[0]| else |a[0]| < |b[0]|
  }

  /** Sound, complete, and the preferred cut: everything a leftmost-first matcher promises. */
  ghost predicate Right(items: seq<Item>, s: string, r: Option<seq<string>>) {
    && (r.Some? ==> Fits(items, s, r.value))
    && (forall parts :: Fits(items, s, parts) ==> r.Some? && Preferred(items, r.value, parts))
  }

  lemma {:induction false} MatchRight(items: seq<Item>, s: string)
    ensures Right(items, s, Match(items, s))
    decreases |items|, 0, 0
  {
    if items == [] {
    } else {
      match items[0] {
        case Lit(w) =>
          if |w| <= |s| && s[..|w|] == w {
            TakeRight(items, s, |w|);
          }
        case One(k) =>
          if s != "" && Member(k, s[0]) {
            TakeRight(items, s, 1);
          }
        case Many(k, min, greedy) =>
          var most := Run(s, k);
          forall parts | Fits(items, s, parts)
            ensures min <= |parts[0]| <= most
          {
            RunIsLongest(s, k, |parts[0]|);
          }
          if min <= most {
            if greedy {
              DownRight(items, s, min, most);
            } else {
              UpRight(items, s, min, most);
            }
          }
      }
    }
  }

  /** Among the cuts whose first part has length `n`. */
  ghost predicate RightAt(items: seq<Item>, s: string, n: nat, r: Option<seq<string>>)
    requires items != []
  {
    && (r.Some? ==> Fits(items, s, r.value) && |r.value[0]| == n)
    && (forall parts :: Fits(items, s, parts) && |parts[0]| == n ==> r.Some? && Preferred(items, r.value, parts))
  }

  lemma {:induction false} TakeRight(items: seq<Item>, s: string, n: nat)
    requires items != [] && n <= |s| && Suits(items[0], s[..n])
    ensures RightAt(items, s, n, Take(items, s, n))
    decreases |items| - 1, 1, 0
  {
    MatchRight(items[1..], s[n..]);
    var r := Take(items, s, n);
    if r.Some? {
      assert r.value[1..] == Match(items[1..], s[n..]).value;
    }
    forall parts | Fits(items, s, parts) && |parts[0]| == n
      ensures r.Some? && Preferred(items, r.value, parts)
    {
      assert Fits(items[1..], s[n..], parts[1..]);
    }
  }

  ghost predicate RightBetween(items: seq<Item>, s: string, lo: nat, hi: nat, r: Option<seq<string>>)
    requires items != []
  {
    && (r.Some? ==> Fits(items, s, r.value) && lo <= |r.value[0]| <= hi)
    && (forall parts :: Fits(items, s, parts) && lo <= |parts[0]| <= hi ==> r.Some? && Preferred(items, r.value, parts))
  }

  lemma {:induction false} DownRight(items: seq<Item>, s: string, min: nat, n: nat)
    requires items != [] && items[0].Many? && items[0].greedy && items[0].min == min && min <= n <= Run(s, items[0].k)
    ensures RightBetween(items, s, min, n, Down(items, s, min, n))
    decreases |items| - 1, 2, n - min
  {
    RunIsLongest(s, items[0].k, n);
    TakeRight(items, s, n);
    if Take(items, s, n).None? && n > min {
      DownRight(items, s, min, n - 1);
    }
  }

  lemma {:induction false} UpRight(items: seq<Item>, s: string, n: nat, most: nat)
    requires items != [] && items[0].Many? && !items[0].greedy && items[0].min <= n <= most <= Run(s, items[0].k)
    ensures RightBetween(items, s, n, most, Up(items, s, n, most))
    decreases |items| - 1, 2, most - n
  {
    RunIsLongest(s, items[0].k, n);
    TakeRight(items, s, n);
    if Take(items, s, n).None? && n < most {
      UpRight(items, s, n + 1, most);
    }
  }
}
