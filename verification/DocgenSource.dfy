/** Parsed Go files as docgen sees them, and its searches over one declaration. */
module DocgenSource {
  import opened Options
  import opened Markers

  // ----- syntax trees -----

  datatype Node =
    | Ident(name: string)
    | Selector(x: Node, sel: Node)
    | Call(fun: Node, args: Nodes)
    | Other(parts: Nodes)

  datatype Nodes = NoNodes | Nodes(first: Node, rest: Nodes)

  /** `libtftest.RequirePro(...)` or `RequirePro(...)` */
  predicate ProCall(n: Node) {
    n.Call? && (n.fun == Ident("RequirePro") || n.fun == Selector(Ident("libtftest"), Ident("RequirePro")))
  }

  /** `m` is a node of the tree `n`. */
  predicate Within(m: Node, n: Node) {
    m == n ||
    match n
    case Ident(_) => false
    case Selector(x, sel) => Within(m, x) || Within(m, sel)
    case Call(fun, args) => Within(m, fun) || WithinAny(m, args)
    case Other(parts) => WithinAny(m, parts)
  }

  predicate WithinAny(m: Node, ns: Nodes) {
    ns.Nodes? && (Within(m, ns.first) || WithinAny(m, ns.rest))
  }

  ghost predicate HoldsProCall(n: Node) {
    exists m :: Within(m, n) && ProCall(m)
  }

  ghost predicate AnyHoldsProCall(ns: Nodes) {
    exists m :: WithinAny(m, ns) && ProCall(m)
  }

  /** ast.Inspect with the closure that sets `found`. */
  class Visitor {
    var found: bool

    constructor ()
      ensures !found
    {
      found := false;
    }

    method Visit(n: Node) returns (descend: bool)
      modifies this
      ensures found == (old(found) || ProCall(n))
      ensures descend == !found
    {
      if found {
        return false;
      }
      if !n.Call? {
        return true;
      }
      match n.fun {
        case Selector(x, sel) =>
          if x.Ident? && x.name == "libtftest" && sel == Ident("RequirePro") {
            found := true;
            return false;
          }
        case Ident(name) =>
          if name == "RequirePro" {
            found := true;
            return false;
          }
        case _ =>
      }
      return true;
    }

    /** Stopping early does not change the answer. */
    method Inspect(n: Node)
      modifies this
      ensures found == (old(found) || HoldsProCall(n))
      decreases n
    {
      assert Within(n, n);
      var descend := Visit(n);
      if !descend {
        return;
      }
      match n {
        case Ident(_) =>
        case Selector(x, sel) =>
          Inspect(x);
          Inspect(sel);
        case Call(fun, args) =>
          Inspect(fun);
          InspectAll(args);
        case Other(parts) =>
          InspectAll(parts);
      }
    }

    method InspectAll(ns: Nodes)
      modifies this
      ensures found == (old(found) || AnyHoldsProCall(ns))
      decreases ns
    {
      if ns.Nodes? {
        Inspect(ns.first);
        InspectAll(ns.rest);
      }
    }
  }

  // ----- declarations -----

  /** The type expression of a receiver. */
  datatype TypeExpr = TypeName(name: string) | Star(of: TypeExpr) | OtherType

  datatype Comment = Comment(text: string, line: int)

  datatype Decl =
    | Func(name: string, recv: seq<TypeExpr>, doc: Option<seq<Comment>>, body: Option<Node>, line: int)
    | OtherDecl

  datatype File = File(path: string, package: string, decls: seq<Decl>)

  function ReceiverType(d: Decl): string
    requires d.Func?
  {
    if d.recv == [] then ""
    else
      match d.recv[0]
      case TypeName(name) => name
      case Star(TypeName(name)) => name
      case _ => ""
  }

  ghost predicate CallsPro(d: Decl)
    requires d.Func?
  {
    d.body.Some? && HoldsProCall(d.body.value)
  }

  predicate MarkerAt(d: Decl, k: nat)
    requires d.Func?
  {
    d.doc.Some? && k < |d.doc.value| && MarkerOf(d.doc.value[k].text).Some?
  }

  ghost predicate Marked(d: Decl)
    requires d.Func?
  {
    exists k: nat :: MarkerAt(d, k)
  }

  method CallsRequirePro(d: Decl) returns (r: bool)
    requires d.Func?
    ensures r == CallsPro(d)
  {
    if d.body.None? {
      return false;
    }
    var v := new Visitor();
    v.Inspect(d.body.value);
    return v.found;
  }

  method HasMarker(d: Decl) returns (r: bool)
    requires d.Func?
    ensures r == Marked(d)
  {
    if d.doc.None? {
      return false;
    }
    for k := 0 to |d.doc.value|
      invariant forall i: nat :: i < k ==> !MarkerAt(d, i)
    {
      var m := ParseMarker(d.doc.value[k].text);
      if m.Some? {
        assert MarkerAt(d, k);
        return true;
      }
    }
    return false;
  }
}
