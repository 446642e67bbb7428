/** The part of Jinja's template tree (`jinja2.nodes`) the validators inspect,
    and `Node.find_all` as a pre-order enumeration of descendants. */
module JinjaAst {

  /** The Python value of a `Const` node. Float constants are not modelled. */
  datatype Literal = NoneLit | BoolLit(b: bool) | IntLit(i: int) | StrLit(s: string)

  /** The binary operators other than `/`. */
  datatype BinOp = Add | Sub | Mul | FloorDiv | Mod | Pow

  /** A node of the tree. Children appear in Jinja's field order; `Call.extra` holds
      the keyword and dynamic arguments, `For.test` the optional loop filter, and
      `Container` stands for every other node class (`Output`, `If`, `Filter`, ...),
      keeping its class name and children. The items of a `Dict` are `Pair` nodes. */
  datatype Node =
    | Name(name: string)
    | Const(lit: Literal)
    | Getattr(obj: Node, attr: string)
    | Getitem(obj: Node, arg: Node)
    | Call(callee: Node, args: seq<Node>, extra: seq<Node>)
    | Assign(target: Node, value: Node)
    | For(target: Node, iter: Node, body: seq<Node>, orElse: seq<Node>, test: seq<Node>)
    | Div(left: Node, right: Node)
    | BinExpr(op: BinOp, left: Node, right: Node)
    | List(items: seq<Node>)
    | Dict(items: seq<Node>)
    | Pair(key: Node, value: Node)
    | Macro(name: string, params: seq<Node>, body: seq<Node>)
    | Include(template: Node)
    | Import(template: Node, alias: string)
    | Extends(template: Node)
    | ExprStmt(expr: Node)
    | Container(kind: string, children: seq<Node>)

  /** `nodes.Template`, the root that `Environment.parse` returns. */
  datatype Template = Template(body: seq<Node>)

  /** The subtree rooted at `n` in pre-order: `n` itself, then its descendants. */
  function Walk(n: Node): (r: seq<Node>)
    ensures |r| > 0 && r[0] == n
    decreases n, 2
  {
    [n] + Descendants(n)
  }

  /** `n.find_all(...)` before filtering: every proper descendant, parent before child,
      children in field order. */
  function Descendants(n: Node): seq<Node>
    decreases n, 1
  {
    match n
    case Name(_) => []
    case Const(_) => []
    case Getattr(o, _) => Walk(o)
    case Getitem(o, a) => Walk(o) + Walk(a)
    case Call(c, args, extra) => Walk(c) + WalkAll(args) + WalkAll(extra)
    case Assign(t, v) => Walk(t) + Walk(v)
    case For(t, i, body, orElse, test) => Walk(t) + Walk(i) + WalkAll(body) + WalkAll(orElse) + WalkAll(test)
    case Div(l, r) => Walk(l) + Walk(r)
    case BinExpr(_, l, r) => Walk(l) + Walk(r)
    case List(items) => WalkAll(items)
    case Dict(items) => WalkAll(items)
    case Pair(k, v) => Walk(k) + Walk(v)
    case Macro(_, params, body) => WalkAll(params) + WalkAll(body)
    case Include(t) => Walk(t)
    case Import(t, _) => Walk(t)
    case Extends(t) => Walk(t)
    case ExprStmt(e) => Walk(e)
    case Container(_, cs) => WalkAll(cs)
  }

  /** The subtrees of a list of siblings, one after the other. */
  function WalkAll(ns: seq<Node>): seq<Node>
    decreases ns, 0
  {
    if ns == [] then [] else Walk(ns[0]) + WalkAll(ns[1..])
  }

  /** `template.find_all(...)`: every node below the root. */
  function FindAll(t: Template): seq<Node> {
    WalkAll(t.body)
  }

  lemma {:induction false} WalkAllAppend(a: seq<Node>, b: seq<Node>)
    ensures WalkAll(a + b) == WalkAll(a) + WalkAll(b)
  {
    if a == [] {
      assert a + b == b;
    } else {
      assert (a + b)[0] == a[0];
      assert (a + b)[1..] == a[1..] + b;
      WalkAllAppend(a[1..], b);
    }
  }

  lemma WalkAllSingle(n: Node)
    ensures WalkAll([n]) == Walk(n)
  {
    assert [n][1..] == [];
  }

  /** Every sibling is enumerated. */
  lemma {:induction false} WalkAllContains(ns: seq<Node>, i: nat)
    requires i < |ns|
    ensures ns[i] in WalkAll(ns)
  {
    if i > 0 {
      assert ns[1..][i - 1] == ns[i];
      WalkAllContains(ns[1..], i - 1);
    }
  }

  /** The enumeration is closed under taking subtrees: whatever lies below an
      enumerated node is enumerated too, so a check over `find_all` sees every depth. */
  lemma {:induction false} WalkClosed(n: Node, m: Node, x: Node)
    requires m in Walk(n) && x in Walk(m)
    ensures x in Walk(n)
    decreases n, 1
  {
    if m != n {
      assert m in Descendants(n);
      DescendantsClosed(n, m, x);
    }
  }

  lemma {:induction false} DescendantsClosed(n: Node, m: Node, x: Node)
    requires m in Descendants(n) && x in Walk(m)
    ensures x in Descendants(n)
    decreases n, 0
  {
    match n
    case Name(_) =>
    case Const(_) =>
    case Getattr(o, _) => WalkClosed(o, m, x);
    case Getitem(o, a) => if m in Walk(o) { WalkClosed(o, m, x); } else { WalkClosed(a, m, x); }
    case Call(c, args, extra) =>
      if m in Walk(c) { WalkClosed(c, m, x); }
      else if m in WalkAll(args) { WalkAllClosed(args, m, x); }
      else { WalkAllClosed(extra, m, x); }
    case Assign(t, v) => if m in Walk(t) { WalkClosed(t, m, x); } else { WalkClosed(v, m, x); }
    case For(t, i, body, orElse, test) =>
      if m in Walk(t) { WalkClosed(t, m, x); }
      else if m in Walk(i) { WalkClosed(i, m, x); }
      else if m in WalkAll(body) { WalkAllClosed(body, m, x); }
      else if m in WalkAll(orElse) { WalkAllClosed(orElse, m, x); }
      else { WalkAllClosed(test, m, x); }
    case Div(l, r) => if m in Walk(l) { WalkClosed(l, m, x); } else { WalkClosed(r, m, x); }
    case BinExpr(_, l, r) => if m in Walk(l) { WalkClosed(l, m, x); } else { WalkClosed(r, m, x); }
    case List(items) => WalkAllClosed(items, m, x);
    case Dict(items) => WalkAllClosed(items, m, x);
    case Pair(k, v) => if m in Walk(k) { WalkClosed(k, m, x); } else { WalkClosed(v, m, x); }
    case Macro(_, params, body) =>
      if m in WalkAll(params) { WalkAllClosed(params, m, x); } else { WalkAllClosed(body, m, x); }
    case Include(t) => WalkClosed(t, m, x);
    case Import(t, _) => WalkClosed(t, m, x);
    case Extends(t) => WalkClosed(t, m, x);
    case ExprStmt(e) => WalkClosed(e, m, x);
    case Container(_, cs) => WalkAllClosed(cs, m, x);
  }

  lemma {:induction false} WalkAllClosed(ns: seq<Node>, m: Node, x: Node)
    requires m in WalkAll(ns) && x in Walk(m)
    ensures x in WalkAll(ns)
    decreases ns
  {
    if m in Walk(ns[0]) {
      WalkClosed(ns[0], m, x);
    } else {
      WalkAllClosed(ns[1..], m, x);
    }
  }

  /** A template-level corollary: below any node `find_all` reaches, it reaches every node. */
  lemma FindAllClosed(t: Template, m: Node, x: Node)
    requires m in FindAll(t) && x in Walk(m)
    ensures x in FindAll(t)
  {
    WalkAllClosed(t.body, m, x);
  }
}
