/** The shapes of syntax-tree nodes the lint plugin looks at, and its two helpers
    `getName` and `getPosition`, which pick the token a diagnostic is about. */
module Syntax {

  /** Source offsets of a node: `start` inclusive, `end` exclusive. */
  datatype Span = Span(start: nat, end: nat)

  /** The value of a literal: a string, or anything else (number, boolean, null,
      regular expression) written as the text JavaScript converts it to. */
  datatype LitValue = Str(s: string) | NonStr(text: string)

  /** Syntax-tree nodes, by the fields `getName` and `getPosition` test for:
      calls and `new` have a `callee`, member expressions a `property`,
      identifiers a `name`; every other node kind is `Other`. */
  datatype Node =
    | Ident(name: string, span: Span)
    | Member(obj: Node, property: Node, computed: bool, span: Span)
    | Call(callee: Node, arguments: seq<Node>, span: Span)
    | New(callee: Node, arguments: seq<Node>, span: Span)
    | Literal(value: LitValue, span: Span)
    | Other(span: Span)

  type MemberNode = n: Node | n.Member?
    witness Member(Other(Span(0, 0)), Ident("", Span(0, 0)), false, Span(0, 0))
  type IdentNode = n: Node | n.Ident?
    witness Ident("", Span(0, 0))
  type CallNode = n: Node | n.Call?
    witness Call(Other(Span(0, 0)), [], Span(0, 0))

  /** `node.name`, as string concatenation renders it: a node without a name
      reads as "undefined". */
  function NameOf(n: Node): string {
    if n.Ident? then n.name else "undefined"
  }

  /** `getName`: a call (or `new`) is named by its callee, a member expression by
      its property, anything else by its own name. */
  function GetName(n: Node): string {
    match n
    case Call(callee, _, _) => GetName(callee)
    case New(callee, _, _) => GetName(callee)
    case Member(_, property, _, _) => NameOf(property)
    case _ => NameOf(n)
  }

  /** `getPosition`: the node whose span a diagnostic covers. */
  function GetPosition(n: Node): Node {
    match n
    case Call(callee, _, _) => GetPosition(callee)
    case New(callee, _, _) => GetPosition(callee)
    case Member(_, property, _, _) => property
    case _ => n
  }

  /** `n` is reached from `root` by following callees. */
  predicate OnCalleeChain(n: Node, root: Node) {
    n == root || ((root.Call? || root.New?) && OnCalleeChain(n, root.callee))
  }

  /** The name and the position agree: the name reported is the name of the very
      token whose span is reported. */
  lemma {:induction false} NameIsOfPositionedToken(n: Node)
    ensures GetName(n) == NameOf(GetPosition(n))
  {
    match n
    case Call(callee, _, _) => NameIsOfPositionedToken(callee);
    case New(callee, _, _) => NameIsOfPositionedToken(callee);
    case _ =>
  }

  /** The positioned token is found by following the callees of calls down to the
      first node that is not a call: that node itself, or its property when it is
      a member expression. */
  lemma {:induction false} PositionFollowsCallees(n: Node)
    ensures exists m ::
              OnCalleeChain(m, n) && !m.Call? && !m.New? &&
              GetPosition(n) == (if m.Member? then m.property else m)
  {
    match n
    case Call(callee, _, _) =>
      PositionFollowsCallees(callee);
      var m :| OnCalleeChain(m, callee) && !m.Call? && !m.New? &&
        GetPosition(callee) == (if m.Member? then m.property else m);
      assert OnCalleeChain(m, n);
    case New(callee, _, _) =>
      PositionFollowsCallees(callee);
      var m :| OnCalleeChain(m, callee) && !m.Call? && !m.New? &&
        GetPosition(callee) == (if m.Member? then m.property else m);
      assert OnCalleeChain(m, n);
    case _ =>
      assert OnCalleeChain(n, n);
  }
}
