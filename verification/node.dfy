/** The unit of storage of the Abstract Syntax Array: the `Node` record, the
    staging record `TokenInfo` a driver fills in before a node exists, and the
    `Span` of source text both of them carry. */
module Nodes {
  import opened Wrappers

  /** An unsigned byte, the range of Rust's `u8`. */
  type U8 = x: nat | x < 256

  /** A half-open range `[start, end)` of source offsets, Rust's
      `Range<usize>`. As with `Range`, nothing forces `start <= end`. */
  datatype Span = Span(start: nat, end: nat)

  /** What a driver knows about a token before it has a parent: its operator,
      where it came from, how many inputs it takes (`space`) and how tightly
      it binds. Both counts are bytes. */
  datatype TokenInfo<Oper> = TokenInfo(oper: Oper, span: Span, space: U8, precedence: U8)

  /** One element of the array. `parent` is an index into the same array,
      `None` for a root; nothing here checks it against any length. */
  datatype Node<Token> = Node(token: Token, span: Span, parent: Option<nat>, precedence: U8)

  /** The four fields of a node, in constructor order. */
  type Fields<Token> = (Token, Span, Option<nat>, U8)

  /** Reads back the fields a node was built from. */
  function FieldsOf<Token>(n: Node<Token>): Fields<Token>
  {
    (n.token, n.span, n.parent, n.precedence)
  }

  /** `Node::new`: a total constructor that keeps every argument as given.
      In particular a `Some` parent is stored whatever its value, since the
      node knows nothing of the array it will live in. */
  function NewNode<Token>(token: Token, span: Span, parent: Option<nat>, precedence: U8): (n: Node<Token>)
    ensures n.token == token
    ensures n.span.start == span.start && n.span.end == span.end
    ensures n.parent == parent
    ensures n.precedence == precedence && n.precedence < 256
  {
    Node(token, span, parent, precedence)
  }

  /** Building a node and reading its fields back gives the arguments. */
  lemma NewNodeFieldsRoundTrip<Token>(token: Token, span: Span, parent: Option<nat>, precedence: U8)
    ensures FieldsOf(NewNode(token, span, parent, precedence)) == (token, span, parent, precedence)
  {
  }

  /** Every node is what `Node::new` makes of its own fields: the
      constructor reaches every node. */
  lemma NewNodeOfFields<Token>(n: Node<Token>)
    ensures NewNode(n.token, n.span, n.parent, n.precedence) == n
  {
  }

  /** Two constructions give the same node exactly when their arguments
      agree, so `NewNode` loses nothing. */
  lemma NewNodeInjective<Token>(a: Fields<Token>, b: Fields<Token>)
    ensures NewNode(a.0, a.1, a.2, a.3) == NewNode(b.0, b.1, b.2, b.3) <==> a == b
  {
  }
}
