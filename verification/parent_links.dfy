/** Parent links. A node names its parent by index into the same array, and
    the container never looks at those indices: it neither checks them nor
    rewrites them when `insert` shifts the nodes they point at. This module
    states both facts, and what they leave to the driver. */
module ParentLinks {
  import opened Wrappers
  import opened Nodes
  import opened Asa

  /** A stored parent reference is usable in an array of length `len`. */
  predicate ParentInBounds(parent: Option<nat>, len: nat)
  {
    parent.None? || parent.value < len
  }

  /** Every parent reference in the array names one of its slots. */
  predicate ParentsValid<T>(s: Asa<T>)
  {
    forall i :: 0 <= i < |s| ==> ParentInBounds(s[i].parent, |s|)
  }

  /** The parent field of every node, in index order. */
  function Parents<T>(s: Asa<T>): seq<Option<nat>>
  {
    seq(|s|, i requires 0 <= i < |s| => s[i].parent)
  }

  /** The precedence field of every node, in index order. */
  function Precedences<T>(s: Asa<T>): seq<U8>
  {
    seq(|s|, i requires 0 <= i < |s| => s[i].precedence)
  }

  /** Pushing a root, or a node whose parent is already stored, keeps every
      parent reference in bounds. */
  lemma PushPreservesParentsValid<T>(s: Asa<T>, node: Node<T>)
    requires ParentsValid(s)
    requires ParentInBounds(node.parent, |s|)
    ensures ParentsValid(Push(s, node))
  {
  }

  /** Pushing adds the new node's fields at the end and leaves all the
      stored parent and precedence fields as they were. */
  lemma PushKeepsFields<T>(s: Asa<T>, node: Node<T>)
    ensures Parents(Push(s, node)) == Parents(s) + [node.parent]
    ensures Precedences(Push(s, node)) == Precedences(s) + [node.precedence]
  {
  }

  /** Inserting splices the new node's fields in at `idx` and carries every
      other parent and precedence field along unchanged: an index that
      pointed at slot `p >= idx` still says `p`. */
  lemma InsertKeepsFields<T>(s: Asa<T>, idx: nat, node: Node<T>)
    requires idx <= |s|
    ensures Parents(Insert(s, idx, node)) == Parents(s)[..idx] + [node.parent] + Parents(s)[idx..]
    ensures Precedences(Insert(s, idx, node)) == Precedences(s)[..idx] + [node.precedence] + Precedences(s)[idx..]
  {
  }

  /** A write through `get` changes the parent and precedence of that slot
      only. */
  lemma UpdateKeepsOtherFields<T>(s: Asa<T>, idx: nat, node: Node<T>)
    requires idx < |s|
    ensures Parents(Update(s, idx, node)) == Parents(s)[idx := node.parent]
    ensures Precedences(Update(s, idx, node)) == Precedences(s)[idx := node.precedence]
  {
  }

  /** Insert keeps references in bounds (the array only grows), but it
      re-targets them: a node that named parent `p` still names `p`, while
      the node that was at `p` now sits at `Shifted(p, idx)`. The two differ
      exactly when `p >= idx`, which is why the driver has to fix parents up
      after an insert. */
  lemma InsertStalesParents<T>(s: Asa<T>, idx: nat, node: Node<T>, i: nat)
    requires idx <= |s| && i < |s|
    requires s[i].parent.Some? && s[i].parent.value < |s|
    ensures Insert(s, idx, node)[Shifted(i, idx)].parent == s[i].parent
    ensures Insert(s, idx, node)[Shifted(s[i].parent.value, idx)] == s[s[i].parent.value]
    ensures Shifted(s[i].parent.value, idx) == s[i].parent.value <==> s[i].parent.value < idx
  {
  }

  /** References that were in bounds stay in bounds after an insert, as
      long as the inserted node's own parent fits the grown array. */
  lemma InsertPreservesParentsValid<T>(s: Asa<T>, idx: nat, node: Node<T>)
    requires idx <= |s|
    requires ParentsValid(s)
    requires ParentInBounds(node.parent, |s| + 1)
    ensures ParentsValid(Insert(s, idx, node))
  {
  }

  /** A write through `get` keeps references in bounds exactly when the
      new node's parent is in bounds and the others were already. */
  lemma UpdateParentsValid<T>(s: Asa<T>, idx: nat, node: Node<T>)
    requires idx < |s|
    ensures ParentsValid(Update(s, idx, node)) <==>
      (ParentInBounds(node.parent, |s|) &&
       forall i :: 0 <= i < |s| && i != idx ==> ParentInBounds(s[i].parent, |s|))
  {
  }

  /** The worked scenario: roots and children are pushed as A, B, C, then D
      is inserted at 1. The order becomes A, D, B, C, and B and C still name
      parent 0, the slot A keeps. */
  lemma ScenarioInsertBetweenChildren<T>(a: T, b: T, c: T, d: T, sp: Span)
    ensures var s := Push(Push(Push(Empty(), NewNode(a, sp, None, 0)), NewNode(b, sp, Some(0), 1)), NewNode(c, sp, Some(0), 1));
            && Len(s) == 3
            && Get(s, 1).parent == Some(0)
            && var r := Insert(s, 1, NewNode(d, sp, Some(0), 2));
               && r == [s[0], NewNode(d, sp, Some(0), 2), s[1], s[2]]
               && r[2].parent == Some(0) && r[3].parent == Some(0)
  {
  }
}
