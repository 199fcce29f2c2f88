/** The Abstract Syntax Array: a syntax tree stored as a flat sequence of
    nodes, addressed by index. The `ASA` capability set is modelled through
    its one implementation, a growable vector, as a `seq<Node<T>>`; each
    operation is a pure function from the old contents to the new. */
module Asa {
  import opened Wrappers
  import opened Nodes

  /** The contents of an array, in index order. */
  type Asa<T> = seq<Node<T>>

  /** Why an operation stops: the index was past what the operation allows.
      In the vector implementation this is a panic. */
  datatype Panic = IndexOutOfBounds(index: nat, len: nat)

  /** The `Default` state: no nodes. */
  function Empty<T>(): (s: Asa<T>)
    ensures |s| == 0
  {
    []
  }

  /** `len`: the number of stored nodes. */
  function Len<T>(s: Asa<T>): nat
  {
    |s|
  }

  /** `push`: `node` becomes the new last element; every element already
      stored keeps its index and its value. */
  function Push<T>(s: Asa<T>, node: Node<T>): (r: Asa<T>)
    ensures |r| == |s| + 1
    ensures r[|s|] == node
    ensures forall i :: 0 <= i < |s| ==> r[i] == s[i]
  {
    s + [node]
  }

  /** `insert`: `node` lands at `idx`; the elements before `idx` stay where
      they were and each element from `idx` on moves one place right. The
      vector panics when `idx > len`, so callers must stay within bounds. */
  function Insert<T>(s: Asa<T>, idx: nat, node: Node<T>): (r: Asa<T>)
    requires idx <= |s|
    ensures |r| == |s| + 1
    ensures r[idx] == node
    ensures forall i :: 0 <= i < idx ==> r[i] == s[i]
    ensures forall i :: idx <= i < |s| ==> r[i + 1] == s[i]
  {
    s[..idx] + [node] + s[idx..]
  }

  /** The read half of `get`: the node stored at `idx`. Indexing panics
      when `idx >= len`. */
  function Get<T>(s: Asa<T>, idx: nat): Node<T>
    requires idx < |s|
  {
    s[idx]
  }

  /** The write half of `get`: storing `node` through the mutable reference
      to slot `idx`. Only that slot changes. */
  function Update<T>(s: Asa<T>, idx: nat, node: Node<T>): (r: Asa<T>)
    requires idx < |s|
    ensures |r| == |s|
    ensures r[idx] == node
    ensures forall i :: 0 <= i < |s| && i != idx ==> r[i] == s[i]
  {
    s[idx := node]
  }

  /** `insert` with its panic made visible: it fails exactly when `idx`
      is past the end, and otherwise does what `Insert` does. */
  function TryInsert<T>(s: Asa<T>, idx: nat, node: Node<T>): (r: Result<Asa<T>, Panic>)
    ensures r.Failure? <==> idx > |s|
    ensures r.Failure? ==> r.error == IndexOutOfBounds(idx, |s|)
    ensures r.Success? ==> |r.value| == |s| + 1 && r.value[idx] == node
    ensures r.Success? ==> r.value == Insert(s, idx, node)
  {
    if idx <= |s| then Success(Insert(s, idx, node)) else Failure(IndexOutOfBounds(idx, |s|))
  }

  /** `get` with its panic made visible: it fails exactly when `idx` is not
      below the length, and otherwise yields the stored node. Index `len`
      itself is refused: nothing wraps around or is clamped. */
  function TryGet<T>(s: Asa<T>, idx: nat): (r: Result<Node<T>, Panic>)
    ensures r.Failure? <==> idx >= |s|
    ensures r.Failure? ==> r.error == IndexOutOfBounds(idx, |s|)
    ensures r.Success? ==> idx < |s| && r.value == s[idx]
  {
    if idx < |s| then Success(Get(s, idx)) else Failure(IndexOutOfBounds(idx, |s|))
  }

  /** A run of `push` calls, first to last. */
  function PushAll<T>(s: Asa<T>, nodes: seq<Node<T>>): Asa<T>
    decreases |nodes|
  {
    if |nodes| == 0 then s else PushAll(Push(s, nodes[0]), nodes[1..])
  }

  /** Pushing a run of nodes appends them, in push order, after what was
      there before. */
  lemma {:induction false} PushAllAppends<T>(s: Asa<T>, nodes: seq<Node<T>>)
    ensures PushAll(s, nodes) == s + nodes
    decreases |nodes|
  {
    if |nodes| == 0 {
      assert s + nodes == s;
    } else {
      PushAllAppends(Push(s, nodes[0]), nodes[1..]);
      assert Push(s, nodes[0]) + nodes[1..] == s + nodes;
    }
  }

  /** `n` pushes onto the empty array leave `len == n`, and the node at
      index `i` is the `i`-th one pushed. */
  lemma PushesFromEmpty<T>(nodes: seq<Node<T>>)
    ensures Len(PushAll(Empty(), nodes)) == |nodes|
    ensures forall i :: 0 <= i < |nodes| ==> Get(PushAll(Empty(), nodes), i) == nodes[i]
  {
    PushAllAppends(Empty(), nodes);
    assert Empty<T>() + nodes == nodes;
  }

  /** A write through `get` is seen by the next `get` of the same slot, and
      by no other slot. */
  lemma GetAfterUpdate<T>(s: Asa<T>, idx: nat, node: Node<T>, j: nat)
    requires idx < |s| && j < |s|
    ensures Get(Update(s, idx, node), j) == if j == idx then node else Get(s, j)
  {
  }

  /** Writing back what `get` read leaves the array as it was. */
  lemma UpdateWithOwnValue<T>(s: Asa<T>, idx: nat)
    requires idx < |s|
    ensures Update(s, idx, Get(s, idx)) == s
  {
  }

  /** A second write to the same slot overrides the first. */
  lemma UpdateTwice<T>(s: Asa<T>, idx: nat, a: Node<T>, b: Node<T>)
    requires idx < |s|
    ensures Update(Update(s, idx, a), idx, b) == Update(s, idx, b)
  {
  }

  /** Inserting at the end is pushing. */
  lemma InsertAtEndIsPush<T>(s: Asa<T>, node: Node<T>)
    ensures Insert(s, |s|, node) == Push(s, node)
  {
  }

  /** Where an element that was at index `i` sits after an insert at `idx`. */
  function Shifted(i: nat, idx: nat): (j: nat)
  {
    if i < idx then i else i + 1
  }

  /** Insert moves every old element to its shifted index and puts nothing
      else there: the old contents are exactly the new contents with slot
      `idx` removed. */
  lemma InsertThenRemove<T>(s: Asa<T>, idx: nat, node: Node<T>)
    requires idx <= |s|
    ensures forall i :: 0 <= i < |s| ==> Insert(s, idx, node)[Shifted(i, idx)] == s[i]
    ensures Insert(s, idx, node)[..idx] + Insert(s, idx, node)[idx + 1..] == s
  {
  }

  /** `IntoIterator`: walking the array with `len` and `get` produces the
      stored nodes, all of them, in index order. */
  method Collect<T>(s: Asa<T>) returns (out: seq<Node<T>>)
    ensures out == s
  {
    out := [];
    var i := 0;
    while i < Len(s)
      invariant 0 <= i <= |s|
      invariant out == s[..i]
    {
      out := out + [Get(s, i)];
      i := i + 1;
    }
    assert s[..|s|] == s;
  }

  /** Builds an array from the default state by pushing one `Node::new` per
      entry, in order. Each stored node carries its entry's fields intact. */
  method Build<T>(entries: seq<Fields<T>>) returns (s: Asa<T>)
    ensures |s| == |entries|
    ensures forall i :: 0 <= i < |s| ==> FieldsOf(s[i]) == entries[i]
  {
    s := Empty();
    var i := 0;
    while i < |entries|
      invariant 0 <= i <= |entries|
      invariant |s| == i
      invariant forall j :: 0 <= j < i ==> FieldsOf(s[j]) == entries[j]
    {
      var e := entries[i];
      s := Push(s, NewNode(e.0, e.1, e.2, e.3));
      i := i + 1;
    }
  }

  /** Building an array from a list of field tuples and then iterating it
      gives back the tuples, in the same order, with every field intact. */
  method BuildThenIterate<T>(entries: seq<Fields<T>>) returns (out: seq<Fields<T>>)
    ensures out == entries
  {
    var s := Build(entries);
    var nodes := Collect(s);
    out := [];
    var i := 0;
    while i < |nodes|
      invariant 0 <= i <= |nodes|
      invariant out == entries[..i]
    {
      out := out + [FieldsOf(nodes[i])];
      i := i + 1;
    }
    assert entries[..|entries|] == entries;
  }

  /** The padded vector: a backing array (`storage`, the Rust field `array`)
      with spare room at both ends, the live part starting at `offset` and
      `len` long. Only its constructor exists. */
  datatype PaddedVec<T> = PaddedVec(offset: nat, storage: seq<T>, len: nat)

  /** The live part of a padded vector, when its fields are consistent. */
  predicate PaddedValid<T>(p: PaddedVec<T>)
  {
    p.offset + p.len <= |p.storage|
  }

  function PaddedContents<T>(p: PaddedVec<T>): seq<T>
    requires PaddedValid(p)
  {
    p.storage[p.offset..p.offset + p.len]
  }

  /** `PaddedVec::new`: no offset, no backing storage, no elements, which is
      the same empty state as the vector's `Default`. */
  function NewPaddedVec<T>(): (p: PaddedVec<T>)
    ensures p.offset == 0 && p.len == 0 && |p.storage| == 0
    ensures PaddedValid(p) && PaddedContents(p) == []
  {
    PaddedVec(0, [], 0)
  }

  /** A new padded vector is consistent and holds as many elements as the
      `Default` vector: none. Its elements are bare tokens, not nodes, so
      the two are compared by length. */
  lemma NewPaddedVecIsEmpty<T>()
    ensures PaddedValid(NewPaddedVec<T>())
    ensures |PaddedContents(NewPaddedVec<T>())| == Len(Empty<T>())
  {
  }
}
