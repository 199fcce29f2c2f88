# ketchup Abstract Syntax Array, modelled in Dafny

ketchup stores a syntax tree as a flat array of nodes, the Abstract Syntax
Array (ASA). Each node names its parent by index into the same array instead
of holding pointers. This project models two things:

- the node record `Node` with its constructor `Node::new`, the staging record
  `TokenInfo`, and `Span`;
- the `ASA` capability set (`push`, `insert`, `get`, `len`, `Default`,
  iteration) as the vector implementation provides it, plus the constructor
  of the unfinished `PaddedVec`.

Layout:

- `wrappers.dfy` (module `Wrappers`) holds `Option` and `Result`.
- `node.dfy` (module `Nodes`) holds `Span`, `TokenInfo`, `Node` and `NewNode`.
  The `u8` fields are the subset type `U8` (0..255).
- `asa.dfy` (module `Asa`) models the array as `seq<Node<T>>`. It has the
  pure operations `Empty`, `Push`, `Insert`, `Get`, `Update` and `Len`, with
  lemmas relating them. `Collect` and `Build` walk and build an array. It
  also holds the `PaddedVec` record and its constructor.
- `parent_links.dfy` (module `ParentLinks`) states what the container does
  to parent indices: it never checks them and never rewrites them.

A Rust `get` hands out a `&mut Node`. Here it is two functions: `Get` reads
the slot and `Update` writes a whole node back into it. `Vec::insert` panics
when `idx > len`, and indexing panics when `idx >= len`. `Insert`, `Get` and
`Update` make those bounds preconditions. `TryInsert` and `TryGet` model the
panic as a `Failure(IndexOutOfBounds(idx, len))` result.

`Vec::insert` accepts `idx == len` and appends, so `TryInsert` fails only
when `idx > len`, and `InsertAtEndIsPush` proves that inserting at `len` is
a push. `Range<usize>` does not force `start <= end`, so `Span` does not
either.

## Model

| member | source | states |
|---|---|---|
| Nodes.NewNode | ketchup/src/node.rs:32-39 | `Node::new` is total, with no bound on `parent`. It stores token, span (start and end), parent (`None` included) and precedence exactly as given, and the precedence is a byte |
| Nodes.NewNodeFieldsRoundTrip | ketchup/src/node.rs:32-39 | reading the fields of a new node gives back the constructor's arguments |
| Nodes.NewNodeOfFields | ketchup/src/node.rs:16-27 | every node equals `Node::new` applied to its own fields, so the constructor covers every node |
| Nodes.NewNodeInjective | ketchup/src/node.rs:32-39 | two constructions give the same node if and only if their arguments are equal |
| Asa.Empty | ketchup/src/asa.rs:7 | the `Default` state holds no nodes |
| Asa.Len | ketchup/src/asa.rs:41-43 | `len` is the number of stored nodes; `PushesFromEmpty` shows that `n` pushes from the `Default` state give `len == n` |
| Asa.Get | ketchup/src/asa.rs:36-38 | the read half of `get` needs `idx < len` and yields the node at `idx`; `TryGet` shows it fails exactly when `idx >= len`, and `GetAfterUpdate` shows it sees the last write to that slot and no other |
| Asa.Push | ketchup/src/asa.rs:26-28 | `push` grows the length by one and puts the node at index old `len`. Every earlier element keeps its index and value |
| Asa.Insert | ketchup/src/asa.rs:31-33 | `insert` needs `idx <= len` and grows the length by one. The node lands at `idx`, elements before `idx` stay put, and each element at `i >= idx` moves to `i + 1` |
| Asa.Update | ketchup/src/asa.rs:36-38 | a write through `get(idx)` needs `idx < len`. It keeps the length, changes slot `idx` to the new node, and leaves every other slot as it was |
| Asa.TryInsert | ketchup/src/asa.rs:31-33 | `insert` panics if and only if `idx > len`, with the index and length in the error. Otherwise it gives the spliced array |
| Asa.TryGet | ketchup/src/asa.rs:36-38 | `get` panics if and only if `idx >= len`, so index `len` is refused and nothing wraps. Otherwise it yields exactly element `idx` |
| Asa.PushAllAppends | ketchup/src/asa.rs:26-28 | a run of pushes appends the nodes, in push order, after the existing contents |
| Asa.PushesFromEmpty | ketchup/src/asa.rs:7-18 | `n` pushes from the `Default` state give `len == n`, and `get(i)` is the `i`-th pushed node |
| Asa.GetAfterUpdate | ketchup/src/asa.rs:36-38 | a write through `get(idx)` is seen by a later `get(idx)` and by no other index |
| Asa.UpdateWithOwnValue | ketchup/src/asa.rs:36-38 | writing back the node `get` returned leaves the array unchanged |
| Asa.UpdateTwice | ketchup/src/asa.rs:36-38 | of two writes to the same slot, only the last one counts |
| Asa.InsertAtEndIsPush | ketchup/src/asa.rs:26-33 | `insert(len, n)` has the same effect as `push(n)` |
| Asa.InsertThenRemove | ketchup/src/asa.rs:31-33 | after `insert`, each old element `i` is at its shifted index. Removing slot `idx` gives back exactly the old contents |
| Asa.Collect | ketchup/src/asa.rs:7-18 | iterating with `len` and `get` yields every stored node, in index order |
| Asa.Build | ketchup/src/asa.rs:26-28 | pushing one `Node::new` per field tuple from the empty state gives one node per tuple, each with its tuple's fields |
| Asa.BuildThenIterate | ketchup/src/asa.rs:7-28 | building from field tuples and then iterating gives the same tuples back, in order, with every field intact |
| Asa.NewPaddedVec | ketchup/src/asa.rs:59-65 | `PaddedVec::new` has offset 0, length 0 and an empty backing array, so its contents are empty like the `Default` vector |
| Asa.NewPaddedVecIsEmpty | ketchup/src/asa.rs:59-65 | a new padded vector has consistent fields and holds as many elements as the `Default` vector, none |
| ParentLinks.PushPreservesParentsValid | ketchup/src/asa.rs:26-28 | if every parent index is in bounds and the pushed node is a root or names an index below the old length, every parent index stays in bounds |
| ParentLinks.PushKeepsFields | ketchup/src/asa.rs:26-28 | `push` leaves every stored parent and precedence as it was and adds the new node's fields at the end |
| ParentLinks.InsertKeepsFields | ketchup/src/asa.rs:31-33 | `insert` splices the new node's parent and precedence in at `idx`. No stored parent or precedence is rewritten, including those of shifted nodes |
| ParentLinks.UpdateKeepsOtherFields | ketchup/src/asa.rs:36-38 | a write through `get(idx)` changes the parent and precedence of slot `idx` only |
| ParentLinks.InsertStalesParents | ketchup/src/asa.rs:31-33 | after `insert`, a shifted child still stores parent `p`, but its old parent now sits at `Shifted(p, idx)`. That equals `p` if and only if `p < idx`, so the caller must fix up the parent indices |
| ParentLinks.InsertPreservesParentsValid | ketchup/src/asa.rs:31-33 | `insert` keeps every parent index in bounds when the new node's parent is within the new length |
| ParentLinks.UpdateParentsValid | ketchup/src/asa.rs:36-38 | after a write through `get(idx)`, every parent index is in bounds if and only if the new node's parent and all the other nodes' parents are |
| ParentLinks.ScenarioInsertBetweenChildren | ketchup/src/asa.rs:26-33 | push A (root), B and C (parent 0), then insert D at 1: the order is A, D, B, C, and B and C still store parent 0 |

## Left out

- Capacity overflow and allocation failure: `usize` is modelled as an unbounded `nat`, so the panic `Vec::push` raises when capacity overflows is not modelled.
- The `ASA` trait's polymorphism over backing containers: the vector is its only implementation, so the capability set is modelled through that one implementation.
- `get`'s mutable reference and Rust aliasing: a write through the reference is modelled as `Update`, which stores a whole node back into the slot.
- `Debug` and derive plumbing: formatting has no behaviour to verify.
- `IntoIterator`: iteration is modelled as the sequence itself in index order (`Collect`). Consuming the vector is not modelled.
- `PaddedVec` beyond `new`: it has no other operations, and `with_capacity` is commented out. `PaddedContents` reads the live part as `offset..offset+len` of the backing array. No insertion strategy is modelled.
- The `parser`, `token_info` and `error` modules named in `ketchup/src/lib.rs`: they are not part of this model. Deciding where a node goes belongs to the parsing driver.
- `TokenInfo` has no operations. The model records its fields, with `space` and `precedence` as `U8`.
- Token and operator contents are an opaque type parameter.
