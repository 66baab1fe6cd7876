/**
  What the resident charge of an admitted JSON value comes to, against the bytes it retains
  (src/json_value.rs:488-602, src/resident_credit.rs:315-384).
*/
module JsonCharge {
  import opened Wrappers
  import opened Text
  import opened ResidentCharge
  import opened Json

  /** An allocation of `size` bytes with its header; nothing is allocated for no bytes. */
  function Held(size: nat): nat {
    if size == 0 then 0 else size + 32
  }

  /** The same with the padding to a multiple of sixteen, at its greatest. */
  function Padded(size: nat): nat {
    if size == 0 then 0 else size + 32 + 15
  }

  function KeysHeld(keys: seq<Key>): nat {
    if keys == [] then 0 else Held(keys[0].capacity) + KeysHeld(keys[1..])
  }

  function KeysPadded(keys: seq<Key>): nat {
    if keys == [] then 0 else Padded(keys[0].capacity) + KeysPadded(keys[1..])
  }

  /** One node of a B-tree map: a header, eleven keys and values, twelve child pointers. */
  function TreeNodeBytes(l: Layout): nat {
    16 + 11 * (l.stringSize + l.valueSize) + 12 * l.pointerSize
  }

  /** A tree of this many nodes can hold the entries: every node but the root holds at least five. */
  predicate HoldsEntries(treeNodes: nat, entries: nat) {
    treeNodes > 1 ==> 1 + 5 * (treeNodes - 1) <= entries
  }

  /** `trees` says how many nodes each object's tree has; a map counts its entries in a word. */
  predicate IsShape(v: Value, trees: Value -> nat)
    decreases v
  {
    match v
    case Array(items, _) => forall i :: 0 <= i < |items| ==> IsShape(items[i], trees)
    case Object(keys, values) =>
      HoldsEntries(trees(v), |keys|) && |keys| <= MAX_USIZE && forall i :: 0 <= i < |values| ==> IsShape(values[i], trees)
    case _ => true
  }

  /** The bytes a value retains on the heap when its maps have these trees. */
  function Retained(l: Layout, v: Value, trees: Value -> nat): nat
    decreases v, 1
  {
    match v
    case Str(_, capacity) => Held(capacity)
    case Array(items, capacity) => Held(capacity * l.valueSize) + RetainedAll(l, items, trees)
    case Object(keys, values) => trees(v) * (TreeNodeBytes(l) + 32) + KeysHeld(keys) + RetainedAll(l, values, trees)
    case _ => 0
  }

  function RetainedAll(l: Layout, vs: seq<Value>, trees: Value -> nat): nat
    decreases vs, 0
  {
    if vs == [] then 0 else Retained(l, vs[0], trees) + RetainedAll(l, vs[1..], trees)
  }

  /** The same at its greatest: full padding, and a tree whose nodes hold five entries each. */
  function Greatest(l: Layout, v: Value): nat
    decreases v, 1
  {
    match v
    case Str(_, capacity) => Padded(capacity)
    case Array(items, capacity) => Padded(capacity * l.valueSize) + GreatestAll(l, items)
    case Object(keys, values) =>
      (if keys == [] then 1 else (|keys| + 3) / 5 + 1) * (TreeNodeBytes(l) + 47) + KeysPadded(keys) + GreatestAll(l, values)
    case _ => 0
  }

  function GreatestAll(l: Layout, vs: seq<Value>): nat
    decreases vs, 0
  {
    if vs == [] then 0 else Greatest(l, vs[0]) + GreatestAll(l, vs[1..])
  }

  /** Alignments up to sixteen, as on every target. */
  predicate CommonLayout(l: Layout) {
    l.valueAlign in {1, 2, 4, 8, 16}
  }

  /** At least what is held, or saturated, and at most the padded size. */
  predicate Covers(charge: nat, held: nat, padded: nat) {
    (held <= charge || MAX_USIZE <= charge) && charge <= padded
  }

  // ----- one allocation -----

  lemma RoundedCharge(size: usize, align: nat)
    requires size > 0 && 0 < align <= 16
    ensures var charge := HeapAllocationCharge(size, align);
      if charge.Some? then Held(size) <= charge.value <= Padded(size) else MAX_USIZE < Padded(size)
  {
    assert Pow2(4) == 16;
    hide BitAnd, BitNot, Pow2;
    RoundUpIsLeast(size, 4, 0);
  }

  lemma AllocationCharge(size: usize, align: nat)
    requires 0 < align <= 16
    ensures Covers(OrMax(HeapAllocationCharge(size, align)), Held(size), Padded(size))
  {
    if size > 0 {
      RoundedCharge(size, align);
    }
    hide RoundUp;
  }

  lemma KeysAppend(a: seq<Key>, k: Key)
    ensures KeysHeld(a + [k]) == KeysHeld(a) + Held(k.capacity) && KeysPadded(a + [k]) == KeysPadded(a) + Padded(k.capacity)
  {
    if a == [] {
      assert a + [k] == [k] && [k][1..] == [];
    } else {
      assert (a + [k])[1..] == a[1..] + [k];
      KeysAppend(a[1..], k);
    }
  }

  lemma {:induction false} KeysChargeBounds(keys: seq<Key>)
    ensures Covers(KeysCharge(keys), KeysHeld(keys), KeysPadded(keys))
  {
    hide HeapAllocationCharge, OrMax, Held, Padded;
    if keys != [] {
      var front, last := keys[..|keys| - 1], keys[|keys| - 1];
      assert keys == front + [last];
      KeysChargeBounds(front);
      AllocationCharge(last.capacity, 1);
      KeysAppend(front, last);
    }
  }

  lemma TimesMonotone(a: nat, b: nat, c: nat, d: nat)
    requires a <= b && c <= d
    ensures a * c <= b * d
  {
    assert a * c <= b * c;
    assert b * c <= b * d;
  }

  lemma ProductCovers(treeNodes: nat, nodes: nat, low: nat, one: nat, high: nat)
    requires treeNodes <= nodes && low <= one <= high
    ensures Covers(OrMax(CheckedMul(nodes, one)), treeNodes * low, nodes * high)
  {
    TimesMonotone(treeNodes, nodes, low, one);
    TimesMonotone(nodes, nodes, one, high);
  }

  lemma OverflowCovers(nodes: nat, high: nat, held: nat)
    requires nodes >= 1 && MAX_USIZE < high
    ensures Covers(OrMax(None), held, nodes * high)
  {
    TimesMonotone(1, nodes, high, high);
  }

  lemma TreeCharge(l: Layout, entries: usize, treeNodes: nat)
    requires HoldsEntries(treeNodes, entries)
    ensures Covers(OrMax(ObjectBackingCharge(l, entries)), treeNodes * (TreeNodeBytes(l) + 32),
                   (if entries == 0 then 1 else (entries + 3) / 5 + 1) * (TreeNodeBytes(l) + 47))
  {
    var nodeBytes, nodes := TreeNodeBytes(l), ObjectNodes(entries);
    assert nodeBytes > 0 && nodes == (if entries == 0 then 1 else (entries + 3) / 5 + 1);
    var one := if nodeBytes <= MAX_USIZE then HeapAllocationCharge(nodeBytes, 16) else None;
    assert ObjectBackingCharge(l, entries) == if one.None? then None else CheckedMul(nodes, one.value);
    if nodeBytes <= MAX_USIZE {
      RoundedCharge(nodeBytes, 16);
    }
    assert one.Some? ==> nodeBytes + 32 <= one.value <= nodeBytes + 47;
    assert one.None? ==> MAX_USIZE < nodeBytes + 47;
    ObjectNodesCoverTree(entries, treeNodes);
    hide *;
    if one.Some? {
      ProductCovers(treeNodes, nodes, nodeBytes + 32, one.value, nodeBytes + 47);
    } else {
      OverflowCovers(nodes, nodeBytes + 47, treeNodes * (nodeBytes + 32));
    }
  }

  /** What one node itself retains, without its children. */
  function Own(l: Layout, v: Value, trees: Value -> nat): nat {
    match v
    case Str(_, capacity) => Held(capacity)
    case Array(_, capacity) => Held(capacity * l.valueSize)
    case Object(keys, _) => trees(v) * (TreeNodeBytes(l) + 32) + KeysHeld(keys)
    case _ => 0
  }

  function OwnGreatest(l: Layout, v: Value): nat {
    match v
    case Str(_, capacity) => Padded(capacity)
    case Array(_, capacity) => Padded(capacity * l.valueSize)
    case Object(keys, _) => (if keys == [] then 1 else (|keys| + 3) / 5 + 1) * (TreeNodeBytes(l) + 47) + KeysPadded(keys)
    case _ => 0
  }

  lemma CoversBoth(a: nat, heldA: nat, paddedA: nat, b: nat, heldB: nat, paddedB: nat)
    requires Covers(a, heldA, paddedA) && Covers(b, heldB, paddedB)
    ensures Covers(a + b, heldA + heldB, paddedA + paddedB)
  {
  }

  lemma VecCharge(l: Layout, capacity: usize)
    requires CommonLayout(l) && GoodLayout(l)
    ensures Covers(OrMax(VecBackingCharge(capacity, l.valueSize, l.valueAlign)), Held(capacity * l.valueSize), Padded(capacity * l.valueSize))
  {
    hide HeapAllocationCharge;
    if l.valueSize == 0 {
      assert capacity * l.valueSize == 0;
    } else if capacity * l.valueSize <= MAX_USIZE {
      AllocationCharge(capacity * l.valueSize, l.valueAlign);
    }
  }

  lemma NodeChargeBounds(l: Layout, v: Value, trees: Value -> nat)
    requires CommonLayout(l) && GoodLayout(l) && (v.Object? ==> HoldsEntries(trees(v), |v.keys|) && |v.keys| <= MAX_USIZE)
    ensures Covers(NodeCharge(l, v), Own(l, v, trees), OwnGreatest(l, v))
  {
    hide Covers, HeapAllocationCharge, VecBackingCharge, ObjectBackingCharge, KeysCharge, KeysHeld, KeysPadded, TreeNodeBytes, Held, Padded, OrMax;
    match v
    case Str(_, capacity) => AllocationCharge(capacity, 1);
    case Array(_, capacity) => VecCharge(l, capacity);
    case Object(keys, _) =>
      TreeCharge(l, |keys|, trees(v));
      KeysChargeBounds(keys);
      CoversBoth(OrMax(ObjectBackingCharge(l, |keys|)), trees(v) * (TreeNodeBytes(l) + 32),
                 (if keys == [] then 1 else (|keys| + 3) / 5 + 1) * (TreeNodeBytes(l) + 47),
                 KeysCharge(keys), KeysHeld(keys), KeysPadded(keys));
    case _ => NothingCovered();
  }

  lemma NothingCovered()
    ensures Covers(0, 0, 0)
  {
  }

  // ----- the whole value -----

  lemma {:induction false} TotalAppend(l: Layout, a: seq<Node>, b: seq<Node>)
    requires GoodLayout(l)
    ensures TotalCharge(l, a + b) == TotalCharge(l, a) + TotalCharge(l, b)
    decreases |b|
  {
    hide NodeCharge;
    if b == [] {
      assert a + b == a;
    } else {
      var all := a + b;
      assert all[..|all| - 1] == a + b[..|b| - 1] && all[|all| - 1] == b[|b| - 1];
      TotalAppend(l, a, b[..|b| - 1]);
    }
  }

  lemma TotalOne(l: Layout, node: Node)
    requires GoodLayout(l)
    ensures TotalCharge(l, [node]) == NodeCharge(l, node.value)
  {
    hide NodeCharge;
    assert [node][..0] == [];
  }

  lemma RetainedUnfolds(l: Layout, v: Value, trees: Value -> nat)
    ensures Retained(l, v, trees) == Own(l, v, trees) + RetainedAll(l, Children(v), trees)
    ensures Greatest(l, v) == OwnGreatest(l, v) + GreatestAll(l, Children(v))
  {
    hide Held, Padded, KeysHeld, KeysPadded, TreeNodeBytes;
  }

  lemma {:induction false} TreeBounds(l: Layout, v: Value, depth: nat, trees: Value -> nat)
    requires CommonLayout(l) && GoodLayout(l) && IsShape(v, trees)
    ensures Covers(TotalCharge(l, PreOrder(v, depth)), Retained(l, v, trees), Greatest(l, v))
    decreases v, 1
  {
    PreOrderUnfolds(v, depth);
    RetainedUnfolds(l, v, trees);
    hide NodeCharge, Own, OwnGreatest, TotalCharge, PreOrder, PreOrderAll, Retained, RetainedAll, Greatest, GreatestAll;
    var children := PreOrderAll(Children(v), depth + 1);
    TotalAppend(l, [Node(v, depth)], children);
    TotalOne(l, Node(v, depth));
    NodeChargeBounds(l, v, trees);
    AllBounds(l, v, Children(v), depth + 1, trees);
  }

  lemma {:induction false} AllBounds(l: Layout, v: Value, vs: seq<Value>, depth: nat, trees: Value -> nat)
    requires CommonLayout(l) && GoodLayout(l)
    requires forall i :: 0 <= i < |vs| ==> vs[i] < v && IsShape(vs[i], trees)
    ensures Covers(TotalCharge(l, PreOrderAll(vs, depth)), RetainedAll(l, vs, trees), GreatestAll(l, vs))
    decreases v, 0, |vs|
  {
    hide NodeCharge, PreOrder, Retained, Greatest, IsShape;
    if vs == [] {
      assert TotalCharge(l, []) == 0;
    } else {
      TreeBounds(l, vs[0], depth, trees);
      AllBounds(l, v, vs[1..], depth, trees);
      TotalAppend(l, PreOrder(vs[0], depth), PreOrderAll(vs[1..], depth));
    }
  }

  /**
    The charge an admitted value reports covers every byte the value retains, whatever the
    shapes of its maps' trees, up to the width of the word, and exceeds them at most by the
    padding of each allocation and by counting every tree at its greatest.
  */
  lemma ChargeCoversValue(l: Layout, v: Value, trees: Value -> nat)
    requires CommonLayout(l) && GoodLayout(l) && IsShape(v, trees) && Inspect(l, v).Ok?
    ensures Min(Retained(l, v, trees), MAX_USIZE) <= Inspect(l, v).value <= Greatest(l, v)
  {
    hide NodeCharge, PreOrder, FirstOffence, TotalCharge;
    TreeBounds(l, v, 0, trees);
  }
}
