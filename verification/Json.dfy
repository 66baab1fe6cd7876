/**
  Admission, equality and normalisation of JSON values (src/json_value.rs:456-700).
  Doubles are reals, with negative zero and the non-finite values kept apart.
  An object is its keys in map order beside their values.
*/
module Json {
  import opened Wrappers
  import opened Text
  import opened ResidentCharge

  const MAX_JSON_DEPTH: nat := 128
  const MAX_JSON_NODES: nat := 1_000_000

  datatype Number = PosInt(n: u64) | NegInt(i: int) | Float(r: real) | NegativeZero | NotFinite

  datatype Key = Key(text: string, capacity: usize)

  datatype Value =
    | Null
    | Bool(b: bool)
    | Num(number: Number)
    | Str(text: string, capacity: usize)
    | Array(items: seq<Value>, capacity: usize)
    | Object(keys: seq<Key>, values: seq<Value>)

  datatype JsonError = InvalidNumber | TooDeep(maximum: nat) | TooManyNodes(maximum: nat)

  /** Sizes of the retained Rust types on the target. */
  datatype Layout = Layout(valueSize: nat, valueAlign: nat, stringSize: nat, pointerSize: nat)

  predicate GoodLayout(l: Layout) {
    l.valueAlign > 0
  }

  // ----- numbers -----

  /** 2^53: the integers below it, and it, are doubles. */
  const EXACT_INTEGERS: nat := MAX_SAFE_INTEGER + 1

  const HALF_EXACT: nat := EXACT_INTEGERS / 2

  /** The distance between doubles near `n`. */
  function Spacing(n: nat): (r: nat)
    ensures r > 0 && (n >= EXACT_INTEGERS ==> r >= 2)
    ensures n >= EXACT_INTEGERS ==> HALF_EXACT * r <= n < EXACT_INTEGERS * r
  {
    if n < EXACT_INTEGERS then 1 else 2 * Spacing(n / 2)
  }

  lemma DivideAndBack(n: nat, spacing: nat, least: nat)
    requires spacing > 0 && least * spacing <= n
    ensures n == (n / spacing) * spacing + n % spacing && n % spacing < spacing
    ensures n / spacing >= least
  {
    var below := n / spacing;
    assert (below + 1) * spacing == below * spacing + spacing > n;
    NextProduct(below, least, spacing);
  }

  lemma NextProduct(below: nat, least: nat, spacing: nat)
    ensures below < least ==> (below + 1) * spacing <= least * spacing
  {
    if below < least {
      ProductAtLeast(least, below + 1, spacing, spacing);
    }
  }

  lemma ProductAtLeast(a: nat, b: nat, c: nat, d: nat)
    requires a >= b && c >= d
    ensures a * c >= b * d
  {
    assert a * c >= b * c;
    assert b * c >= b * d;
  }

  /** The double nearest to `n`, ties to the even significand (section 4.3.1 of IEEE 754). */
  function Rounded(n: nat): (r: nat)
    ensures n <= EXACT_INTEGERS ==> r == n
    ensures n >= EXACT_INTEGERS ==> r >= EXACT_INTEGERS
  {
    if n <= EXACT_INTEGERS then n else
    var spacing := Spacing(n);
    var below, rest := n / spacing, n % spacing;
    DivideAndBack(n, spacing, HALF_EXACT);
    ProductAtLeast(below, HALF_EXACT, spacing, 2);
    ProductAtLeast(below + 1, HALF_EXACT, spacing, 2);
    if 2 * rest > spacing || (2 * rest == spacing && below % 2 == 1) then (below + 1) * spacing else below * spacing
  }

  function RoundedInteger(i: int): int {
    var size: int := Rounded(if i >= 0 then i else -i);
    if i >= 0 then size else -size
  }

  /** The nearest double is a multiple of the spacing, at most half a spacing away. */
  lemma RoundedIsNearest(n: nat) returns (significand: nat)
    ensures Rounded(n) == significand * Spacing(n)
    ensures 2 * (Rounded(n) - n) <= Spacing(n) && 2 * (n - Rounded(n)) <= Spacing(n)
  {
    var spacing := Spacing(n);
    if n <= EXACT_INTEGERS {
      significand := if n < EXACT_INTEGERS then n else HALF_EXACT;
    } else {
      var below, rest := n / spacing, n % spacing;
      DivideAndBack(n, spacing, 0);
      significand := if 2 * rest > spacing || (2 * rest == spacing && below % 2 == 1) then below + 1 else below;
      assert (below + 1) * spacing == below * spacing + spacing;
    }
  }

  /** The number as a double. */
  function AsReal(n: Number): Option<real> {
    match n
    case PosInt(k) => Some(Rounded(k) as real)
    case NegInt(k) => Some(RoundedInteger(k) as real)
    case Float(r) => Some(r)
    case NegativeZero => Some(0.0)
    case NotFinite => None
  }

  predicate IsIntegral(r: real) {
    r.Floor as real == r
  }

  function Abs(r: real): real {
    if r < 0.0 then -r else r
  }

  predicate Admissible(n: Number) {
    && n != NotFinite && n != NegativeZero
    && !(IsIntegral(AsReal(n).value) && Abs(AsReal(n).value) > MAX_SAFE_INTEGER as real)
  }

  // ----- the recursive definitions -----

  function Children(v: Value): seq<Value> {
    match v
    case Array(items, _) => items
    case Object(_, values) => values
    case _ => []
  }

  function NodeCount(v: Value): nat
    decreases v, 1
  {
    1 + match v
        case Array(items, _) => NodeCountAll(items)
        case Object(_, values) => NodeCountAll(values)
        case _ => 0
  }

  function NodeCountAll(vs: seq<Value>): nat
    decreases vs, 0
  {
    if vs == [] then 0 else NodeCount(vs[0]) + NodeCountAll(vs[1..])
  }

  /** Edges from a node to its deepest descendant. */
  function Height(v: Value): nat
    decreases v, 1
  {
    match v
    case Array(items, _) => HeightAll(items)
    case Object(_, values) => HeightAll(values)
    case _ => 0
  }

  function HeightAll(vs: seq<Value>): nat
    decreases vs, 0
  {
    if vs == [] then 0 else
    var first, rest := 1 + Height(vs[0]), HeightAll(vs[1..]);
    if first >= rest then first else rest
  }

  predicate NumbersAdmissible(v: Value)
    decreases v, 1
  {
    match v
    case Num(number) => Admissible(number)
    case Array(items, _) => forall i :: 0 <= i < |items| ==> NumbersAdmissible(items[i])
    case Object(_, values) => forall i :: 0 <= i < |values| ==> NumbersAdmissible(values[i])
    case _ => true
  }

  datatype Node = Node(value: Value, depth: nat)

  /** Every node with its depth, parents before children, children in order. */
  function PreOrder(v: Value, depth: nat): seq<Node>
    decreases v, 1
  {
    [Node(v, depth)] +
    match v
    case Array(items, _) => PreOrderAll(items, depth + 1)
    case Object(_, values) => PreOrderAll(values, depth + 1)
    case _ => []
  }

  function PreOrderAll(vs: seq<Value>, depth: nat): seq<Node>
    decreases vs, 0
  {
    if vs == [] then [] else PreOrder(vs[0], depth) + PreOrderAll(vs[1..], depth)
  }

  // ----- charges -----

  function OrMax(charge: Option<usize>): usize {
    if charge.Some? then charge.value else MAX_USIZE
  }

  function KeysCharge(keys: seq<Key>): nat {
    if keys == [] then 0 else KeysCharge(keys[..|keys| - 1]) + OrMax(ByteBufferCharge(keys[|keys| - 1].capacity))
  }

  const NODE_CAPACITY := 11
  const MIN_ENTRIES_PER_NODE := 5

  function ObjectNodes(entries: nat): nat {
    if entries == 0 then 1 else (entries - 1 + (MIN_ENTRIES_PER_NODE - 1)) / MIN_ENTRIES_PER_NODE + 1
  }

  function ObjectBackingCharge(l: Layout, entries: usize): Option<usize> {
    var nodeBytes := 16 + NODE_CAPACITY * (l.stringSize + l.valueSize) + (NODE_CAPACITY + 1) * l.pointerSize;
    if nodeBytes > MAX_USIZE then None else
    var oneNode := HeapAllocationCharge(nodeBytes, 16);
    if oneNode.None? then None else CheckedMul(ObjectNodes(entries), oneNode.value)
  }

  /** What one node adds to the resident total. */
  function NodeCharge(l: Layout, v: Value): nat
    requires GoodLayout(l)
  {
    match v
    case Str(_, capacity) => OrMax(ByteBufferCharge(capacity))
    case Array(_, capacity) => OrMax(VecBackingCharge(capacity, l.valueSize, l.valueAlign))
    case Object(keys, _) => OrMax(if |keys| > MAX_USIZE then None else ObjectBackingCharge(l, |keys|)) + KeysCharge(keys)
    case _ => 0
  }

  function TotalCharge(l: Layout, nodes: seq<Node>): nat
    requires GoodLayout(l)
  {
    if nodes == [] then 0 else TotalCharge(l, nodes[..|nodes| - 1]) + NodeCharge(l, nodes[|nodes| - 1].value)
  }

  /** A B-tree node other than the root holds at least five entries, so the node count is never charged short. */
  lemma ObjectNodesCoverTree(entries: nat, treeNodes: nat)
    requires treeNodes > 1 ==> 1 + MIN_ENTRIES_PER_NODE * (treeNodes - 1) <= entries
    ensures treeNodes <= ObjectNodes(entries)
  {
  }

  // ----- what admission answers -----

  function Offence(node: Node, index: nat): Option<JsonError> {
    if index + 1 > MAX_JSON_NODES then Some(TooManyNodes(MAX_JSON_NODES))
    else if node.depth > MAX_JSON_DEPTH then Some(TooDeep(MAX_JSON_DEPTH))
    else if node.value.Num? && !Admissible(node.value.number) then Some(InvalidNumber)
    else None
  }

  function FirstOffence(nodes: seq<Node>, from: nat): Option<JsonError>
    requires from <= |nodes|
    decreases |nodes| - from
  {
    if from == |nodes| then None
    else if Offence(nodes[from], from).Some? then Offence(nodes[from], from)
    else FirstOffence(nodes, from + 1)
  }

  function Inspect(l: Layout, v: Value): Result<usize, JsonError>
    requires GoodLayout(l)
  {
    var nodes := PreOrder(v, 0);
    match FirstOffence(nodes, 0)
    case Some(error) => Err(error)
    case None => Ok(Min(TotalCharge(l, nodes), MAX_USIZE))
  }

  // ----- the explicit stack -----

  /** An iterator over the remaining children, and their depth. */
  datatype Frame = Frame(rest: seq<Value>, depth: nat)

  function Unwound(parents: seq<Frame>): seq<Node> {
    if parents == [] then []
    else PreOrderAll(parents[|parents| - 1].rest, parents[|parents| - 1].depth) + Unwound(parents[..|parents| - 1])
  }

  /** What the traversal still has to visit, in the order it will visit it. */
  function Remaining(current: Option<Node>, parents: seq<Frame>): seq<Node> {
    (if current.Some? then PreOrder(current.value.value, current.value.depth) else []) + Unwound(parents)
  }

  predicate StackDepths(parents: seq<Frame>) {
    forall i :: 0 <= i < |parents| ==> parents[i].depth == i + 1
  }

  lemma PreOrderUnfolds(v: Value, depth: nat)
    ensures PreOrder(v, depth) == [Node(v, depth)] + PreOrderAll(Children(v), depth + 1)
    ensures !v.Array? && !v.Object? ==> PreOrderAll(Children(v), depth + 1) == []
  {
  }

  lemma UnwoundPush(parents: seq<Frame>, rest: seq<Value>, depth: nat)
    ensures Unwound(parents + [Frame(rest, depth)]) == PreOrderAll(rest, depth) + Unwound(parents)
  {
    assert (parents + [Frame(rest, depth)])[..|parents|] == parents;
  }

  lemma FirstOffenceStep(nodes: seq<Node>, k: nat)
    requires k < |nodes|
    ensures FirstOffence(nodes, k) ==
      if k + 1 > MAX_JSON_NODES then Some(TooManyNodes(MAX_JSON_NODES))
      else if nodes[k].depth > MAX_JSON_DEPTH then Some(TooDeep(MAX_JSON_DEPTH))
      else if nodes[k].value.Num? && !Admissible(nodes[k].value.number) then Some(InvalidNumber)
      else FirstOffence(nodes, k + 1)
  {
    hide Admissible;
  }

  lemma FirstOffenceEnds(nodes: seq<Node>)
    ensures FirstOffence(nodes, |nodes|).None?
  {
  }

  lemma SaturatingAddChains(total: nat, charge: nat)
    ensures SaturatingAdd(Min(total, MAX_USIZE), charge, MAX_USIZE) == Min(total + charge, MAX_USIZE)
  {
  }

  lemma TotalChargeAppend(l: Layout, nodes: seq<Node>, k: nat)
    requires GoodLayout(l) && k < |nodes|
    ensures TotalCharge(l, nodes[..k + 1]) == TotalCharge(l, nodes[..k]) + NodeCharge(l, nodes[k].value)
  {
    assert nodes[..k + 1][..k] == nodes[..k];
  }

  /** Move to the next unvisited node by popping exhausted iterators. */
  method Advance(stack: seq<Frame>) returns (current: Option<Node>, parents: seq<Frame>)
    requires StackDepths(stack)
    ensures StackDepths(parents) && |parents| <= |stack|
    ensures Remaining(current, parents) == Unwound(stack)
    ensures current.Some? ==> current.value.depth == |parents|
    ensures current.None? ==> parents == []
  {
    current, parents := None, stack;
    while current.None? && parents != []
      invariant StackDepths(parents) && |parents| <= |stack|
      invariant Remaining(current, parents) == Unwound(stack)
      invariant current.Some? ==> current.value.depth == |parents|
      decreases |parents|, current.None?
    {
      var top, below := parents[|parents| - 1], parents[..|parents| - 1];
      if top.rest == [] {
        parents := below;
      } else {
        current := Some(Node(top.rest[0], top.depth));
        UnwoundPush(below, top.rest[1..], top.depth);
        parents := below + [Frame(top.rest[1..], top.depth)];
      }
    }
  }

  /** Leave `node`: its children come next, and the deepest stack on the way is the pushed one. */
  method Descend(node: Node, stack: seq<Frame>) returns (current: Option<Node>, parents: seq<Frame>)
    requires StackDepths(stack) && node.depth == |stack|
    ensures StackDepths(parents) && |parents| <= |stack| + 1
    ensures [node] + Remaining(current, parents) == Remaining(Some(node), stack)
    ensures current.Some? ==> current.value.depth == |parents|
    ensures current.None? ==> parents == []
  {
    hide Unwound, PreOrder, PreOrderAll;
    PreOrderUnfolds(node.value, node.depth);
    parents := stack;
    if node.value.Array? || node.value.Object? {
      UnwoundPush(stack, Children(node.value), node.depth + 1);
      parents := stack + [Frame(Children(node.value), node.depth + 1)];
    }
    current, parents := Advance(parents);
  }

  lemma RemainingStartsHere(node: Node, parents: seq<Frame>)
    ensures Remaining(Some(node), parents) != [] && Remaining(Some(node), parents)[0] == node
  {
    PreOrderUnfolds(node.value, node.depth);
  }

  method AddCharge(total: usize, charge: Option<usize>) returns (r: usize)
    ensures r == SaturatingAdd(total, OrMax(charge), MAX_USIZE)
  {
    r := if total + OrMax(charge) > MAX_USIZE then MAX_USIZE else total + OrMax(charge);
  }

  /** The saturating additions one node causes. */
  method AddNodeCharge(l: Layout, total: usize, v: Value) returns (r: usize)
    requires GoodLayout(l)
    ensures r == SaturatingAdd(total, NodeCharge(l, v), MAX_USIZE)
  {
    hide HeapAllocationCharge, ObjectBackingCharge, VecBackingCharge, ByteBufferCharge, OrMax;
    r := total;
    match v {
      case Str(_, capacity) => r := AddCharge(r, ByteBufferCharge(capacity));
      case Array(_, capacity) => r := AddCharge(r, VecBackingCharge(capacity, l.valueSize, l.valueAlign));
      case Object(keys, _) =>
        r := AddCharge(r, if |keys| > MAX_USIZE then None else ObjectBackingCharge(l, |keys|));
        var backing := r;
        for k := 0 to |keys|
          invariant r == SaturatingAdd(backing, KeysCharge(keys[..k]), MAX_USIZE)
        {
          r := AddCharge(r, ByteBufferCharge(keys[k].capacity));
          assert keys[..k + 1][..k] == keys[..k];
        }
        assert keys[..|keys|] == keys;
      case _ =>
    }
  }

  lemma Associates(a: seq<Node>, b: seq<Node>, c: seq<Node>)
    ensures a + b + c == a + (b + c)
  {
  }

  lemma LimitsFit()
    ensures 0 < MAX_JSON_NODES < MAX_USIZE
  {
  }

  /** The traversal has visited the first nodes without an offence and charged them. */
  ghost predicate Underway(l: Layout, all: seq<Node>, visited: nat, current: Option<Node>, parents: seq<Frame>, resident: usize)
    requires GoodLayout(l)
  {
    && visited <= |all| && visited <= MAX_JSON_NODES
    && Remaining(current, parents) == all[visited..]
    && FirstOffence(all, 0) == FirstOffence(all, visited)
    && resident == Min(TotalCharge(l, all[..visited]), MAX_USIZE)
    && StackDepths(parents)
    && (if current.Some? then current.value.depth == |parents| else parents == [])
  }

  lemma TraversalStarts(l: Layout, value: Value)
    requires GoodLayout(l)
    ensures Underway(l, PreOrder(value, 0), 0, Some(Node(value, 0)), [], 0)
  {
    var all := PreOrder(value, 0);
    hide NodeCharge, Admissible, PreOrder;
    assert Unwound([]) == [] && all[0..] == all && all[..0] == [];
  }

  lemma TraversalVisits(l: Layout, all: seq<Node>, visited: nat, node: Node, parents: seq<Frame>, resident: usize)
    requires GoodLayout(l) && Underway(l, all, visited, Some(node), parents, resident)
    ensures visited < |all| && all[visited] == node && node.depth == |parents| && StackDepths(parents)
    ensures FirstOffence(all, 0) ==
      if visited + 1 > MAX_JSON_NODES then Some(TooManyNodes(MAX_JSON_NODES))
      else if node.depth > MAX_JSON_DEPTH then Some(TooDeep(MAX_JSON_DEPTH))
      else if node.value.Num? && !Admissible(node.value.number) then Some(InvalidNumber)
      else FirstOffence(all, visited + 1)
  {
    hide TotalCharge, Admissible, FirstOffence, Remaining;
    RemainingStartsHere(node, parents);
    FirstOffenceStep(all, visited);
  }

  lemma TraversalGoesOn(l: Layout, all: seq<Node>, visited: nat, node: Node, parents: seq<Frame>, resident: usize,
                        current: Option<Node>, below: seq<Frame>, charged: usize)
    requires GoodLayout(l) && Underway(l, all, visited, Some(node), parents, resident)
    requires visited < MAX_JSON_NODES && visited < |all| && all[visited] == node && FirstOffence(all, 0) == FirstOffence(all, visited + 1)
    requires charged == SaturatingAdd(resident, NodeCharge(l, node.value), MAX_USIZE)
    requires [node] + Remaining(current, below) == Remaining(Some(node), parents) && StackDepths(below)
    requires if current.Some? then current.value.depth == |below| else below == []
    ensures Underway(l, all, visited + 1, current, below, charged)
  {
    hide TotalCharge, NodeCharge, FirstOffence, Remaining, StackDepths, SaturatingAdd, Min;
    TotalChargeAppend(l, all, visited);
    SaturatingAddChains(TotalCharge(l, all[..visited]), NodeCharge(l, node.value));
    assert ([node] + Remaining(current, below))[1..] == Remaining(current, below) && all[visited..][1..] == all[visited + 1..];
  }

  lemma TraversalEnds(l: Layout, value: Value, visited: nat, parents: seq<Frame>, resident: usize)
    requires GoodLayout(l) && Underway(l, PreOrder(value, 0), visited, None, parents, resident)
    ensures Inspect(l, value) == Ok(resident)
  {
    var all := PreOrder(value, 0);
    assert Remaining(None, []) == [];
    hide TotalCharge, FirstOffence, PreOrder, Remaining;
    FirstOffenceEnds(all);
    assert all[..visited] == all;
  }

  lemma OffenceDecides(l: Layout, value: Value)
    requires GoodLayout(l) && FirstOffence(PreOrder(value, 0), 0).Some?
    ensures Inspect(l, value) == Err(FirstOffence(PreOrder(value, 0), 0).value)
  {
    hide TotalCharge, FirstOffence, PreOrder;
  }

  /**
    The explicit-stack traversal answers exactly what the pre-order definition
    says, and its stack never grows past the depth limit plus one.
  */
  method InspectJson(l: Layout, value: Value) returns (r: Result<usize, JsonError>, ghost peak: nat)
    requires GoodLayout(l)
    ensures r == Inspect(l, value)
    ensures peak <= MAX_JSON_DEPTH + 1
  {
    ghost var all := PreOrder(value, 0);
    var current := Some(Node(value, 0));
    var parents: seq<Frame> := [];
    var nodes: usize := 0;
    var resident: usize := 0;
    peak := 0;
    TraversalStarts(l, value);
    LimitsFit();
    hide *;
    while current.Some?
      invariant nodes <= |all| && Underway(l, all, nodes, current, parents, resident)
      invariant |parents| <= peak <= MAX_JSON_DEPTH + 1
      decreases |all| - nodes
    {
      var node := current.value;
      TraversalVisits(l, all, nodes, node, parents, resident);
      if nodes + 1 > MAX_JSON_NODES {
        OffenceDecides(l, value);
        return Err(TooManyNodes(MAX_JSON_NODES)), peak;
      }
      if node.depth > MAX_JSON_DEPTH {
        OffenceDecides(l, value);
        return Err(TooDeep(MAX_JSON_DEPTH)), peak;
      }
      if node.value.Num? && !Admissible(node.value.number) {
        OffenceDecides(l, value);
        return Err(InvalidNumber), peak;
      }
      ghost var before, charged := parents, resident;
      resident := AddNodeCharge(l, resident, node.value);
      peak := if |parents| + 1 > peak then |parents| + 1 else peak;
      current, parents := Descend(node, parents);
      TraversalGoesOn(l, all, nodes, node, before, charged, current, parents, resident);
      nodes := nodes + 1;
    }
    TraversalEnds(l, value, nodes, parents, resident);
    r := Ok(resident);
  }

  /** Tearing a value down without recursion consumes every node exactly once, parents before children. */
  method DropIteratively(value: Value) returns (consumed: nat, ghost dropped: seq<Node>)
    ensures consumed == NodeCount(value)
    ensures dropped == PreOrder(value, 0) && |dropped| == consumed
  {
    var current := Some(Node(value, 0));
    var parents: seq<Frame> := [];
    consumed, dropped := 0, [];
    PreOrderLength(value, 0);
    assert dropped + Remaining(current, parents) == PreOrder(value, 0) && StackDepths(parents);
    assert Remaining(None, []) == [];
    hide Remaining, PreOrder, Unwound, PreOrderAll, StackDepths, NodeCount;
    while current.Some?
      invariant dropped + Remaining(current, parents) == PreOrder(value, 0)
      invariant consumed == |dropped|
      invariant StackDepths(parents)
      invariant current.Some? ==> current.value.depth == |parents|
      invariant current.None? ==> parents == []
      decreases |Remaining(current, parents)|
    {
      var node := current.value;
      ghost var before := dropped;
      consumed, dropped := consumed + 1, before + [node];
      current, parents := Descend(node, parents);
      Associates(before, [node], Remaining(current, parents));
    }
    assert dropped + [] == dropped;
  }

  // ----- the pre-order list against the recursive definitions -----

  lemma {:induction false} PreOrderLength(v: Value, depth: nat)
    ensures |PreOrder(v, depth)| == NodeCount(v)
    decreases v, 1
  {
    match v
    case Array(items, _) => PreOrderAllLength(items, depth + 1);
    case Object(_, values) => PreOrderAllLength(values, depth + 1);
    case _ =>
  }

  lemma {:induction false} PreOrderAllLength(vs: seq<Value>, depth: nat)
    ensures |PreOrderAll(vs, depth)| == NodeCountAll(vs)
    decreases vs, 0
  {
    if vs != [] {
      PreOrderLength(vs[0], depth);
      PreOrderAllLength(vs[1..], depth);
    }
  }

  predicate DepthsWithin(nodes: seq<Node>, limit: int) {
    forall n :: n in nodes ==> n.depth <= limit
  }

  predicate NodeNumbersAdmissible(nodes: seq<Node>) {
    forall n :: n in nodes && n.value.Num? ==> Admissible(n.value.number)
  }

  lemma {:induction false} PreOrderMeasures(v: Value, depth: nat, limit: int)
    ensures DepthsWithin(PreOrder(v, depth), limit) <==> depth + Height(v) <= limit
    ensures NodeNumbersAdmissible(PreOrder(v, depth)) <==> NumbersAdmissible(v)
    decreases v, 1
  {
    hide Admissible;
    PreOrderUnfolds(v, depth);
    var children := PreOrderAll(Children(v), depth + 1);
    MeasuresAppend([Node(v, depth)], children, limit);
    match v
    case Array(items, _) => PreOrderAllMeasures(items, depth + 1, limit);
    case Object(_, values) => PreOrderAllMeasures(values, depth + 1, limit);
    case _ =>
  }

  lemma MeasuresAppend(a: seq<Node>, b: seq<Node>, limit: int)
    ensures DepthsWithin(a + b, limit) <==> DepthsWithin(a, limit) && DepthsWithin(b, limit)
    ensures NodeNumbersAdmissible(a + b) <==> NodeNumbersAdmissible(a) && NodeNumbersAdmissible(b)
  {
    hide Admissible;
    assert forall n :: n in a + b <==> n in a || n in b;
  }

  lemma {:induction false} PreOrderAllMeasures(vs: seq<Value>, depth: nat, limit: int)
    requires depth > 0
    ensures DepthsWithin(PreOrderAll(vs, depth), limit) <==> vs == [] || depth - 1 + HeightAll(vs) <= limit
    ensures NodeNumbersAdmissible(PreOrderAll(vs, depth)) <==> forall i :: 0 <= i < |vs| ==> NumbersAdmissible(vs[i])
    decreases vs, 0
  {
    hide Admissible;
    if vs != [] {
      PreOrderMeasures(vs[0], depth, limit);
      PreOrderAllMeasures(vs[1..], depth, limit);
      MeasuresAppend(PreOrder(vs[0], depth), PreOrderAll(vs[1..], depth), limit);
      assert vs == [vs[0]] + vs[1..];
    }
  }

  lemma {:induction false} NoOffenceIff(nodes: seq<Node>, from: nat)
    requires from <= |nodes|
    ensures FirstOffence(nodes, from).None? <==> forall i :: from <= i < |nodes| ==> Offence(nodes[i], i).None?
    decreases |nodes| - from
  {
    if from < |nodes| {
      NoOffenceIff(nodes, from + 1);
    }
  }

  predicate CleanBefore(nodes: seq<Node>, from: nat, end: nat)
    requires end <= |nodes|
  {
    forall j :: from <= j < end ==> Offence(nodes[j], j).None?
  }

  /** The first offence in pre-order is the one reported. */
  lemma {:induction false} ReportedOffenceIsFirst(nodes: seq<Node>, from: nat)
    requires from <= |nodes|
    ensures var r := FirstOffence(nodes, from);
      r.Some? ==> exists i :: from <= i < |nodes| && Offence(nodes[i], i) == r && CleanBefore(nodes, from, i)
    decreases |nodes| - from
  {
    if from < |nodes| {
      ReportedOffenceIsFirst(nodes, from + 1);
    }
  }

  lemma CleanIff(nodes: seq<Node>)
    ensures CleanBefore(nodes, 0, |nodes|) <==>
      |nodes| <= MAX_JSON_NODES && DepthsWithin(nodes, MAX_JSON_DEPTH) && NodeNumbersAdmissible(nodes)
  {
    hide Admissible;
    if CleanBefore(nodes, 0, |nodes|) {
      assert nodes != [] ==> Offence(nodes[|nodes| - 1], |nodes| - 1).None?;
      forall n | n in nodes ensures n.depth <= MAX_JSON_DEPTH && (n.value.Num? ==> Admissible(n.value.number)) {
        var i :| 0 <= i < |nodes| && nodes[i] == n;
        assert Offence(nodes[i], i).None?;
      }
    } else {
      var i :| 0 <= i < |nodes| && Offence(nodes[i], i).Some?;
      assert nodes[i] in nodes;
    }
  }

  /** Admission succeeds exactly when the node count, the depth and every number are admissible. */
  lemma AdmittedIff(l: Layout, v: Value)
    requires GoodLayout(l)
    ensures Inspect(l, v).Ok? <==>
      NodeCount(v) <= MAX_JSON_NODES && Height(v) <= MAX_JSON_DEPTH && NumbersAdmissible(v)
  {
    hide Admissible;
    var nodes := PreOrder(v, 0);
    PreOrderLength(v, 0);
    PreOrderMeasures(v, 0, MAX_JSON_DEPTH);
    NoOffenceIff(nodes, 0);
    CleanIff(nodes);
  }
}
