/**
  JavaScript-style equality of JSON values and number normalisation
  (src/json_value.rs:36-72, 456-486, 629-655), against what the values mean.
*/
module JsonEquality {
  import opened Wrappers
  import opened Text
  import opened ResidentCharge
  import opened Json

  predicate DistinctKeys(keys: seq<Key>) {
    forall i, j :: 0 <= i < j < |keys| ==> keys[i].text != keys[j].text
  }

  /** Every object is a map: one value a key. */
  predicate WellFormed(v: Value)
    decreases v
  {
    match v
    case Array(items, _) => forall i :: 0 <= i < |items| ==> WellFormed(items[i])
    case Object(keys, values) =>
      |keys| == |values| && DistinctKeys(keys) && forall i :: 0 <= i < |values| ==> WellFormed(values[i])
    case _ => true
  }

  function Find(keys: seq<Key>, text: string): (r: Option<nat>)
    ensures r.Some? ==> r.value < |keys| && keys[r.value].text == text
    ensures r.None? ==> forall i :: 0 <= i < |keys| ==> keys[i].text != text
  {
    if keys == [] then None
    else if keys[|keys| - 1].text == text then Some(|keys| - 1)
    else Find(keys[..|keys| - 1], text)
  }

  predicate EqualAt(left: Value, right: Value, depth: nat)
    requires WellFormed(left) && WellFormed(right)
    decreases left
  {
    depth <= MAX_JSON_DEPTH &&
    match (left, right)
    case (Null, Null) => true
    case (Bool(a), Bool(b)) => a == b
    case (Str(a, _), Str(b, _)) => a == b
    case (Num(a), Num(b)) => AsReal(a) == AsReal(b)
    case (Array(a, _), Array(b, _)) =>
      |a| == |b| && forall i :: 0 <= i < |a| ==> EqualAt(a[i], b[i], depth + 1)
    case (Object(aKeys, a), Object(bKeys, b)) =>
      |aKeys| == |bKeys| && forall i :: 0 <= i < |a| ==>
        var at := Find(bKeys, aKeys[i].text);
        at.Some? && EqualAt(a[i], b[at.value], depth + 1)
    case _ => false
  }

  function Texts(keys: seq<Key>): set<string> {
    set i | 0 <= i < |keys| :: keys[i].text
  }

  // ----- what a value means to JavaScript -----

  datatype Meaning =
    | MeansNull
    | MeansBool(b: bool)
    | MeansNumber(r: Option<real>)
    | MeansText(text: string)
    | MeansList(items: seq<Meaning>)
    | MeansMap(fields: map<string, Meaning>)

  function Meant(v: Value): Meaning
    requires WellFormed(v)
    decreases v
  {
    match v
    case Null => MeansNull
    case Bool(b) => MeansBool(b)
    case Num(number) => MeansNumber(AsReal(number))
    case Str(text, _) => MeansText(text)
    case Array(items, _) => MeansList(seq(|items|, i requires 0 <= i < |items| => Meant(items[i])))
    case Object(keys, values) => MeansMap(map text | text in Texts(keys) :: Meant(values[Find(keys, text).value]))
  }

  lemma {:induction false} TextsCount(keys: seq<Key>)
    requires DistinctKeys(keys)
    ensures |Texts(keys)| == |keys|
  {
    if keys == [] {
      assert Texts(keys) == {};
    } else {
      var front, last := keys[..|keys| - 1], keys[|keys| - 1];
      TextsCount(front);
      assert Texts(keys) == Texts(front) + {last.text};
      assert last.text !in Texts(front);
    }
  }

  lemma SubsetOfSameSize(a: set<string>, b: set<string>)
    requires a <= b && |a| == |b|
    ensures a == b
  {
    assert b == a + (b - a);
    assert |b| == |a| + |b - a|;
  }

  /** One-way inclusion between key lists of one size is equality of the key sets. */
  lemma KeySetsAgree(a: seq<Key>, b: seq<Key>)
    requires DistinctKeys(a) && DistinctKeys(b) && |a| == |b|
    requires Texts(a) <= Texts(b)
    ensures Texts(a) == Texts(b)
  {
    TextsCount(a);
    TextsCount(b);
    SubsetOfSameSize(Texts(a), Texts(b));
  }

  lemma DeeperThanChild(vs: seq<Value>, i: nat)
    requires i < |vs|
    ensures Height(vs[i]) + 1 <= HeightAll(vs)
  {
    if i > 0 {
      DeeperThanChild(vs[1..], i - 1);
    }
  }

  lemma {:induction false} HeightAllBound(vs: seq<Value>, limit: nat)
    requires forall i :: 0 <= i < |vs| ==> Height(vs[i]) + 1 <= limit
    ensures HeightAll(vs) <= limit
  {
    if vs != [] {
      HeightAllBound(vs[1..], limit);
    }
  }

  lemma ObjectMeaning(v: Value)
    requires v.Object? && WellFormed(v)
    ensures Meant(v).MeansMap? && Meant(v).fields.Keys == Texts(v.keys)
    ensures forall i :: 0 <= i < |v.keys| ==> Meant(v).fields[v.keys[i].text] == Meant(v.values[i])
  {
    forall i | 0 <= i < |v.keys| ensures Find(v.keys, v.keys[i].text) == Some(i) {
      assert Find(v.keys, v.keys[i].text).Some?;
    }
  }

  /**
    Within the depth limit, equality is exactly sameness of meaning; past it,
    it is never true. This makes it an equivalence on every admitted value.
  */
  lemma {:induction false} EqualIffSameMeaning(left: Value, right: Value, depth: nat)
    requires WellFormed(left) && WellFormed(right)
    ensures EqualAt(left, right, depth) <==> Meant(left) == Meant(right) && depth + Height(left) <= MAX_JSON_DEPTH
    decreases left
  {
    match (left, right)
    case (Array(a, _), Array(b, _)) => EqualArrays(left, right, depth);
    case (Object(_, _), Object(_, _)) => EqualObjects(left, right, depth);
    case _ =>
  }

  lemma {:induction false} EqualArrays(left: Value, right: Value, depth: nat)
    requires left.Array? && right.Array? && WellFormed(left) && WellFormed(right)
    ensures EqualAt(left, right, depth) <==> Meant(left) == Meant(right) && depth + Height(left) <= MAX_JSON_DEPTH
    decreases left, 0
  {
    hide EqualAt, Meant, Height;
    forall i | 0 <= i < |left.items| && i < |right.items|
      ensures EqualAt(left.items[i], right.items[i], depth + 1) <==>
        (Meant(left.items[i]) == Meant(right.items[i]) && depth + 1 + Height(left.items[i]) <= MAX_JSON_DEPTH)
    {
      EqualIffSameMeaning(left.items[i], right.items[i], depth + 1);
    }
    if EqualAt(left, right, depth) {
      EqualArraysMeanTheSame(left, right, depth);
    } else if Meant(left) == Meant(right) && depth + Height(left) <= MAX_JSON_DEPTH {
      SameMeaningArraysAreEqual(left, right, depth);
      assert false;
    }
  }

  ghost predicate ItemsAgree(left: Value, right: Value, depth: nat)
    requires left.Array? && right.Array? && WellFormed(left) && WellFormed(right)
  {
    forall i :: 0 <= i < |left.items| && i < |right.items| ==>
      (EqualAt(left.items[i], right.items[i], depth + 1) <==>
        (Meant(left.items[i]) == Meant(right.items[i]) && depth + 1 + Height(left.items[i]) <= MAX_JSON_DEPTH))
  }

  lemma EqualArraysMeanTheSame(left: Value, right: Value, depth: nat)
    requires left.Array? && right.Array? && WellFormed(left) && WellFormed(right)
    requires ItemsAgree(left, right, depth) && EqualAt(left, right, depth)
    ensures Meant(left) == Meant(right) && depth + Height(left) <= MAX_JSON_DEPTH
  {
    HeightAllBound(left.items, MAX_JSON_DEPTH - depth);
    assert Meant(left).items == Meant(right).items;
  }

  lemma SameMeaningArraysAreEqual(left: Value, right: Value, depth: nat)
    requires left.Array? && right.Array? && WellFormed(left) && WellFormed(right)
    requires ItemsAgree(left, right, depth)
    requires Meant(left) == Meant(right) && depth + Height(left) <= MAX_JSON_DEPTH
    ensures EqualAt(left, right, depth)
  {
    forall i | 0 <= i < |left.items| ensures EqualAt(left.items[i], right.items[i], depth + 1) {
      assert Meant(left).items[i] == Meant(right).items[i];
      DeeperThanChild(left.items, i);
    }
  }

  lemma {:induction false} SameFields(left: Value, right: Value)
    requires left.Object? && right.Object? && WellFormed(left) && WellFormed(right)
    requires Texts(left.keys) == Texts(right.keys)
    requires forall i, j :: 0 <= i < |left.keys| && 0 <= j < |right.keys| && left.keys[i].text == right.keys[j].text ==> Meant(left.values[i]) == Meant(right.values[j])
    ensures Meant(left) == Meant(right)
  {
    hide Meant;
    ObjectMeaning(left);
    ObjectMeaning(right);
    var a, b := Meant(left).fields, Meant(right).fields;
    forall text | text in a ensures text in b && a[text] == b[text] {
      var i :| 0 <= i < |left.keys| && left.keys[i].text == text;
      assert text in Texts(right.keys);
      var j :| 0 <= j < |right.keys| && right.keys[j].text == text;
    }
    assert a == b;
  }

  lemma {:induction false} EqualObjects(left: Value, right: Value, depth: nat)
    requires left.Object? && right.Object? && WellFormed(left) && WellFormed(right)
    ensures EqualAt(left, right, depth) <==> Meant(left) == Meant(right) && depth + Height(left) <= MAX_JSON_DEPTH
    decreases left, 0
  {
    hide EqualAt, Meant, Height;
    forall i, j | 0 <= i < |left.values| && 0 <= j < |right.values|
      ensures EqualAt(left.values[i], right.values[j], depth + 1) <==>
        (Meant(left.values[i]) == Meant(right.values[j]) && depth + 1 + Height(left.values[i]) <= MAX_JSON_DEPTH)
    {
      EqualIffSameMeaning(left.values[i], right.values[j], depth + 1);
    }
    if EqualAt(left, right, depth) {
      EqualObjectsMeanTheSame(left, right, depth);
    } else if Meant(left) == Meant(right) && depth + Height(left) <= MAX_JSON_DEPTH {
      SameMeaningObjectsAreEqual(left, right, depth);
      assert false;
    }
  }

  ghost predicate ChildrenAgree(left: Value, right: Value, depth: nat)
    requires left.Object? && right.Object? && WellFormed(left) && WellFormed(right)
  {
    forall i, j :: 0 <= i < |left.values| && 0 <= j < |right.values| ==>
      (EqualAt(left.values[i], right.values[j], depth + 1) <==>
        (Meant(left.values[i]) == Meant(right.values[j]) && depth + 1 + Height(left.values[i]) <= MAX_JSON_DEPTH))
  }

  lemma EqualObjectsMeanTheSame(left: Value, right: Value, depth: nat)
    requires left.Object? && right.Object? && WellFormed(left) && WellFormed(right)
    requires ChildrenAgree(left, right, depth) && EqualAt(left, right, depth)
    ensures Meant(left) == Meant(right) && depth + Height(left) <= MAX_JSON_DEPTH
  {
    var a, b := left.values, right.values;
    var at := seq(|a|, i requires 0 <= i < |a| => Find(right.keys, left.keys[i].text));
    assert forall i :: 0 <= i < |a| ==> at[i].Some? && EqualAt(a[i], b[at[i].value], depth + 1);
    assert depth <= MAX_JSON_DEPTH && |a| == |b|;
    hide EqualAt, Meant, Height, Find;
    forall i | 0 <= i < |a|
      ensures Height(a[i]) + 1 <= MAX_JSON_DEPTH - depth
      ensures right.keys[at[i].value].text == left.keys[i].text && Meant(a[i]) == Meant(b[at[i].value])
    {
    }
    HeightAllBound(a, MAX_JSON_DEPTH - depth);
    assert Texts(left.keys) <= Texts(right.keys);
    KeySetsAgree(left.keys, right.keys);
    forall i, j | 0 <= i < |a| && 0 <= j < |b| && left.keys[i].text == right.keys[j].text
      ensures Meant(a[i]) == Meant(b[j])
    {
      assert j == at[i].value;
    }
    SameFields(left, right);
  }

  /** Every key of the left is found on the right, with a value that means the same and fits the depth. */
  lemma SameMeaningMatches(left: Value, right: Value, depth: nat)
    requires left.Object? && right.Object? && WellFormed(left) && WellFormed(right)
    requires Meant(left) == Meant(right) && depth + Height(left) <= MAX_JSON_DEPTH
    ensures |left.keys| == |right.keys|
    ensures forall i :: 0 <= i < |left.keys| ==>
      var at := Find(right.keys, left.keys[i].text);
      && at.Some? && Meant(left.values[i]) == Meant(right.values[at.value])
      && depth + 1 + Height(left.values[i]) <= MAX_JSON_DEPTH
  {
    assert Height(left) == HeightAll(left.values);
    hide Meant, Height, HeightAll, Find;
    ObjectMeaning(left);
    ObjectMeaning(right);
    TextsCount(left.keys);
    TextsCount(right.keys);
    forall i | 0 <= i < |left.keys|
      ensures Find(right.keys, left.keys[i].text).Some?
      ensures depth + 1 + Height(left.values[i]) <= MAX_JSON_DEPTH
    {
      assert left.keys[i].text in Texts(right.keys);
      DeeperThanChild(left.values, i);
    }
  }

  lemma SameMeaningObjectsAreEqual(left: Value, right: Value, depth: nat)
    requires left.Object? && right.Object? && WellFormed(left) && WellFormed(right)
    requires ChildrenAgree(left, right, depth)
    requires Meant(left) == Meant(right) && depth + Height(left) <= MAX_JSON_DEPTH
    ensures EqualAt(left, right, depth)
  {
    SameMeaningMatches(left, right, depth);
    hide Meant, Find;
  }

  lemma {:induction false} HeightFollowsMeaning(a: Value, b: Value)
    requires WellFormed(a) && WellFormed(b) && Meant(a) == Meant(b)
    ensures Height(a) <= Height(b)
    decreases a
  {
    match (a, b)
    case (Array(xs, _), Array(ys, _)) =>
      forall i | 0 <= i < |xs| ensures Height(xs[i]) + 1 <= HeightAll(ys) {
        assert Meant(a).items[i] == Meant(b).items[i];
        HeightFollowsMeaning(xs[i], ys[i]);
        DeeperThanChild(ys, i);
      }
      HeightAllBound(xs, HeightAll(ys));
    case (Object(aKeys, xs), Object(bKeys, ys)) =>
      ObjectMeaning(a);
      ObjectMeaning(b);
      forall i | 0 <= i < |xs| ensures Height(xs[i]) + 1 <= HeightAll(ys) {
        assert aKeys[i].text in Texts(bKeys);
        var j :| 0 <= j < |bKeys| && bKeys[j].text == aKeys[i].text;
        HeightFollowsMeaning(xs[i], ys[j]);
        DeeperThanChild(ys, j);
      }
      HeightAllBound(xs, HeightAll(ys));
    case _ =>
  }

  /** Reflexive exactly within the depth limit, and always symmetric and transitive. */
  lemma EqualityIsAnEquivalence(a: Value, b: Value, c: Value, depth: nat)
    requires WellFormed(a) && WellFormed(b) && WellFormed(c)
    ensures EqualAt(a, a, depth) <==> depth + Height(a) <= MAX_JSON_DEPTH
    ensures EqualAt(a, b, depth) <==> EqualAt(b, a, depth)
    ensures EqualAt(a, b, depth) && EqualAt(b, c, depth) ==> EqualAt(a, c, depth)
  {
    hide EqualAt, Meant;
    EqualIffSameMeaning(a, a, depth);
    EqualIffSameMeaning(a, b, depth);
    EqualIffSameMeaning(b, a, depth);
    EqualIffSameMeaning(b, c, depth);
    EqualIffSameMeaning(a, c, depth);
    if Meant(a) == Meant(b) {
      HeightFollowsMeaning(a, b);
      HeightFollowsMeaning(b, a);
    }
  }

  // ----- normalisation -----

  function NormalNumber(n: Number): Number {
    match AsReal(n)
    case None => n
    case Some(r) =>
      if IsIntegral(r) && Abs(r) <= MAX_SAFE_INTEGER as real
      then if r >= 0.0 then PosInt(r.Floor) else NegInt(r.Floor)
      else n
  }

  function Normalize(v: Value): Value
    decreases v, 1
  {
    match v
    case Num(number) => Num(NormalNumber(number))
    case Array(items, capacity) => Array(NormalizeAll(items), capacity)
    case Object(keys, values) => Object(keys, NormalizeAll(values))
    case _ => v
  }

  function NormalizeAll(vs: seq<Value>): (r: seq<Value>)
    ensures |r| == |vs| && forall i :: 0 <= i < |vs| ==> r[i] == Normalize(vs[i])
    decreases vs, 0
  {
    if vs == [] then [] else [Normalize(vs[0])] + NormalizeAll(vs[1..])
  }

  lemma NormalNumberFacts(n: Number)
    ensures NormalNumber(NormalNumber(n)) == NormalNumber(n)
    ensures AsReal(NormalNumber(n)) == AsReal(n)
    ensures Admissible(n) ==> Admissible(NormalNumber(n))
  {
  }

  /** Among admissible numbers the normal form is canonical: one number for each integral value. */
  lemma NormalNumberIsCanonical(m: Number, n: Number)
    requires Admissible(m) && Admissible(n)
    ensures AsReal(m) == AsReal(n) <==> NormalNumber(m) == NormalNumber(n)
  {
    NormalNumberFacts(m);
    NormalNumberFacts(n);
  }

  /** The integer a number was written as, where it was written as one. */
  function Written(n: Number): Option<int> {
    match n
    case PosInt(k) => Some(k)
    case NegInt(k) => Some(k)
    case _ => None
  }

  /**
    Comparison as doubles confuses integers only outside the admitted range: 2^53 and 2^53 + 1
    compare equal, while integers that are admitted compare equal exactly when they are the same.
  */
  lemma EqualIntegersAreSameIffAdmitted(m: Number, n: Number)
    requires Written(m).Some? && Written(n).Some?
    ensures Admissible(m) && Admissible(n) ==> (AsReal(m) == AsReal(n) <==> Written(m) == Written(n))
    ensures Admissible(m) <==> -(MAX_SAFE_INTEGER as int) <= Written(m).value <= MAX_SAFE_INTEGER
    ensures AsReal(PosInt(EXACT_INTEGERS)) == AsReal(PosInt(EXACT_INTEGERS + 1))
  {
    var exact := EXACT_INTEGERS;
    assert Spacing(exact + 1) == 2 * Spacing((exact + 1) / 2);
    assert (exact + 1) / 2 == HALF_EXACT && (exact + 1) % 2 == 1;
  }

  lemma {:induction false} NormalizeIsIdempotent(v: Value)
    ensures Normalize(Normalize(v)) == Normalize(v)
    decreases v, 1
  {
    match v
    case Num(number) => NormalNumberFacts(number);
    case Array(items, _) => NormalizeAllIsIdempotent(v, items);
    case Object(_, values) => NormalizeAllIsIdempotent(v, values);
    case _ =>
  }

  lemma {:induction false} NormalizeAllIsIdempotent(v: Value, vs: seq<Value>)
    requires forall i :: 0 <= i < |vs| ==> vs[i] < v
    ensures NormalizeAll(NormalizeAll(vs)) == NormalizeAll(vs)
    decreases v, 0
  {
    forall i | 0 <= i < |vs| ensures Normalize(Normalize(vs[i])) == Normalize(vs[i]) {
      NormalizeIsIdempotent(vs[i]);
    }
  }

  lemma {:induction false} NormalizeKeepsMeaning(v: Value)
    requires WellFormed(v)
    ensures WellFormed(Normalize(v)) && Meant(Normalize(v)) == Meant(v)
    decreases v
  {
    var children := Children(v);
    forall i | 0 <= i < |children|
      ensures WellFormed(Normalize(children[i])) && Meant(Normalize(children[i])) == Meant(children[i])
    {
      NormalizeKeepsMeaning(children[i]);
    }
    hide NormalNumber;
    match v
    case Num(number) => NormalNumberFacts(number);
    case Array(_, _) => assert Meant(Normalize(v)).items == Meant(v).items;
    case Object(_, _) => SameFields(Normalize(v), v);
    case _ =>
  }

  predicate NormalizedNodes(before: seq<Node>, after: seq<Node>) {
    |before| == |after| && forall i :: 0 <= i < |before| ==> after[i] == Node(Normalize(before[i].value), before[i].depth)
  }

  lemma {:induction false} PreOrderNormalizes(v: Value, depth: nat)
    ensures NormalizedNodes(PreOrder(v, depth), PreOrder(Normalize(v), depth))
    decreases v, 1
  {
    PreOrderUnfolds(v, depth);
    PreOrderUnfolds(Normalize(v), depth);
    PreOrderAllNormalizes(v, Children(v), depth + 1);
    assert Children(Normalize(v)) == NormalizeAll(Children(v));
  }

  lemma {:induction false} PreOrderAllNormalizes(v: Value, vs: seq<Value>, depth: nat)
    requires forall i :: 0 <= i < |vs| ==> vs[i] < v
    ensures NormalizedNodes(PreOrderAll(vs, depth), PreOrderAll(NormalizeAll(vs), depth))
    decreases v, 0, |vs|
  {
    if vs != [] {
      PreOrderNormalizes(vs[0], depth);
      PreOrderAllNormalizes(v, vs[1..], depth);
      assert NormalizeAll(vs)[1..] == NormalizeAll(vs[1..]);
    }
  }

  lemma {:induction false} NormalizedNodesCharge(l: Layout, before: seq<Node>, after: seq<Node>)
    requires GoodLayout(l) && NormalizedNodes(before, after)
    ensures TotalCharge(l, after) == TotalCharge(l, before)
    decreases |before|
  {
    if before != [] {
      NormalizedNodesCharge(l, before[..|before| - 1], after[..|after| - 1]);
    }
  }

  lemma {:induction false} NormalizedNodesAdmissible(before: seq<Node>, after: seq<Node>)
    requires NormalizedNodes(before, after) && NodeNumbersAdmissible(before)
    ensures NodeNumbersAdmissible(after)
  {
    hide Admissible, NormalNumber;
    forall n | n in after && n.value.Num? ensures Admissible(n.value.number) {
      var i :| 0 <= i < |after| && after[i] == n;
      assert before[i] in before;
      NormalNumberFacts(before[i].value.number);
    }
  }

  /**
    Normalising an admitted value yields an equal one, leaves its node count and
    depth alone, and leaves the charge computed before it exact.
  */
  lemma NormalizeKeepsAdmission(l: Layout, v: Value)
    requires GoodLayout(l) && WellFormed(v) && Inspect(l, v).Ok?
    ensures Inspect(l, Normalize(v)) == Inspect(l, v)
    ensures NodeCount(Normalize(v)) == NodeCount(v) && Height(Normalize(v)) == Height(v)
    ensures WellFormed(Normalize(v)) && EqualAt(v, Normalize(v), 0)
  {
    hide Admissible, NormalNumber, NodeCharge;
    var before, after := PreOrder(v, 0), PreOrder(Normalize(v), 0);
    PreOrderNormalizes(v, 0);
    PreOrderLength(v, 0);
    PreOrderLength(Normalize(v), 0);
    NormalizeKeepsMeaning(v);
    HeightFollowsMeaning(v, Normalize(v));
    HeightFollowsMeaning(Normalize(v), v);
    AdmittedIff(l, v);
    EqualIffSameMeaning(v, Normalize(v), 0);
    PreOrderMeasures(v, 0, 0);
    PreOrderMeasures(Normalize(v), 0, 0);
    NormalizedNodesAdmissible(before, after);
    AdmittedIff(l, Normalize(v));
    NormalizedNodesCharge(l, before, after);
  }

  lemma IntegerAdmittedIff(i: int)
    ensures -0x1F_FFFF_FFFF_FFFF <= RoundedInteger(i) <= 0x1F_FFFF_FFFF_FFFF <==> -0x1F_FFFF_FFFF_FFFF <= i <= 0x1F_FFFF_FFFF_FFFF
  {
  }

  /** An integer is admitted up to 2^53 - 1 either way, a fraction always, and never negative zero or what is not finite. */
  lemma AdmissibleIff(n: Number)
    ensures Admissible(n) <==>
      match n
      case PosInt(k) => k <= 0x1F_FFFF_FFFF_FFFF
      case NegInt(k) => -0x1F_FFFF_FFFF_FFFF <= k <= 0x1F_FFFF_FFFF_FFFF
      case Float(r) => r.Floor as real == r ==> -9007199254740991.0 <= r <= 9007199254740991.0
      case NegativeZero => false
      case NotFinite => false
  {
    if n.PosInt? {
      IntegerAdmittedIff(n.n);
      assert RoundedInteger(n.n) == Rounded(n.n);
      assert IsIntegral(Rounded(n.n) as real);
    } else if n.NegInt? {
      IntegerAdmittedIff(n.i);
      assert IsIntegral(RoundedInteger(n.i) as real);
    }
    hide Rounded, RoundedInteger;
  }
}
