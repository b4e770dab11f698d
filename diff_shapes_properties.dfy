/** What src/diff-shapes.ts promises, and its known quirks, proved about the model. */
module DiffShapesProperties {
  import opened Wrappers
  import opened JsValues
  import opened DiffShapes

  // ===========================================================================
  // deepCompareShapes on arrays
  // ===========================================================================

  lemma {:induction false} ComparePositionsSpec(xs: seq<Value>, ys: seq<Value>, bound: nat)
    requires |xs| == |ys|
    requires forall i :: 0 <= i < |xs| ==> Size(xs[i]) + Size(ys[i]) < bound
    ensures ComparePositions(xs, ys, bound) == Ok(true)
            <==> forall i :: 0 <= i < |xs| ==> DeepCompareShapes(xs[i], ys[i]) == Ok(true)
    ensures ComparePositions(xs, ys, bound).Err?
            <==> exists i :: 0 <= i < |xs| && DeepCompareShapes(xs[i], ys[i]).Err?
  {
    if xs != [] {
      ComparePositionsSpec(xs[1..], ys[1..], bound);
      AllTrueSplit(xs, ys);
      SomeErrSplit(xs, ys);
    }
  }

  /** Every position compares true iff the first does and every later one does. */
  lemma AllTrueSplit(xs: seq<Value>, ys: seq<Value>)
    requires |xs| == |ys| > 0
    ensures (forall i :: 0 <= i < |xs| ==> DeepCompareShapes(xs[i], ys[i]) == Ok(true))
            <==> DeepCompareShapes(xs[0], ys[0]) == Ok(true)
                 && forall i :: 0 <= i < |xs[1..]| ==> DeepCompareShapes(xs[1..][i], ys[1..][i]) == Ok(true)
  {
    assert forall i :: 1 <= i < |xs| ==> xs[1..][i - 1] == xs[i] && ys[1..][i - 1] == ys[i];
  }

  /** Some position throws iff the first does or some later one does. */
  lemma SomeErrSplit(xs: seq<Value>, ys: seq<Value>)
    requires |xs| == |ys| > 0
    ensures (exists i :: 0 <= i < |xs| && DeepCompareShapes(xs[i], ys[i]).Err?)
            <==> DeepCompareShapes(xs[0], ys[0]).Err?
                 || exists i :: 0 <= i < |xs[1..]| && DeepCompareShapes(xs[1..][i], ys[1..][i]).Err?
  {
    if exists i :: 0 <= i < |xs| && DeepCompareShapes(xs[i], ys[i]).Err? {
      var i :| 0 <= i < |xs| && DeepCompareShapes(xs[i], ys[i]).Err?;
      if i > 0 {
        assert DeepCompareShapes(xs[1..][i - 1], ys[1..][i - 1]).Err?;
      }
    }
    if exists i :: 0 <= i < |xs[1..]| && DeepCompareShapes(xs[1..][i], ys[1..][i]).Err? {
      var i :| 0 <= i < |xs[1..]| && DeepCompareShapes(xs[1..][i], ys[1..][i]).Err?;
      assert DeepCompareShapes(xs[i + 1], ys[i + 1]).Err?;
    }
  }

  /** Arrays of equal length are equal exactly when they are equal position by position. */
  lemma CompareEqualLengthArrays(xs: seq<Value>, ys: seq<Value>)
    requires |xs| == |ys|
    ensures DeepCompareShapes(Arr(xs), Arr(ys)) == Ok(true)
            <==> forall i :: 0 <= i < |xs| ==> DeepCompareShapes(xs[i], ys[i]) == Ok(true)
    ensures DeepCompareShapes(Arr(xs), Arr(ys)).Err?
            <==> exists i :: 0 <= i < |xs| && DeepCompareShapes(xs[i], ys[i]).Err?
  {
    AllElementsSmaller(xs);
    AllElementsSmaller(ys);
    var bound := PairSize(Arr(xs), Arr(ys));
    assert DeepCompareShapes(Arr(xs), Arr(ys)) == CompareArrays(xs, ys, bound);
    ComparePositionsSpec(xs, ys, bound);
  }

  lemma {:induction false} CompareRowSpec(x: Value, inner: seq<Value>, bound: nat)
    requires forall y :: y in inner ==> Size(x) + Size(y) < bound
    ensures CompareRow(x, inner, bound) == Ok(true)
            <==> forall y :: y in inner ==> DeepCompareShapes(x, y) == Ok(true)
  {
    if inner != [] {
      assert inner[0] in inner;
      CompareRowSpec(x, inner[1..], bound);
      assert forall y :: y in inner <==> y == inner[0] || y in inner[1..];
      if DeepCompareShapes(x, inner[0]) == Ok(true) {
        assert CompareRow(x, inner, bound) == CompareRow(x, inner[1..], bound);
      }
    }
  }

  lemma {:induction false} CompareAllPairsSpec(outer: seq<Value>, inner: seq<Value>, bound: nat)
    requires forall x, y :: x in outer && y in inner ==> Size(x) + Size(y) < bound
    ensures CompareAllPairs(outer, inner, bound) == Ok(true) <==> AllPairsMatch(outer, inner)
  {
    if outer != [] {
      CompareRowSpec(outer[0], inner, bound);
      CompareAllPairsSpec(outer[1..], inner, bound);
      assert forall x :: x in outer <==> x == outer[0] || x in outer[1..];
    }
  }

  /** Every member of `outer` matches every member of `inner`. */
  predicate AllPairsMatch(outer: seq<Value>, inner: seq<Value>) {
    forall x, y :: x in outer && y in inner ==> DeepCompareShapes(x, y) == Ok(true)
  }

  lemma AllPairsMatchSorted(outer: seq<Value>, inner: seq<Value>)
    ensures AllPairsMatch(SortByString(outer), SortByString(inner)) == AllPairsMatch(outer, inner)
  {
    forall x ensures x in SortByString(outer) <==> x in outer {
      SortByStringMembers(outer, x);
    }
    forall y ensures y in SortByString(inner) <==> y in inner {
      SortByStringMembers(inner, y);
    }
  }

  lemma CompareArraysUnequal(xs: seq<Value>, ys: seq<Value>, bound: nat)
    requires |xs| != |ys|
    requires forall x, y :: x in xs && y in ys ==> Size(x) + Size(y) < bound
    ensures CompareArrays(xs, ys, bound) == Ok(true) <==> AllPairsMatch(Outer(xs, ys), Inner(xs, ys))
  {
    var outer, inner := Outer(xs, ys), Inner(xs, ys);
    assert forall x :: x in SortByString(outer) ==> x in multiset(outer);
    assert forall y :: y in SortByString(inner) ==> y in multiset(inner);
    CompareAllPairsSpec(SortByString(outer), SortByString(inner), bound);
    AllPairsMatchSorted(outer, inner);
  }

  /**
   * Arrays of different lengths: each is reduced to a set, and the result is
   * true exactly when every member of the larger set matches every member of
   * the smaller one (the first array's set counts as the larger on a tie).
   */
  lemma CompareUnequalLengthArrays(xs: seq<Value>, ys: seq<Value>)
    requires |xs| != |ys|
    ensures DeepCompareShapes(Arr(xs), Arr(ys)) == Ok(true) <==> AllPairsMatch(Outer(xs, ys), Inner(xs, ys))
  {
    AllElementsSmaller(xs);
    AllElementsSmaller(ys);
    CompareArraysUnfold(xs, ys);
    CompareArraysUnequal(xs, ys, PairSize(Arr(xs), Arr(ys)));
  }

  /** Two arrays are compared by CompareArrays. */
  lemma CompareArraysUnfold(xs: seq<Value>, ys: seq<Value>)
    requires forall x, y :: x in xs && y in ys ==> Size(x) + Size(y) < PairSize(Arr(xs), Arr(ys))
    ensures DeepCompareShapes(Arr(xs), Arr(ys)) == CompareArrays(xs, ys, PairSize(Arr(xs), Arr(ys)))
  {
  }

  /** The quirk of the set comparison: an empty array matches every array of another length. */
  lemma EmptyArrayMatchesAnyArray(xs: seq<Value>)
    requires xs != []
    ensures DeepCompareShapes(Arr([]), Arr(xs)) == Ok(true)
    ensures DeepCompareShapes(Arr(xs), Arr([])) == Ok(true)
  {
    CompareUnequalLengthArrays([], xs);
    CompareUnequalLengthArrays(xs, []);
  }

  // ===========================================================================
  // deepCompareShapes on objects
  // ===========================================================================

  /**
   * A field of the first object that lets the key loop go on: its key is in
   * the second object and both values are non-objects of one type.
   */
  predicate FieldAgrees(f: Field, fs2: seq<Field>) {
    Lookup(fs2, f.key).Some? && TypeOf(f.value) != Object && TypeOf(f.value) == TypeOf(Lookup(fs2, f.key).value)
  }

  /** Both values of the field are objects (or arrays, or null) under `typeof`. */
  predicate BothObjects(f: Field, fs2: seq<Field>) {
    Lookup(fs2, f.key).Some? && TypeOf(f.value) == Object && TypeOf(Lookup(fs2, f.key).value) == Object
  }

  lemma {:induction false} CompareFieldsFirstDisagreement(fs1: seq<Field>, fs2: seq<Field>, bound: nat, i: nat)
    requires forall f, g :: f in fs1 && g in fs2 && TypeOf(f.value) == Object && TypeOf(g.value) == Object
                            ==> Size(f.value) + Size(g.value) < bound
    requires i < |fs1| && !FieldAgrees(fs1[i], fs2)
    requires forall j :: 0 <= j < i ==> FieldAgrees(fs1[j], fs2)
    ensures BothObjects(fs1[i], fs2) ==>
              CompareFields(fs1, fs2, bound) == DeepCompareShapes(fs1[i].value, Lookup(fs2, fs1[i].key).value)
    ensures !BothObjects(fs1[i], fs2) ==> CompareFields(fs1, fs2, bound) == Ok(false)
  {
    if i == 0 {
      CompareFieldsDisagreeHead(fs1, fs2, bound);
    } else {
      var tail := fs1[1..];
      CompareFieldsAgreeStep(fs1, fs2, bound);
      assert forall j :: 0 <= j < i - 1 ==> tail[j] == fs1[j + 1];
      assert tail[i - 1] == fs1[i];
      CompareFieldsFirstDisagreement(tail, fs2, bound, i - 1);
    }
  }

  /** A first field that does not agree decides the comparison. */
  lemma CompareFieldsDisagreeHead(fs1: seq<Field>, fs2: seq<Field>, bound: nat)
    requires forall f, g :: f in fs1 && g in fs2 && TypeOf(f.value) == Object && TypeOf(g.value) == Object
                            ==> Size(f.value) + Size(g.value) < bound
    requires fs1 != [] && !FieldAgrees(fs1[0], fs2)
    ensures BothObjects(fs1[0], fs2) ==>
              CompareFields(fs1, fs2, bound) == DeepCompareShapes(fs1[0].value, Lookup(fs2, fs1[0].key).value)
    ensures !BothObjects(fs1[0], fs2) ==> CompareFields(fs1, fs2, bound) == Ok(false)
  {
  }

  /** A first field that agrees is passed over. */
  lemma CompareFieldsAgreeStep(fs1: seq<Field>, fs2: seq<Field>, bound: nat)
    requires forall f, g :: f in fs1 && g in fs2 && TypeOf(f.value) == Object && TypeOf(g.value) == Object
                            ==> Size(f.value) + Size(g.value) < bound
    requires fs1 != [] && FieldAgrees(fs1[0], fs2)
    ensures CompareFields(fs1, fs2, bound) == CompareFields(fs1[1..], fs2, bound)
  {
  }

  lemma {:induction false} CompareFieldsAllAgree(fs1: seq<Field>, fs2: seq<Field>, bound: nat)
    requires forall f, g :: f in fs1 && g in fs2 && TypeOf(f.value) == Object && TypeOf(g.value) == Object
                            ==> Size(f.value) + Size(g.value) < bound
    requires forall j :: 0 <= j < |fs1| ==> FieldAgrees(fs1[j], fs2)
    ensures CompareFields(fs1, fs2, bound) == Ok(true)
  {
    if fs1 != [] {
      assert FieldAgrees(fs1[0], fs2);
      assert forall j :: 0 <= j < |fs1| - 1 ==> fs1[1..][j] == fs1[j + 1];
      CompareFieldsAllAgree(fs1[1..], fs2, bound);
    }
  }

  /**
   * Two objects with the same number of keys: at the first key that does not
   * agree, an object pair decides the whole result by recursion (later keys
   * are not looked at) and anything else (a missing key, an object against a
   * non-object, two primitive types) gives false.
   */
  lemma CompareObjectsFirstDisagreement(fs1: seq<Field>, fs2: seq<Field>, i: nat)
    requires |fs1| == |fs2|
    requires i < |fs1| && !FieldAgrees(fs1[i], fs2)
    requires forall j :: 0 <= j < i ==> FieldAgrees(fs1[j], fs2)
    ensures BothObjects(fs1[i], fs2) ==>
              DeepCompareShapes(Obj(fs1), Obj(fs2)) == DeepCompareShapes(fs1[i].value, Lookup(fs2, fs1[i].key).value)
    ensures !BothObjects(fs1[i], fs2) ==> DeepCompareShapes(Obj(fs1), Obj(fs2)) == Ok(false)
  {
    EntriesSmaller(Obj(fs1));
    EntriesSmaller(Obj(fs2));
    var bound := PairSize(Obj(fs1), Obj(fs2));
    assert DeepCompareShapes(Obj(fs1), Obj(fs2)) == CompareFields(fs1, fs2, bound);
    CompareFieldsFirstDisagreement(fs1, fs2, bound, i);
  }

  /** Objects are equal when they have as many keys and every key agrees; a different key count gives false. */
  lemma CompareObjectsAgreeing(fs1: seq<Field>, fs2: seq<Field>)
    ensures |fs1| != |fs2| ==> DeepCompareShapes(Obj(fs1), Obj(fs2)) == Ok(false)
    ensures |fs1| == |fs2| && (forall j :: 0 <= j < |fs1| ==> FieldAgrees(fs1[j], fs2))
            ==> DeepCompareShapes(Obj(fs1), Obj(fs2)) == Ok(true)
  {
    EntriesSmaller(Obj(fs1));
    EntriesSmaller(Obj(fs2));
    var bound := PairSize(Obj(fs1), Obj(fs2));
    if |fs1| == |fs2| && (forall j :: 0 <= j < |fs1| ==> FieldAgrees(fs1[j], fs2)) {
      assert DeepCompareShapes(Obj(fs1), Obj(fs2)) == CompareFields(fs1, fs2, bound);
      CompareFieldsAllAgree(fs1, fs2, bound);
    }
  }

  /** `Object.keys` of a boolean or a number is empty, so only `{}` matches one. */
  lemma ObjectAgainstBooleanOrNumber(fs: seq<Field>, p: Value)
    requires p.Bool? || p.Num?
    ensures DeepCompareShapes(Obj(fs), p) == Ok(fs == [])
    ensures DeepCompareShapes(p, Obj(fs)) == Ok(fs == [])
  {
  }

  /** No key occurs twice in an object, at any depth: what JSON.parse produces. */
  predicate WellFormed(v: Value) {
    match v
    case Arr(xs) => forall x :: x in xs ==> WellFormed(x)
    case Obj(fs) =>
      (forall i, j :: 0 <= i < j < |fs| ==> fs[i].key != fs[j].key) &&
      (forall f :: f in fs ==> WellFormed(f.value))
    case _ => true
  }

  lemma {:induction false} LookupDistinct(fs: seq<Field>, i: nat)
    requires i < |fs| && forall a, b :: 0 <= a < b < |fs| ==> fs[a].key != fs[b].key
    ensures Lookup(fs, fs[i].key) == Some(fs[i].value)
  {
    if i > 0 {
      assert fs[0].key != fs[i].key;
      assert fs[1..][i - 1] == fs[i];
      LookupDistinct(fs[1..], i - 1);
    }
  }

  /** The first field of `fs1` that does not agree with `fs2`. */
  lemma {:induction false} FirstDisagreement(fs1: seq<Field>, fs2: seq<Field>) returns (i: nat)
    requires exists j :: 0 <= j < |fs1| && !FieldAgrees(fs1[j], fs2)
    ensures i < |fs1| && !FieldAgrees(fs1[i], fs2)
    ensures forall j :: 0 <= j < i ==> FieldAgrees(fs1[j], fs2)
  {
    if !FieldAgrees(fs1[0], fs2) {
      i := 0;
    } else {
      var j :| 0 <= j < |fs1| && !FieldAgrees(fs1[j], fs2);
      assert fs1[1..][j - 1] == fs1[j];
      var k := FirstDisagreement(fs1[1..], fs2);
      i := k + 1;
      assert forall j :: 1 <= j < i ==> fs1[j] == fs1[1..][j - 1];
    }
  }

  /** Every well-formed value has the same shape as itself. */
  lemma {:induction false} CompareReflexive(v: Value)
    requires WellFormed(v)
    ensures DeepCompareShapes(v, v) == Ok(true)
    decreases Size(v)
  {
    match v
    case Arr(xs) =>
      forall i | 0 <= i < |xs| ensures DeepCompareShapes(xs[i], xs[i]) == Ok(true) {
        assert xs[i] in xs;
        ElementSmaller(xs, i);
        CompareReflexive(xs[i]);
      }
      CompareEqualLengthArrays(xs, xs);
    case Obj(fs) =>
      if forall j :: 0 <= j < |fs| ==> FieldAgrees(fs[j], fs) {
        CompareObjectsAgreeing(fs, fs);
      } else {
        var i := FirstDisagreement(fs, fs);
        LookupDistinct(fs, i);
        FieldSmaller(fs, i);
        assert fs[i] in fs;
        CompareReflexive(fs[i].value);
        CompareObjectsFirstDisagreement(fs, fs, i);
      }
    case _ =>
  }

  // ===========================================================================
  // deepShape on array-valued fields: the element-shape set
  // ===========================================================================

  /** `list.some(e => deepCompareShapes(e, entry))` is false exactly when every member compares false. */
  lemma {:induction false} SomeComparesSpec(list: seq<Value>, entry: Value)
    ensures SomeCompares(list, entry) == Ok(false)
            <==> forall i :: 0 <= i < |list| ==> DeepCompareShapes(list[i], entry) == Ok(false)
    ensures SomeCompares(list, entry) == Ok(true)
            ==> exists i :: 0 <= i < |list| && DeepCompareShapes(list[i], entry) == Ok(true)
  {
    if list != [] {
      SomeComparesSpec(list[1..], entry);
      assert forall i :: 1 <= i < |list| ==> list[1..][i - 1] == list[i];
      if SomeCompares(list, entry) == Ok(true) && DeepCompareShapes(list[0], entry) != Ok(true) {
        var i :| 0 <= i < |list| - 1 && DeepCompareShapes(list[1..][i], entry) == Ok(true);
        assert DeepCompareShapes(list[i + 1], entry) == Ok(true);
      }
    }
  }

  /** No primitive occurs twice (the `Set` keeps primitives by value). */
  predicate NoPrimitiveRepeat(m: seq<Value>) {
    forall i, j :: 0 <= i < j < |m| && IsPrimitive(m[j]) ==> m[i] != m[j]
  }

  /** No structured shape matches a shape added before it. */
  predicate NoStructuredRepeat(m: seq<Value>) {
    forall i, j :: 0 <= i < j < |m| && TypeOf(m[j]) == Object ==> DeepCompareShapes(m[i], m[j]) == Ok(false)
  }

  /** The primitives of a shape are the representatives true, 0, "" and undefined. */
  predicate RepresentativesOnly(m: seq<Value>) {
    forall x :: x in m && IsPrimitive(x) ==> x == Representative(x)
  }

  /**
   * Every element of `xs` is accounted for in `m`: a primitive by its
   * representative, an object, array or null by its shape or by a shape
   * that compares equal to it.
   */
  predicate Covers(m: seq<Value>, xs: seq<Value>) {
    forall x :: x in xs ==>
      (IsPrimitive(x) ==> Representative(x) in m) &&
      (TypeOf(x) == Object ==>
         ShapeOf(x).Ok? &&
         exists y :: y in m && (y == ShapeOf(x).value.shape || DeepCompareShapes(y, ShapeOf(x).value.shape) == Ok(true)))
  }

  /** `y` is what deepShape makes of the element `x`: its representative or its shape. */
  predicate ElementShape(x: Value, y: Value) {
    (IsPrimitive(x) && y == Representative(x)) ||
    (TypeOf(x) == Object && ShapeOf(x).Ok? && y == ShapeOf(x).value.shape)
  }

  /** Every member of `m` comes from an element of `xs`: nothing else gets into a shape. */
  predicate DrawnFrom(m: seq<Value>, xs: seq<Value>) {
    forall y :: y in m ==> exists x :: x in xs && ElementShape(x, y)
  }

  /** Adding the shape of an element of `xs` keeps every member drawn from `xs`. */
  lemma DrawnFromAdd(m: seq<Value>, xs: seq<Value>, e: Value, y: Value)
    requires DrawnFrom(m, xs) && e in xs && ElementShape(e, y)
    ensures DrawnFrom(m + [y], xs)
  {
    forall z | z in m + [y] ensures exists x :: x in xs && ElementShape(x, z) {
      if z !in m {
        assert z == y;
      }
    }
  }

  lemma DrawnFromSameMembers(m: seq<Value>, s: seq<Value>, xs: seq<Value>, ys: seq<Value>)
    requires DrawnFrom(m, xs) && multiset(m) == multiset(s) && multiset(xs) == multiset(ys)
    ensures DrawnFrom(s, ys)
  {
    forall y | y in s ensures exists x :: x in ys && ElementShape(x, y) {
      assert y in multiset(s);
      assert y in m;
      var x :| x in xs && ElementShape(x, y);
      assert x in multiset(xs);
      assert x in ys;
    }
  }

  lemma CoversAppend(m: seq<Value>, xs: seq<Value>, extra: seq<Value>)
    requires Covers(m, xs)
    ensures Covers(m + extra, xs)
  {
    forall x | x in xs
      ensures (IsPrimitive(x) ==> Representative(x) in m + extra)
    {
    }
    forall x | x in xs && TypeOf(x) == Object
      ensures exists y :: y in m + extra && (y == ShapeOf(x).value.shape || DeepCompareShapes(y, ShapeOf(x).value.shape) == Ok(true))
    {
      var y :| y in m && (y == ShapeOf(x).value.shape || DeepCompareShapes(y, ShapeOf(x).value.shape) == Ok(true));
      assert y in m + extra;
    }
  }

  /** What the element-shape set keeps true while it grows. */
  predicate SetInvariant(m: seq<Value>) {
    NoPrimitiveRepeat(m) && NoStructuredRepeat(m) && RepresentativesOnly(m)
  }

  lemma CoversConcat(m: seq<Value>, a: seq<Value>, b: seq<Value>)
    requires Covers(m, a) && Covers(m, b)
    ensures Covers(m, a + b)
  {
  }

  /** Adding a structured shape that matches no member keeps the set free of repeats. */
  lemma AddStructured(members: seq<Value>, shape: Value)
    requires SetInvariant(members) && TypeOf(shape) == Object
    requires forall k :: 0 <= k < |members| ==> DeepCompareShapes(members[k], shape) == Ok(false)
    ensures SetInvariant(members + [shape])
  {
    var m := members + [shape];
    forall i, j | 0 <= i < j < |m| && TypeOf(m[j]) == Object
      ensures DeepCompareShapes(m[i], m[j]) == Ok(false)
    {
      if j < |members| {
        assert m[i] == members[i] && m[j] == members[j];
      }
    }
  }

  /** Adding a representative not yet present keeps the set free of repeats. */
  lemma AddPrimitive(members: seq<Value>, rep: Value)
    requires SetInvariant(members) && IsPrimitive(rep) && rep == Representative(rep) && rep !in members
    ensures SetInvariant(members + [rep])
  {
    var m := members + [rep];
    forall i, j | 0 <= i < j < |m| && TypeOf(m[j]) == Object
      ensures DeepCompareShapes(m[i], m[j]) == Ok(false)
    {
      assert m[i] == members[i] && m[j] == members[j];
    }
    forall i, j | 0 <= i < j < |m| && IsPrimitive(m[j])
      ensures m[i] != m[j]
    {
      assert m[i] == members[i];
      if j < |members| {
        assert m[j] == members[j];
      }
    }
  }

  /** One structured element: afterwards the set still holds and accounts for it. */
  lemma StructuredStep(members: seq<Value>, e: Value)
    requires SetInvariant(members) && TypeOf(e) == Object
    requires ShapeOf(e).Ok? && SomeCompares(members, ShapeOf(e).value.shape).Ok?
    ensures var shape := ShapeOf(e).value.shape;
            var next := if SomeCompares(members, shape).value then members else members + [shape];
            SetInvariant(next) && Covers(next, [e])
  {
    var shape := ShapeOf(e).value.shape;
    SomeComparesSpec(members, shape);
    if SomeCompares(members, shape).value {
      var k :| 0 <= k < |members| && DeepCompareShapes(members[k], shape) == Ok(true);
      assert members[k] in members;
    } else {
      AddStructured(members, shape);
      assert shape in members + [shape];
    }
  }

  /** One primitive element: afterwards the set still holds and contains its representative. */
  lemma PrimitiveStep(members: seq<Value>, e: Value)
    requires SetInvariant(members) && IsPrimitive(e)
    ensures var rep := Representative(e);
            var next := if rep in members then members else members + [rep];
            SetInvariant(next) && Covers(next, [e])
  {
    var rep := Representative(e);
    if rep !in members {
      AddPrimitive(members, rep);
      assert rep in members + [rep];
    }
  }

  lemma PrimitiveSetStep(xs: seq<Value>, i: nat, members: seq<Value>, elems: seq<Value>, bound: nat)
    requires i < |xs| && IsPrimitive(xs[i])
    requires forall x :: x in xs ==> Size(x) < bound
    ensures var rep := Representative(xs[i]);
            ShapeSetLoop(xs, i, members, elems, bound)
            == ShapeSetLoop(xs, i + 1, if rep in members then members else members + [rep], elems + [xs[i]], bound)
  {
    assert TypeOf(xs[i]) != Object;
  }

  /** One turn of the set loop on a primitive whose representative is already in the set. */
  lemma KnownPrimitiveSetStep(xs: seq<Value>, i: nat, members: seq<Value>, elems: seq<Value>, bound: nat)
    requires i < |xs| && IsPrimitive(xs[i]) && Representative(xs[i]) in members
    requires forall x :: x in xs ==> Size(x) < bound
    ensures ShapeSetLoop(xs, i, members, elems, bound) == ShapeSetLoop(xs, i + 1, members, elems + [xs[i]], bound)
  {
    PrimitiveSetStep(xs, i, members, elems, bound);
  }

  lemma StructuredSetStep(xs: seq<Value>, i: nat, members: seq<Value>, elems: seq<Value>, bound: nat)
    requires i < |xs| && TypeOf(xs[i]) == Object
    requires forall x :: x in xs ==> Size(x) < bound
    requires ShapeSetLoop(xs, i, members, elems, bound).Ok?
    ensures ShapeOf(xs[i]).Ok? && SomeCompares(members, ShapeOf(xs[i]).value.shape).Ok?
    ensures var s := ShapeOf(xs[i]).value;
            ShapeSetLoop(xs, i, members, elems, bound)
            == ShapeSetLoop(xs, i + 1, if SomeCompares(members, s.shape).value then members else members + [s.shape],
                            elems + [s.thing], bound)
  {
  }

  /** One turn of the set loop on an element whose shape and whose lookup in the set are known. */
  lemma KnownStructuredSetStep(xs: seq<Value>, i: nat, members: seq<Value>, elems: seq<Value>, bound: nat, s: Shaped, found: bool)
    requires i < |xs| && TypeOf(xs[i]) == Object
    requires forall x :: x in xs ==> Size(x) < bound
    requires ShapeOf(xs[i]) == Ok(s) && SomeCompares(members, s.shape) == Ok(found)
    ensures ShapeSetLoop(xs, i, members, elems, bound)
         == ShapeSetLoop(xs, i + 1, if found then members else members + [s.shape], elems + [s.thing], bound)
  {
  }

  lemma SetLoopEnd(xs: seq<Value>, members: seq<Value>, elems: seq<Value>, bound: nat)
    requires forall x :: x in xs ==> Size(x) < bound
    ensures ShapeSetLoop(xs, |xs|, members, elems, bound) == Ok((members, elems))
  {
  }

  /** The loop that fills the set keeps it free of repeats and accounts for every element seen. */
  lemma {:induction false} ShapeSetLoopSpec(xs: seq<Value>, i: nat, members: seq<Value>, elems: seq<Value>, bound: nat)
    requires i <= |xs|
    requires forall x :: x in xs ==> Size(x) < bound
    requires SetInvariant(members) && Covers(members, xs[..i])
    requires ShapeSetLoop(xs, i, members, elems, bound).Ok?
    ensures var m := ShapeSetLoop(xs, i, members, elems, bound).value.0;
            SetInvariant(m) && Covers(m, xs)
    decreases |xs| - i
  {
    if i == |xs| {
      assert xs[..i] == xs;
      SetLoopEnd(xs, members, elems, bound);
    } else {
      var next, rest;
      if TypeOf(xs[i]) == Object {
        next, rest := StructuredSpecTurn(xs, i, members, elems, bound);
      } else {
        next, rest := PrimitiveSpecTurn(xs, i, members, elems, bound);
      }
      ShapeSetLoopSpec(xs, i + 1, next, rest, bound);
    }
  }

  /** A turn of the set loop on an array or object keeps the set free of repeats and accounts for the element. */
  lemma StructuredSpecTurn(xs: seq<Value>, i: nat, members: seq<Value>, elems: seq<Value>, bound: nat)
    returns (next: seq<Value>, rest: seq<Value>)
    requires i < |xs| && TypeOf(xs[i]) == Object
    requires forall x :: x in xs ==> Size(x) < bound
    requires SetInvariant(members) && Covers(members, xs[..i])
    requires ShapeSetLoop(xs, i, members, elems, bound).Ok?
    ensures SetInvariant(next) && Covers(next, xs[..i + 1])
    ensures ShapeSetLoop(xs, i, members, elems, bound) == ShapeSetLoop(xs, i + 1, next, rest, bound)
  {
    var e := xs[i];
    StructuredSetStep(xs, i, members, elems, bound);
    var s := ShapeOf(e).value;
    var found := SomeCompares(members, s.shape).value;
    StructuredStep(members, e);
    var extra := if found then [] else [s.shape];
    next, rest := members + extra, elems + [s.thing];
    assert next == if found then members else members + [s.shape];
    TurnCovers(xs, i, members, extra);
  }

  /** A turn of the set loop on a primitive keeps the set free of repeats and accounts for the element. */
  lemma PrimitiveSpecTurn(xs: seq<Value>, i: nat, members: seq<Value>, elems: seq<Value>, bound: nat)
    returns (next: seq<Value>, rest: seq<Value>)
    requires i < |xs| && TypeOf(xs[i]) != Object
    requires forall x :: x in xs ==> Size(x) < bound
    requires SetInvariant(members) && Covers(members, xs[..i])
    requires ShapeSetLoop(xs, i, members, elems, bound).Ok?
    ensures SetInvariant(next) && Covers(next, xs[..i + 1])
    ensures ShapeSetLoop(xs, i, members, elems, bound) == ShapeSetLoop(xs, i + 1, next, rest, bound)
  {
    var e := xs[i];
    var rep := Representative(e);
    PrimitiveSetStep(xs, i, members, elems, bound);
    PrimitiveStep(members, e);
    var extra := if rep in members then [] else [rep];
    next, rest := members + extra, elems + [e];
    assert next == if rep in members then members else members + [rep];
    TurnCovers(xs, i, members, extra);
  }

  /** What covered the elements before `i` and covers `xs[i]` once grown covers the elements up to `i`. */
  lemma TurnCovers(xs: seq<Value>, i: nat, members: seq<Value>, extra: seq<Value>)
    requires i < |xs|
    requires Covers(members, xs[..i]) && Covers(members + extra, [xs[i]])
    ensures Covers(members + extra, xs[..i + 1])
  {
    CoversAppend(members, xs[..i], extra);
    CoversConcat(members + extra, xs[..i], [xs[i]]);
    assert xs[..i + 1] == xs[..i] + [xs[i]];
  }

  /** The loop that fills the set adds nothing but the shapes of the array's elements. */
  lemma {:induction false} ShapeSetLoopDrawn(xs: seq<Value>, i: nat, members: seq<Value>, elems: seq<Value>, bound: nat)
    requires i <= |xs|
    requires forall x :: x in xs ==> Size(x) < bound
    requires DrawnFrom(members, xs)
    requires ShapeSetLoop(xs, i, members, elems, bound).Ok?
    ensures DrawnFrom(ShapeSetLoop(xs, i, members, elems, bound).value.0, xs)
    decreases |xs| - i
  {
    if i == |xs| {
      SetLoopEnd(xs, members, elems, bound);
    } else {
      var e := xs[i];
      assert e in xs;
      if TypeOf(e) == Object {
        StructuredSetStep(xs, i, members, elems, bound);
        var s := ShapeOf(e).value;
        if !SomeCompares(members, s.shape).value {
          DrawnFromAdd(members, xs, e, s.shape);
        }
        ShapeSetLoopDrawn(xs, i + 1, if SomeCompares(members, s.shape).value then members else members + [s.shape],
                          elems + [s.thing], bound);
      } else {
        var rep := Representative(e);
        PrimitiveSetStep(xs, i, members, elems, bound);
        if rep !in members {
          DrawnFromAdd(members, xs, e, rep);
        }
        ShapeSetLoopDrawn(xs, i + 1, if rep in members then members else members + [rep], elems + [e], bound);
      }
    }
  }

  lemma {:induction false} PrimitiveOnce(m: seq<Value>, p: Value)
    requires NoPrimitiveRepeat(m) && IsPrimitive(p)
    ensures multiset(m)[p] <= 1
    decreases |m|
  {
    if m != [] {
      var init := m[..|m| - 1];
      assert m == init + [m[|m| - 1]];
      assert NoPrimitiveRepeat(init) by {
        forall i, j | 0 <= i < j < |init| && IsPrimitive(init[j]) ensures init[i] != init[j] {
          assert init[i] == m[i] && init[j] == m[j];
        }
      }
      PrimitiveOnce(init, p);
      if m[|m| - 1] == p {
        assert p !in init by {
          forall i | 0 <= i < |init| ensures init[i] != p {
            assert init[i] == m[i];
          }
        }
      }
    }
  }

  lemma CoversSameMembers(m: seq<Value>, s: seq<Value>, xs: seq<Value>)
    requires Covers(m, xs) && multiset(m) == multiset(s)
    ensures Covers(s, xs)
  {
    forall y ensures y in m <==> y in s {
      assert y in m <==> y in multiset(m);
      assert y in s <==> y in multiset(s);
    }
  }

  /**
   * The shape of an array value: sorted, holding each representative at most
   * once, holding no structured shape that matches one added before it,
   * accounting for every element of the array, and holding nothing that is
   * not the shape of one of its elements.
   */
  lemma ArrayFieldShape(xs: seq<Value>, bound: nat)
    requires forall x :: x in xs ==> Size(x) < bound
    requires ShapeArrayValue(xs, bound).Ok?
    ensures var shape := ShapeArrayValue(xs, bound).value.shape.elems;
            SortedByString(shape) && (exists m :: SetInvariant(m) && multiset(m) == multiset(shape)) &&
            Covers(shape, xs) && (forall p :: IsPrimitive(p) ==> multiset(shape)[p] <= 1) &&
            DrawnFrom(shape, xs)
  {
    var sorted := SortByString(xs);
    assert forall y :: y in sorted ==> y in multiset(xs);
    assert sorted[..0] == [];
    ShapeSetLoopSpec(sorted, 0, [], [], bound);
    ShapeSetLoopDrawn(sorted, 0, [], [], bound);
    var m := ShapeSetLoop(sorted, 0, [], [], bound).value.0;
    var shape := SortByString(m);
    forall x | x in xs ensures x in sorted {
      assert x in multiset(xs);
    }
    assert Covers(m, xs);
    CoversSameMembers(m, shape, xs);
    forall p | IsPrimitive(p) ensures multiset(shape)[p] <= 1 {
      PrimitiveOnce(m, p);
    }
    DrawnFromSameMembers(m, shape, sorted, xs);
  }

  // ===========================================================================
  // deepShape on objects
  // ===========================================================================

  /**
   * How one field of a shaped object relates to the original field: the same
   * key; a primitive becomes its representative and is left alone; an array
   * becomes its element-shape set; an object or null is shaped twice, the
   * second shape kept.
   */
  predicate FieldShaped(orig: Field, shaped: Field, kept: Field) {
    shaped.key == orig.key && kept.key == orig.key &&
    (IsPrimitive(orig.value) ==> shaped.value == Representative(orig.value) && kept == orig) &&
    (orig.value.Arr? ==>
       ArrayShape(orig.value.elems) == Ok(Shaped(shaped.value, kept.value))) &&
    (TypeOf(orig.value) == Object && !orig.value.Arr? ==>
       ShapeOf(orig.value).Ok? && ShapeOf(ShapeOf(orig.value).value.thing) == Ok(Shaped(shaped.value, kept.value)))
  }

  lemma ExtendShaped(fs: seq<Field>, i: nat, shapes: seq<Field>, fields: seq<Field>, s: Field, k: Field)
    requires i < |fs| && |shapes| == i && |fields| == i
    requires forall j :: 0 <= j < i ==> FieldShaped(fs[j], shapes[j], fields[j])
    requires FieldShaped(fs[i], s, k)
    ensures forall j :: 0 <= j < i + 1 ==> FieldShaped(fs[j], (shapes + [s])[j], (fields + [k])[j])
  {
  }

  lemma {:induction false} ShapeFieldsSpec(fs: seq<Field>, i: nat, shapes: seq<Field>, fields: seq<Field>, bound: nat)
    requires i <= |fs| && |shapes| == i && |fields| == i
    requires forall f :: f in fs && TypeOf(f.value) == Object ==> Size(f.value) < bound
    requires forall j :: 0 <= j < i ==> FieldShaped(fs[j], shapes[j], fields[j])
    requires ShapeFields(fs, i, shapes, fields, bound).Ok?
    ensures var (sh, kept) := ShapeFields(fs, i, shapes, fields, bound).value;
            |sh| == |fs| && |kept| == |fs| && forall j :: 0 <= j < |fs| ==> FieldShaped(fs[j], sh[j], kept[j])
    decreases |fs| - i
  {
    if i < |fs| {
      var s, k := FieldStep(fs, i, shapes, fields, bound);
      ExtendShaped(fs, i, shapes, fields, s, k);
      ShapeFieldsSpec(fs, i + 1, shapes + [s], fields + [k], bound);
    }
  }

  /** One turn of the key loop that does not throw, and the field pair it appends. */
  lemma FieldStep(fs: seq<Field>, i: nat, shapes: seq<Field>, fields: seq<Field>, bound: nat) returns (s: Field, k: Field)
    requires i < |fs|
    requires forall f :: f in fs && TypeOf(f.value) == Object ==> Size(f.value) < bound
    requires ShapeFields(fs, i, shapes, fields, bound).Ok?
    ensures ShapeFields(fs, i, shapes, fields, bound) == ShapeFields(fs, i + 1, shapes + [s], fields + [k], bound)
    ensures FieldShaped(fs[i], s, k)
  {
    var key, v := fs[i].key, fs[i].value;
    assert fs[i] in fs;
    if v.Arr? {
      var a := ArrayShape(v.elems).value;
      ArrayFieldStep(fs, i, shapes, fields, bound, a);
      s, k := Field(key, a.shape), Field(key, a.thing);
    } else if TypeOf(v) == Object {
      var first := ShapeOf(v).value;
      var second := ShapeOf(first.thing).value;
      ObjectFieldStep(fs, i, shapes, fields, bound, first, second);
      s, k := Field(key, second.shape), Field(key, second.thing);
    } else {
      PrimitiveFieldStep(fs, i, shapes, fields, bound);
      s, k := Field(key, Representative(v)), fs[i];
    }
  }

  lemma ObjectFieldStep(fs: seq<Field>, i: nat, shapes: seq<Field>, fields: seq<Field>, bound: nat, first: Shaped, second: Shaped)
    requires i < |fs| && !fs[i].value.Arr? && TypeOf(fs[i].value) == Object
    requires forall f :: f in fs && TypeOf(f.value) == Object ==> Size(f.value) < bound
    requires ShapeOf(fs[i].value) == Ok(first) && ShapeOf(first.thing) == Ok(second)
    ensures ShapeFields(fs, i, shapes, fields, bound)
         == ShapeFields(fs, i + 1, shapes + [Field(fs[i].key, second.shape)], fields + [Field(fs[i].key, second.thing)], bound)
  {
    assert fs[i] in fs;
  }

  /**
   * An object shapes to an object with the same keys in the same order, each
   * field shaped as FieldShaped says; the object itself keeps its keys too.
   */
  lemma ObjectShape(fs: seq<Field>)
    requires ShapeOf(Obj(fs)).Ok?
    ensures var r := ShapeOf(Obj(fs)).value;
            r.shape.Obj? && r.thing.Obj? && |r.shape.fields| == |fs| && |r.thing.fields| == |fs| &&
            forall j :: 0 <= j < |fs| ==> FieldShaped(fs[j], r.shape.fields[j], r.thing.fields[j])
  {
    EntriesSmaller(Obj(fs));
    ShapeFieldsSpec(fs, 0, [], [], Size(Obj(fs)));
  }

  /** Each field with its value replaced by the value's representative. */
  function RepresentativeFields(fs: seq<Field>): (r: seq<Field>)
    requires forall f :: f in fs ==> IsPrimitive(f.value)
    ensures |r| == |fs|
  {
    if fs == [] then [] else [Field(fs[0].key, Representative(fs[0].value))] + RepresentativeFields(fs[1..])
  }

  lemma {:induction false} RepresentativeFieldsAt(fs: seq<Field>, j: nat)
    requires forall f :: f in fs ==> IsPrimitive(f.value)
    requires j < |fs|
    ensures RepresentativeFields(fs)[j] == Field(fs[j].key, Representative(fs[j].value))
  {
    if j > 0 {
      assert fs[1..][j - 1] == fs[j];
      RepresentativeFieldsAt(fs[1..], j - 1);
    }
  }

  lemma PrimitiveFieldStep(fs: seq<Field>, i: nat, shapes: seq<Field>, fields: seq<Field>, bound: nat)
    requires i < |fs| && IsPrimitive(fs[i].value)
    requires forall f :: f in fs && TypeOf(f.value) == Object ==> Size(f.value) < bound
    ensures ShapeFields(fs, i, shapes, fields, bound)
         == ShapeFields(fs, i + 1, shapes + [Field(fs[i].key, Representative(fs[i].value))], fields + [fs[i]], bound)
  {
    assert !fs[i].value.Arr? && TypeOf(fs[i].value) != Object;
  }

  /** One turn of the loop over an object's keys on an array value. */
  lemma ArrayFieldStep(fs: seq<Field>, i: nat, shapes: seq<Field>, fields: seq<Field>, bound: nat, a: Shaped)
    requires i < |fs| && fs[i].value.Arr? && ArrayShape(fs[i].value.elems) == Ok(a)
    requires forall f :: f in fs && TypeOf(f.value) == Object ==> Size(f.value) < bound
    ensures ShapeFields(fs, i, shapes, fields, bound)
         == ShapeFields(fs, i + 1, shapes + [Field(fs[i].key, a.shape)], fields + [Field(fs[i].key, a.thing)], bound)
  {
  }

  lemma FieldsEnd(fs: seq<Field>, shapes: seq<Field>, fields: seq<Field>, bound: nat)
    requires forall f :: f in fs && TypeOf(f.value) == Object ==> Size(f.value) < bound
    ensures ShapeFields(fs, |fs|, shapes, fields, bound) == Ok((shapes, fields))
  {
  }

  /** `deepShape` of a top-level array is the result of the loop over its sorted elements. */
  lemma ArrayShapeUnfold(xs: seq<Value>, slots: seq<Slot>, elems: seq<Value>)
    requires forall y :: y in SortByString(xs) ==> Size(y) < Size(Arr(xs))
    requires ShapeElements(SortByString(xs), 0, [], [], Size(Arr(xs))) == Ok((slots, elems))
    ensures ShapeOf(Arr(xs)) == Ok(Shaped(Arr(SortedSlots(slots)), Arr(elems)))
  {
  }

  /** An array value's shape is the sorted set the set loop builds over its sorted elements. */
  lemma ArrayValueUnfold(xs: seq<Value>, bound: nat, members: seq<Value>, elems: seq<Value>)
    requires forall x :: x in xs ==> Size(x) < bound
    requires forall y :: y in SortByString(xs) ==> Size(y) < bound
    requires ShapeSetLoop(SortByString(xs), 0, [], [], bound) == Ok((members, elems))
    ensures ShapeArrayValue(xs, bound) == Ok(Shaped(Arr(SortByString(members)), Arr(elems)))
  {
  }

  /** `deepShape` of an object is the result of the loop over its keys. */
  lemma ObjectShapeUnfold(fs: seq<Field>, shapes: seq<Field>, fields: seq<Field>)
    requires forall f :: f in fs && TypeOf(f.value) == Object ==> Size(f.value) < Size(Obj(fs))
    requires ShapeFields(fs, 0, [], [], Size(Obj(fs))) == Ok((shapes, fields))
    ensures ShapeOf(Obj(fs)) == Ok(Shaped(Obj(shapes), Obj(fields)))
  {
    assert Entries(Obj(fs)) == fs;
  }

  lemma {:induction false} PrimitiveFieldsLoop(fs: seq<Field>, i: nat, shapes: seq<Field>, fields: seq<Field>, bound: nat)
    requires i <= |fs|
    requires forall f :: f in fs ==> IsPrimitive(f.value)
    requires forall f :: f in fs && TypeOf(f.value) == Object ==> Size(f.value) < bound
    ensures ShapeFields(fs, i, shapes, fields, bound) == Ok((shapes + RepresentativeFields(fs[i..]), fields + fs[i..]))
    decreases |fs| - i
  {
    if i == |fs| {
      FieldsEnd(fs, shapes, fields, bound);
      assert shapes + RepresentativeFields(fs[i..]) == shapes;
      assert fields + fs[i..] == fields;
    } else {
      var x := Field(fs[i].key, Representative(fs[i].value));
      PrimitiveFieldsLoop(fs, i + 1, shapes + [x], fields + [fs[i]], bound);
      PrimitiveFieldsLoopStep(fs, i, shapes, fields, bound);
    }
  }

  /** One turn of PrimitiveFieldsLoop: the loop from `i` is the loop from `i + 1` after one representative. */
  lemma PrimitiveFieldsLoopStep(fs: seq<Field>, i: nat, shapes: seq<Field>, fields: seq<Field>, bound: nat)
    requires i < |fs|
    requires forall f :: f in fs ==> IsPrimitive(f.value)
    requires forall f :: f in fs && TypeOf(f.value) == Object ==> Size(f.value) < bound
    requires var x := Field(fs[i].key, Representative(fs[i].value));
             ShapeFields(fs, i + 1, shapes + [x], fields + [fs[i]], bound)
             == Ok(((shapes + [x]) + RepresentativeFields(fs[i + 1..]), (fields + [fs[i]]) + fs[i + 1..]))
    ensures ShapeFields(fs, i, shapes, fields, bound) == Ok((shapes + RepresentativeFields(fs[i..]), fields + fs[i..]))
  {
    assert fs[i] in fs;
    var x := Field(fs[i].key, Representative(fs[i].value));
    PrimitiveFieldStep(fs, i, shapes, fields, bound);
    RepresentativeFieldsNext(fs, i, shapes);
    FieldsAppendNext(fields, fs, i);
  }

  /** Moving one primitive field from the unread rest to the shapes taken so far. */
  lemma RepresentativeFieldsNext(fs: seq<Field>, i: nat, shapes: seq<Field>)
    requires i < |fs| && forall f :: f in fs ==> IsPrimitive(f.value)
    ensures (shapes + [Field(fs[i].key, Representative(fs[i].value))]) + RepresentativeFields(fs[i + 1..])
            == shapes + RepresentativeFields(fs[i..])
  {
    assert fs[i..][0] == fs[i] && fs[i..][1..] == fs[i + 1..];
    assert RepresentativeFields(fs[i..])
           == [Field(fs[i].key, Representative(fs[i].value))] + RepresentativeFields(fs[i + 1..]);
  }

  /** Moving one field from the unread rest to the fields read so far. */
  lemma FieldsAppendNext(fields: seq<Field>, fs: seq<Field>, i: nat)
    requires i < |fs|
    ensures (fields + [fs[i]]) + fs[i + 1..] == fields + fs[i..]
  {
    assert fs[i..] == [fs[i]] + fs[i + 1..];
  }

  /** An object of primitives shapes to the same keys holding representatives, and is left as it was. */
  lemma FlatObjectShape(fs: seq<Field>)
    requires forall f :: f in fs ==> IsPrimitive(f.value)
    ensures ShapeOf(Obj(fs)) == Ok(Shaped(Obj(RepresentativeFields(fs)), Obj(fs)))
  {
    EntriesSmaller(Obj(fs));
    PrimitiveFieldsLoop(fs, 0, [], [], Size(Obj(fs)));
    assert fs[0..] == fs;
    assert [] + RepresentativeFields(fs) == RepresentativeFields(fs) && [] + fs == fs;
    assert ShapeFields(fs, 0, [], [], Size(Obj(fs))) == Ok((RepresentativeFields(fs), fs));
  }

  /** A string shapes to an object with one key per index, each holding "". */
  lemma StringShape(s: string)
    ensures var r := ShapeOf(Str(s));
            r.Ok? && r.value.thing == Str(s) && r.value.shape.Obj? && |r.value.shape.fields| == |s| &&
            forall j :: 0 <= j < |s| ==> r.value.shape.fields[j] == Field(NatToString(j), Str(""))
  {
    var es := Entries(Str(s));
    EntriesSmaller(Str(s));
    PrimitiveFieldsLoop(es, 0, [], [], Size(Str(s)));
    assert es[0..] == es;
    assert [] + RepresentativeFields(es) == RepresentativeFields(es);
    forall j | 0 <= j < |s| ensures RepresentativeFields(es)[j] == Field(NatToString(j), Str("")) {
      RepresentativeFieldsAt(es, j);
    }
  }

  // ===========================================================================
  // deepShape on top-level arrays
  // ===========================================================================

  lemma {:induction false} PushSlot(slots: seq<Slot>, v: Value)
    ensures Items(slots + [Item(v)]) == Items(slots) + [v]
    ensures CountHoles(slots + [Item(v)]) == CountHoles(slots)
  {
    if slots != [] {
      assert (slots + [Item(v)])[1..] == slots[1..] + [Item(v)];
      PushSlot(slots[1..], v);
    } else {
      assert Items([Item(v)]) == [v] + Items([]);
    }
  }

  lemma NoStructuredRepeatAppend(m: seq<Value>, v: Value)
    requires NoStructuredRepeat(m)
    requires TypeOf(v) == Object ==> forall k :: 0 <= k < |m| ==> DeepCompareShapes(m[k], v) == Ok(false)
    ensures NoStructuredRepeat(m + [v])
  {
    var n := m + [v];
    forall i, j | 0 <= i < j < |n| && TypeOf(n[j]) == Object
      ensures DeepCompareShapes(n[i], n[j]) == Ok(false)
    {
      assert n[i] == m[i];
      if j < |m| {
        assert n[j] == m[j];
      }
    }
  }

  /** Pushing an element's shape, or finding a match for it, keeps the pushed shapes free of repeats. */
  lemma TopElementStep(slots: seq<Slot>, e: Value)
    requires NoStructuredRepeat(Items(slots)) && !e.Arr?
    requires TypeOf(e) == Object ==> ShapeOf(e).Ok? && SomeCompares(Items(slots), ShapeOf(e).value.shape).Ok?
    ensures var next := if TypeOf(e) != Object then slots + [Item(Representative(e))]
                        else if SomeCompares(Items(slots), ShapeOf(e).value.shape).value then slots
                        else slots + [Item(ShapeOf(e).value.shape)];
            NoStructuredRepeat(Items(next)) && CountHoles(next) == CountHoles(slots) &&
            Covers(Items(next), [e]) && Items(slots) <= Items(next)
  {
    var m := Items(slots);
    if TypeOf(e) != Object {
      var rep := Representative(e);
      PushSlot(slots, rep);
      NoStructuredRepeatAppend(m, rep);
      assert rep in m + [rep];
      CoversOne(m + [rep], e, rep);
    } else {
      var shape := ShapeOf(e).value.shape;
      SomeComparesSpec(m, shape);
      if SomeCompares(m, shape).value {
        var k :| 0 <= k < |m| && DeepCompareShapes(m[k], shape) == Ok(true);
        assert m[k] in m;
        CoversOne(m, e, m[k]);
      } else {
        PushSlot(slots, shape);
        NoStructuredRepeatAppend(m, shape);
        assert shape in m + [shape];
        CoversOne(m + [shape], e, shape);
      }
    }
  }

  /** One element is accounted for by a member that is its representative, its shape, or a match of its shape. */
  lemma CoversOne(m: seq<Value>, e: Value, y: Value)
    requires y in m
    requires IsPrimitive(e) ==> y == Representative(e)
    requires TypeOf(e) == Object ==>
               ShapeOf(e).Ok? && (y == ShapeOf(e).value.shape || DeepCompareShapes(y, ShapeOf(e).value.shape) == Ok(true))
    ensures Covers(m, [e])
  {
  }

  lemma CoversPrefix(m: seq<Value>, n: seq<Value>, xs: seq<Value>)
    requires Covers(m, xs) && m <= n
    ensures Covers(n, xs)
  {
    CoversAppend(m, xs, n[|m|..]);
    assert m + n[|m|..] == n;
  }

  lemma {:induction false} TopElementsSpec(xs: seq<Value>, i: nat, slots: seq<Slot>, elems: seq<Value>, bound: nat)
    requires i <= |xs|
    requires forall x :: x in xs ==> Size(x) < bound && !x.Arr?
    requires NoStructuredRepeat(Items(slots)) && Covers(Items(slots), xs[..i])
    requires ShapeElements(xs, i, slots, elems, bound).Ok?
    ensures var r := ShapeElements(xs, i, slots, elems, bound).value.0;
            NoStructuredRepeat(Items(r)) && CountHoles(r) == CountHoles(slots) && Covers(Items(r), xs)
    decreases |xs| - i
  {
    if i == |xs| {
      assert xs[..i] == xs;
    } else {
      var next, rest := TopSpecTurn(xs, i, slots, elems, bound);
      TopElementsSpec(xs, i + 1, next, rest, bound);
    }
  }

  /** One turn of the top-level loop keeps the pushed shapes free of repeats and accounts for one more element. */
  lemma TopSpecTurn(xs: seq<Value>, i: nat, slots: seq<Slot>, elems: seq<Value>, bound: nat)
    returns (next: seq<Slot>, rest: seq<Value>)
    requires i < |xs|
    requires forall x :: x in xs ==> Size(x) < bound && !x.Arr?
    requires NoStructuredRepeat(Items(slots)) && Covers(Items(slots), xs[..i])
    requires ShapeElements(xs, i, slots, elems, bound).Ok?
    ensures NoStructuredRepeat(Items(next)) && CountHoles(next) == CountHoles(slots) && Covers(Items(next), xs[..i + 1])
    ensures ShapeElements(xs, i, slots, elems, bound) == ShapeElements(xs, i + 1, next, rest, bound)
  {
    var e := xs[i];
    assert e in xs;
    TopElementStep(slots, e);
    if TypeOf(e) != Object {
      next, rest := slots + [Item(Representative(e))], elems + [e];
      PrimitiveElementStep(xs, i, slots, elems, bound);
    } else {
      var first := ShapeOf(e).value;
      if SomeCompares(Items(slots), first.shape).value {
        var second := ShapeOf(first.thing).value;
        next, rest := slots, elems + [second.thing];
        RepeatedObjectElementStep(xs, i, slots, elems, bound, first, second);
      } else {
        next, rest := slots + [Item(first.shape)], elems + [first.thing];
        NewObjectElementStep(xs, i, slots, elems, bound, first);
      }
    }
    assert Covers(Items(next), [e]) && Items(slots) <= Items(next);
    CoversPrefix(Items(slots), Items(next), xs[..i]);
    CoversConcat(Items(next), xs[..i], [e]);
    assert xs[..i + 1] == xs[..i] + [e];
  }

  /** The top-level loop pushes nothing but the shapes of the array's elements. */
  lemma {:induction false} TopElementsDrawn(xs: seq<Value>, i: nat, slots: seq<Slot>, elems: seq<Value>, bound: nat)
    requires i <= |xs|
    requires forall x :: x in xs ==> Size(x) < bound && !x.Arr?
    requires DrawnFrom(Items(slots), xs)
    requires ShapeElements(xs, i, slots, elems, bound).Ok?
    ensures DrawnFrom(Items(ShapeElements(xs, i, slots, elems, bound).value.0), xs)
    decreases |xs| - i
  {
    if i < |xs| {
      var e := xs[i];
      assert e in xs;
      if TypeOf(e) != Object {
        var rep := Representative(e);
        PushSlot(slots, rep);
        DrawnFromAdd(Items(slots), xs, e, rep);
        TopElementsDrawn(xs, i + 1, slots + [Item(rep)], elems + [e], bound);
      } else {
        var first := ShapeOf(e).value;
        if SomeCompares(Items(slots), first.shape).value {
          var second := ShapeOf(first.thing).value;
          TopElementsDrawn(xs, i + 1, slots, elems + [second.thing], bound);
        } else {
          PushSlot(slots, first.shape);
          DrawnFromAdd(Items(slots), xs, e, first.shape);
          TopElementsDrawn(xs, i + 1, slots + [Item(first.shape)], elems + [first.thing], bound);
        }
      }
    }
  }

  /**
   * A top-level array without nested arrays shapes to a sorted array in which
   * no object or null shape matches one pushed before it, which accounts for
   * every element, and which holds nothing but shapes of its elements.
   */
  lemma TopLevelArrayShape(xs: seq<Value>)
    requires forall x :: x in xs ==> !x.Arr?
    requires ShapeOf(Arr(xs)).Ok?
    ensures var shape := ShapeOf(Arr(xs)).value.shape.elems;
            SortedByString(shape) && (exists m :: NoStructuredRepeat(m) && multiset(m) == multiset(shape)) &&
            Covers(shape, xs) && DrawnFrom(shape, xs)
  {
    var sorted := SortByString(xs);
    AllElementsSmaller(xs);
    assert forall y :: y in sorted ==> y in multiset(xs);
    assert sorted[..0] == [];
    assert Items([]) == [];
    TopElementsSpec(sorted, 0, [], [], Size(Arr(xs)));
    TopElementsDrawn(sorted, 0, [], [], Size(Arr(xs)));
    var slots := ShapeElements(sorted, 0, [], [], Size(Arr(xs))).value.0;
    var m := Items(slots);
    assert SortedSlots(slots) == SortByString(m);
    forall x | x in xs ensures x in sorted {
      assert x in multiset(xs);
    }
    CoversSameMembers(m, SortByString(m), xs);
    DrawnFromSameMembers(m, SortByString(m), sorted, xs);
  }

  /** Each element replaced by its representative. */
  function Representatives(xs: seq<Value>): (r: seq<Value>)
    requires forall x :: x in xs ==> IsPrimitive(x)
    ensures |r| == |xs|
  {
    if xs == [] then [] else [Representative(xs[0])] + Representatives(xs[1..])
  }

  lemma PrimitiveElementStep(xs: seq<Value>, i: nat, slots: seq<Slot>, elems: seq<Value>, bound: nat)
    requires i < |xs| && IsPrimitive(xs[i])
    requires forall x :: x in xs ==> Size(x) < bound
    ensures ShapeElements(xs, i, slots, elems, bound)
         == ShapeElements(xs, i + 1, slots + [Item(Representative(xs[i]))], elems + [xs[i]], bound)
  {
    assert !xs[i].Arr? && TypeOf(xs[i]) != Object;
  }

  /** One turn of the top-level array loop on an array element: its set is written under its string form. */
  lemma ArrayElementStep(xs: seq<Value>, i: nat, slots: seq<Slot>, elems: seq<Value>, bound: nat, a: Shaped)
    requires i < |xs| && xs[i].Arr? && ArrayShape(xs[i].elems) == Ok(a)
    requires forall x :: x in xs ==> Size(x) < bound
    ensures ShapeElements(xs, i, slots, elems, bound)
         == ShapeElements(xs, i + 1, SetProperty(slots, ToJsString(a.thing), a.shape), elems + [a.thing], bound)
  {
  }

  /** One turn of the top-level array loop on an object or null whose shape is not yet in the set. */
  lemma NewObjectElementStep(xs: seq<Value>, i: nat, slots: seq<Slot>, elems: seq<Value>, bound: nat, first: Shaped)
    requires i < |xs| && !xs[i].Arr? && TypeOf(xs[i]) == Object
    requires forall x :: x in xs ==> Size(x) < bound
    requires ShapeOf(xs[i]) == Ok(first) && SomeCompares(Items(slots), first.shape) == Ok(false)
    ensures ShapeElements(xs, i, slots, elems, bound)
         == ShapeElements(xs, i + 1, slots + [Item(first.shape)], elems + [first.thing], bound)
  {
  }

  /** One turn of the top-level array loop on an object whose shape is already in the set. */
  lemma RepeatedObjectElementStep(xs: seq<Value>, i: nat, slots: seq<Slot>, elems: seq<Value>, bound: nat, first: Shaped, second: Shaped)
    requires i < |xs| && !xs[i].Arr? && TypeOf(xs[i]) == Object
    requires forall x :: x in xs ==> Size(x) < bound
    requires ShapeOf(xs[i]) == Ok(first) && SomeCompares(Items(slots), first.shape) == Ok(true)
    requires ShapeOf(first.thing) == Ok(second)
    ensures ShapeElements(xs, i, slots, elems, bound)
         == ShapeElements(xs, i + 1, slots, elems + [second.thing], bound)
  {
  }

  lemma ElementsEnd(xs: seq<Value>, slots: seq<Slot>, elems: seq<Value>, bound: nat)
    requires forall x :: x in xs ==> Size(x) < bound
    ensures ShapeElements(xs, |xs|, slots, elems, bound) == Ok((slots, elems))
  {
  }

  lemma {:induction false} PrimitiveElementsLoop(xs: seq<Value>, i: nat, slots: seq<Slot>, elems: seq<Value>, bound: nat)
    requires i <= |xs|
    requires forall x :: x in xs ==> Size(x) < bound && IsPrimitive(x)
    ensures var r := ShapeElements(xs, i, slots, elems, bound);
            r.Ok? && Items(r.value.0) == Items(slots) + Representatives(xs[i..]) &&
            CountHoles(r.value.0) == CountHoles(slots) && r.value.1 == elems + xs[i..]
    decreases |xs| - i
  {
    if i == |xs| {
      ElementsEnd(xs, slots, elems, bound);
      assert Items(slots) + Representatives(xs[i..]) == Items(slots);
      assert elems + xs[i..] == elems;
    } else {
      var rep := Representative(xs[i]);
      PrimitiveElementsLoop(xs, i + 1, slots + [Item(rep)], elems + [xs[i]], bound);
      PrimitiveElementsLoopStep(xs, i, slots, elems, bound);
    }
  }

  /** One turn of PrimitiveElementsLoop: the loop from `i` is the loop from `i + 1` after one representative. */
  lemma PrimitiveElementsLoopStep(xs: seq<Value>, i: nat, slots: seq<Slot>, elems: seq<Value>, bound: nat)
    requires i < |xs|
    requires forall x :: x in xs ==> Size(x) < bound && IsPrimitive(x)
    requires var r := ShapeElements(xs, i + 1, slots + [Item(Representative(xs[i]))], elems + [xs[i]], bound);
             r.Ok? && Items(r.value.0) == Items(slots + [Item(Representative(xs[i]))]) + Representatives(xs[i + 1..]) &&
             CountHoles(r.value.0) == CountHoles(slots + [Item(Representative(xs[i]))]) &&
             r.value.1 == (elems + [xs[i]]) + xs[i + 1..]
    ensures var r := ShapeElements(xs, i, slots, elems, bound);
            r.Ok? && Items(r.value.0) == Items(slots) + Representatives(xs[i..]) &&
            CountHoles(r.value.0) == CountHoles(slots) && r.value.1 == elems + xs[i..]
  {
    var e := xs[i];
    assert e in xs;
    var rep := Representative(e);
    PrimitiveElementStep(xs, i, slots, elems, bound);
    PushSlot(slots, rep);
    RepresentativesNext(xs, i, Items(slots));
    AppendNext(elems, xs, i);
  }

  /** Moving one primitive from the unread rest to the representatives taken so far. */
  lemma RepresentativesNext(xs: seq<Value>, i: nat, items: seq<Value>)
    requires i < |xs| && forall x :: x in xs ==> IsPrimitive(x)
    ensures (items + [Representative(xs[i])]) + Representatives(xs[i + 1..]) == items + Representatives(xs[i..])
  {
    assert xs[i..][0] == xs[i] && xs[i..][1..] == xs[i + 1..];
    assert Representatives(xs[i..]) == [Representative(xs[i])] + Representatives(xs[i + 1..]);
  }

  /** Moving one element from the unread rest to the elements read so far. */
  lemma AppendNext(elems: seq<Value>, xs: seq<Value>, i: nat)
    requires i < |xs|
    ensures (elems + [xs[i]]) + xs[i + 1..] == elems + xs[i..]
  {
    assert xs[i..] == [xs[i]] + xs[i + 1..];
  }

  /**
   * A top-level array of primitives keeps one representative per element, with
   * no deduplication, and the message itself is left sorted.
   */
  lemma PrimitiveArrayShape(xs: seq<Value>)
    requires forall x :: x in xs ==> IsPrimitive(x)
    ensures var sorted := SortByString(xs);
            (forall y :: y in sorted ==> IsPrimitive(y)) &&
            ShapeOf(Arr(xs)) == Ok(Shaped(Arr(SortByString(Representatives(sorted))), Arr(sorted))) &&
            |SortByString(Representatives(sorted))| == |xs|
  {
    var sorted := SortByString(xs);
    AllElementsSmaller(xs);
    assert forall y :: y in sorted ==> y in multiset(xs);
    var r := ShapeElements(sorted, 0, [], [], Size(Arr(xs)));
    assert r.Ok? && Items(r.value.0) == Representatives(sorted) && CountHoles(r.value.0) == 0 && r.value.1 == sorted by {
      PrimitiveElementsLoop(sorted, 0, [], [], Size(Arr(xs)));
      assert sorted[0..] == sorted;
      assert Items([]) == [] && CountHoles([]) == 0;
    }
    SortedSlotsWithoutHoles(r.value.0);
    ArrayShapeUnfold(xs, r.value.0, r.value.1);
  }

  /** With no hole, the sorted slots are the sorted items. */
  lemma SortedSlotsWithoutHoles(slots: seq<Slot>)
    requires CountHoles(slots) == 0
    ensures SortedSlots(slots) == SortByString(Items(slots))
  {
    assert seq(0, _ => Undef) == [];
  }
}
