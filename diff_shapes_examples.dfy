/** Concrete messages and what deepShape and deepCompareShapes make of them. */
module DiffShapesExamples {
  import opened Wrappers
  import opened JsValues
  import opened DiffShapes
  import opened DiffShapesProperties

  lemma {:induction false} StringSetLoop(xs: seq<Value>, i: nat, elems: seq<Value>, bound: nat)
    requires 1 <= i <= |xs|
    requires forall x :: x in xs ==> x.Str? && Size(x) < bound
    ensures ShapeSetLoop(xs, i, [Str("")], elems, bound) == Ok(([Str("")], elems + xs[i..]))
    decreases |xs| - i
  {
    if i == |xs| {
      assert elems + xs[i..] == elems;
    } else {
      assert xs[i] in xs;
      assert Representative(xs[i]) in [Str("")];
      KnownPrimitiveSetStep(xs, i, [Str("")], elems, bound);
      StringSetLoop(xs, i + 1, elems + [xs[i]], bound);
      AppendNext(elems, xs, i);
    }
  }

  lemma HeadTail(s: seq<Value>)
    requires |s| > 0
    ensures [s[0]] + s[1..] == s
  {
  }

  /** A non-empty array of strings shapes to `[""]`, however many strings it holds. */
  lemma StringArrayShape(xs: seq<Value>)
    requires |xs| > 0 && forall x :: x in xs ==> x.Str?
    ensures ArrayShape(xs) == Ok(Shaped(Arr([Str("")]), Arr(SortByString(xs))))
  {
    var sorted := SortByString(xs);
    var bound := Size(Arr(xs));
    assert forall y :: y in sorted ==> y.Str? && Size(y) < bound by {
      AllElementsSmaller(xs);
      forall y | y in sorted ensures y.Str? && Size(y) < bound {
        assert y in multiset(xs);
      }
    }
    assert sorted != [] by {
      SortByStringSize(xs);
    }
    StringSetLoopFromStart(sorted, bound);
    assert SortByString([Str("")]) == [Str("")];
  }

  lemma StringSetLoopFromStart(xs: seq<Value>, bound: nat)
    requires |xs| > 0 && forall x :: x in xs ==> x.Str? && Size(x) < bound
    ensures ShapeSetLoop(xs, 0, [], [], bound) == Ok(([Str("")], xs))
  {
    assert xs[0] in xs;
    assert Representative(xs[0]) == Str("");
    PrimitiveSetStep(xs, 0, [], [], bound);
    assert [] + [Str("")] == [Str("")] && [] + [xs[0]] == [xs[0]];
    StringSetLoop(xs, 1, [xs[0]], bound);
    HeadTail(xs);
  }

  /**
   * Messages `{id: n, tags: [...]}` with any number and any non-empty list
   * of strings all shape to `{id: 0, tags: [""]}`, so only the first of them
   * is kept as a new interface.
   */
  lemma TaggedMessagesShareAShape(n: int, tags: seq<Value>)
    requires |tags| > 0 && forall x :: x in tags ==> x.Str?
    ensures var fs := [Field("id", Num(n)), Field("tags", Arr(tags))];
            ShapeOf(Obj(fs)) == Ok(Shaped(Obj([Field("id", Num(0)), Field("tags", Arr([Str("")]))]),
                                          Obj([Field("id", Num(n)), Field("tags", Arr(SortByString(tags)))])))
  {
    var fs := [Field("id", Num(n)), Field("tags", Arr(tags))];
    StringArrayShape(tags);
    assert Representative(Num(n)) == Num(0);
    PrimitiveThenArrayShape(fs, Shaped(Arr([Str("")]), Arr(SortByString(tags))));
  }

  /** An object with a primitive field followed by an array field. */
  lemma PrimitiveThenArrayShape(fs: seq<Field>, a: Shaped)
    requires |fs| == 2 && IsPrimitive(fs[0].value) && fs[1].value.Arr?
    requires ArrayShape(fs[1].value.elems) == Ok(a)
    ensures ShapeOf(Obj(fs)) == Ok(Shaped(Obj([Field(fs[0].key, Representative(fs[0].value)), Field(fs[1].key, a.shape)]),
                                          Obj([fs[0], Field(fs[1].key, a.thing)])))
  {
    EntriesSmaller(Obj(fs));
    PrimitiveThenArrayFields(fs, a, Size(Obj(fs)));
    ObjectShapeUnfold(fs, [Field(fs[0].key, Representative(fs[0].value)), Field(fs[1].key, a.shape)],
                      [fs[0], Field(fs[1].key, a.thing)]);
  }

  lemma PrimitiveThenArrayFields(fs: seq<Field>, a: Shaped, bound: nat)
    requires |fs| == 2 && IsPrimitive(fs[0].value) && fs[1].value.Arr?
    requires ArrayShape(fs[1].value.elems) == Ok(a)
    requires forall f :: f in fs && TypeOf(f.value) == Object ==> Size(f.value) < bound
    ensures ShapeFields(fs, 0, [], [], bound)
            == Ok(([Field(fs[0].key, Representative(fs[0].value)), Field(fs[1].key, a.shape)],
                   [fs[0], Field(fs[1].key, a.thing)]))
  {
    var s0, k0 := [Field(fs[0].key, Representative(fs[0].value))], [fs[0]];
    PrimitiveFieldStep(fs, 0, [], [], bound);
    assert [] + s0 == s0 && [] + k0 == k0;
    ArrayFieldStep(fs, 1, s0, k0, bound, a);
    var s1, k1 := s0 + [Field(fs[1].key, a.shape)], k0 + [Field(fs[1].key, a.thing)];
    FieldsEnd(fs, s1, k1, bound);
    assert s1 == [Field(fs[0].key, Representative(fs[0].value)), Field(fs[1].key, a.shape)];
    assert k1 == [fs[0], Field(fs[1].key, a.thing)];
  }

  /**
   * The same keys in another order give another shape (and so another
   * serialisation and another hash), although deepCompareShapes calls the
   * two shapes equal.
   */
  lemma KeyOrderMatters()
    ensures var ab := ShapeOf(Obj([Field("a", Num(1)), Field("b", Str("x"))]));
            var ba := ShapeOf(Obj([Field("b", Str("x")), Field("a", Num(1))]));
            ab.Ok? && ba.Ok? && ab.value.shape != ba.value.shape &&
            DeepCompareShapes(ab.value.shape, ba.value.shape) == Ok(true)
  {
    var s1 := [Field("a", Num(0)), Field("b", Str(""))];
    var s2 := [Field("b", Str("")), Field("a", Num(0))];
    TwoPrimitiveFieldsShape(Field("a", Num(1)), Field("b", Str("x")));
    TwoPrimitiveFieldsShape(Field("b", Str("x")), Field("a", Num(1)));
    assert s1[0] != s2[0];
    SwappedFieldsAgree(s1, s2);
  }

  lemma SwappedFieldsAgree(s1: seq<Field>, s2: seq<Field>)
    requires s1 == [Field("a", Num(0)), Field("b", Str(""))] && s2 == [s1[1], s1[0]]
    ensures DeepCompareShapes(Obj(s1), Obj(s2)) == Ok(true)
  {
    assert Lookup(s2, "a") == Some(Num(0)) && Lookup(s2, "b") == Some(Str(""));
    assert FieldAgrees(s1[0], s2) && FieldAgrees(s1[1], s2);
    CompareObjectsAgreeing(s1, s2);
  }

  /** An object of two primitive fields shapes to their representatives, in the same order. */
  lemma TwoPrimitiveFieldsShape(f: Field, g: Field)
    requires IsPrimitive(f.value) && IsPrimitive(g.value)
    ensures ShapeOf(Obj([f, g])) == Ok(Shaped(Obj([Field(f.key, Representative(f.value)), Field(g.key, Representative(g.value))]),
                                              Obj([f, g])))
  {
    var fs := [f, g];
    FlatObjectShape(fs);
    RepresentativeFieldsAt(fs, 0);
    RepresentativeFieldsAt(fs, 1);
    assert RepresentativeFields(fs) == [Field(f.key, Representative(f.value)), Field(g.key, Representative(g.value))];
  }

  /**
   * `{a: [1, null]}` throws: the sorted array is `[1, null]`, and comparing
   * the set member `0` with the shape `null` reaches `Object.keys(null)`.
   */
  lemma NullAfterNumberThrows()
    ensures ShapeOf(Obj([Field("a", Arr([Num(1), Null]))])) == Err(TypeError)
  {
    var xs := [Num(1), Null];
    assert ToJsString(Num(1)) == "1" && ToJsString(Null) == "null";
    assert SortByString([Num(1)]) == [Num(1)];
    assert !CodeUnitLess("null", "1");
    assert SortByString(xs) == xs by { assert xs[..1] == [Num(1)]; }
    var bound := Size(Arr(xs));
    AllElementsSmaller(xs);
    PrimitiveSetStep(xs, 0, [], [], bound);
    assert [] + [Num(0)] == [Num(0)] && [] + [Num(1)] == [Num(1)];
    assert ShapeOf(Null) == Ok(Shaped(Null, Null));
    assert SomeCompares([Num(0)], Null) == Err(TypeError);
    assert ShapeSetLoop(xs, 1, [Num(0)], [Num(1)], bound) == Err(TypeError);
    assert ArrayShape(xs) == Err(TypeError);
    var fs := [Field("a", Arr(xs))];
    EntriesSmaller(Obj(fs));
    assert ShapeFields(fs, 0, [], [], Size(Obj(fs))) == Err(TypeError);
  }

  /**
   * Once a key holds objects on both sides, its comparison is the whole
   * answer: the keys after it are never looked at.
   */
  lemma LaterKeysIgnored()
    ensures DeepCompareShapes(Obj([Field("a", Obj([])), Field("b", Num(0))]),
                              Obj([Field("a", Obj([])), Field("b", Str(""))])) == Ok(true)
  {
    var fs1 := [Field("a", Obj([])), Field("b", Num(0))];
    var fs2 := [Field("a", Obj([])), Field("b", Str(""))];
    assert Lookup(fs2, "a") == Some(Obj([]));
    assert !FieldAgrees(fs1[0], fs2) && BothObjects(fs1[0], fs2);
    CompareObjectsFirstDisagreement(fs1, fs2, 0);
    CompareObjectsAgreeing([], []);
  }

  /** Two values with one sort key keep their order under sort(). */
  lemma SortTiedPair(a: Value, b: Value)
    requires SortKey(a) == SortKey(b)
    ensures SortByString([a, b]) == [a, b]
  {
    KeyLessIrreflexive(SortKey(a));
    SortOrderedPair(a, b);
  }

  /** Two values already in sort order stay as they are. */
  lemma SortOrderedPair(a: Value, b: Value)
    requires InOrder(a, b)
    ensures SortByString([a, b]) == [a, b]
  {
    assert [a, b][..1] == [a];
    assert SortByString([a]) == InsertByString(a, SortByString([])) == [a];
    assert SortByString([a, b]) == InsertByString(b, [a]);
    assert InsertByString(b, [a]) == [a] + InsertByString(b, []);
  }

  /** `{k: n}` shapes to `{k: 0}` and is left as it was. */
  lemma NumberFieldShape(k: string, n: int)
    ensures ShapeOf(Obj([Field(k, Num(n))])) == Ok(Shaped(Obj([Field(k, Num(0))]), Obj([Field(k, Num(n))])))
  {
    var fs := [Field(k, Num(n))];
    FlatObjectShape(fs);
    RepresentativeFieldsAt(fs, 0);
    assert RepresentativeFields(fs) == [Field(k, Num(0))];
  }

  /** `[{a: 1}, {a: 2}]` shapes to `[{a: 0}]`: the second object's shape matches the first and is dropped. */
  lemma DuplicateObjectsCollapse()
    ensures var xs := [Obj([Field("a", Num(1))]), Obj([Field("a", Num(2))])];
            ShapeOf(Arr(xs)) == Ok(Shaped(Arr([Obj([Field("a", Num(0))])]), Arr(xs)))
  {
    DuplicateObjectsShape(Obj([Field("a", Num(1))]), Obj([Field("a", Num(2))]), Obj([Field("a", Num(0))]));
  }

  /**
   * Here and in several examples below, the lemma that states an example
   * has its literal in the `ensures`, and the helper it calls takes the
   * literals as parameters fixed by a `requires`, so that the
   * verifier sees a variable and does not unfold the shaping functions on
   * the whole literal at once, which would exceed its resource budget.
   */
  lemma DuplicateObjectsShape(o1: Value, o2: Value, sh: Value)
    requires o1 == Obj([Field("a", Num(1))]) && o2 == Obj([Field("a", Num(2))]) && sh == Obj([Field("a", Num(0))])
    ensures ShapeOf(Arr([o1, o2])) == Ok(Shaped(Arr([sh]), Arr([o1, o2])))
  {
    var xs := [o1, o2];
    SortTiedPair(o1, o2);
    AllElementsSmaller(xs);
    DuplicateObjectElements(o1, o2, Size(Arr(xs)));
    ArrayShapeUnfold(xs, [Item(sh)], xs);
    SortedSlotsSingle(sh);
  }

  /** One filled slot and no hole sorts to itself. */
  lemma SortedSlotsSingle(v: Value)
    ensures SortedSlots([Item(v)]) == [v]
  {
    assert Items([Item(v)]) == [v] + Items([]);
    assert CountHoles([Item(v)]) == 0 + CountHoles([]);
    SortedSlotsWithoutHoles([Item(v)]);
    assert SortByString([v]) == [v];
  }

  lemma DuplicateObjectElements(o1: Value, o2: Value, bound: nat)
    requires o1 == Obj([Field("a", Num(1))]) && o2 == Obj([Field("a", Num(2))])
    requires Size(o1) < bound && Size(o2) < bound
    ensures var sh := Obj([Field("a", Num(0))]);
            ShapeElements([o1, o2], 0, [], [], bound) == Ok(([Item(sh)], [o1, o2]))
  {
    var sh := Obj([Field("a", Num(0))]);
    NumberFieldShape("a", 1);
    NumberFieldShape("a", 2);
    OneFieldShapeFound(sh);
    TwoObjectsOneShape(o1, o2, sh, bound);
  }

  /** Two objects of one shape in a top-level array: the first is kept, the second dropped. */
  lemma TwoObjectsOneShape(o1: Value, o2: Value, sh: Value, bound: nat)
    requires o1.Obj? && o2.Obj? && Size(o1) < bound && Size(o2) < bound
    requires ShapeOf(o1) == Ok(Shaped(sh, o1)) && ShapeOf(o2) == Ok(Shaped(sh, o2))
    requires Items([Item(sh)]) == [sh] && SomeCompares([sh], sh) == Ok(true)
    ensures ShapeElements([o1, o2], 0, [], [], bound) == Ok(([Item(sh)], [o1, o2]))
  {
    var xs := [o1, o2];
    assert Items([]) == [];
    assert SomeCompares([], sh) == Ok(false);
    NewObjectElementStep(xs, 0, [], [], bound, Shaped(sh, o1));
    assert [] + [Item(sh)] == [Item(sh)] && [] + [o1] == [o1];
    RepeatedObjectElementStep(xs, 1, [Item(sh)], [o1], bound, Shaped(sh, o2), Shaped(sh, o2));
    ElementsEnd(xs, [Item(sh)], [o1, o2], bound);
    assert [o1] + [o2] == xs;
  }

  /** A set holding only the shape `{a: 0}` already has it. */
  lemma OneFieldShapeFound(sh: Value)
    requires sh == Obj([Field("a", Num(0))])
    ensures Items([Item(sh)]) == [sh] && SomeCompares([sh], sh) == Ok(true)
  {
    assert Items([Item(sh)]) == [sh] + Items([]);
    assert DeepCompareShapes(sh, sh) == Ok(true) by {
      assert FieldAgrees(sh.fields[0], sh.fields);
      CompareObjectsAgreeing(sh.fields, sh.fields);
    }
  }

  // ---------------------------------------------------------------------------
  // Arrays nested in top-level arrays: holes, read as undefined
  // ---------------------------------------------------------------------------

  /** `[n]` as an array value shapes to the set `[0]` and is left as it was. */
  lemma OneNumberArray(n: int)
    ensures ArrayShape([Num(n)]) == Ok(Shaped(Arr([Num(0)]), Arr([Num(n)])))
  {
    var xs := [Num(n)];
    assert SortByString(xs) == xs by { assert xs[..0] == []; }
    var bound := Size(Arr(xs));
    AllElementsSmaller(xs);
    PrimitiveSetStep(xs, 0, [], [], bound);
    assert [] + [Num(0)] == [Num(0)] && [] + [Num(n)] == xs;
    SetLoopEnd(xs, [Num(0)], xs, bound);
    assert SortByString([Num(0)]) == [Num(0)] by { assert [Num(0)][..0] == []; }
  }

  /** The string forms of the one-digit arrays `[d]`, and the array indices they name. */
  lemma OneDigitNames()
    ensures ToJsString(Arr([Num(0)])) == "0" && ArrayIndex("0") == Some(0)
    ensures ToJsString(Arr([Num(1)])) == "1" && ArrayIndex("1") == Some(1)
    ensures ToJsString(Arr([Num(2)])) == "2" && ArrayIndex("2") == Some(2)
  {
    assert Digit(0) == '0' && Digit(1) == '1' && Digit(2) == '2';
    assert DigitsValue("0") == 0 by { assert "0"[..0] == []; }
    assert DigitsValue("1") == 1 by { assert "1"[..0] == []; }
    assert DigitsValue("2") == 2 by { assert "2"[..0] == []; }
  }

  /**
   * `[[1]]` shapes to `[[0], undefined]`: the set `[0]` is written at index
   * "1" (the string form of `[1]`), which leaves a hole at index 0.
   */
  lemma NestedArrayLeavesHole(e: Value, sh: Value)
    requires e == Arr([Num(1)]) && sh == Arr([Num(0)])
    ensures ShapeOf(Arr([e])) == Ok(Shaped(Arr([sh, Undef]), Arr([e])))
  {
    var xs := [e];
    assert SortByString(xs) == xs by { assert xs[..0] == []; }
    var bound := Size(Arr(xs));
    AllElementsSmaller(xs);
    OneNumberArray(1);
    OneDigitNames();
    ArrayElementStep(xs, 0, [], [], bound, Shaped(sh, e));
    var slots := SetProperty([], "1", sh);
    HoleThenItem(slots, sh);
    assert [] + [e] == xs;
    ElementsEnd(xs, slots, xs, bound);
    ArrayShapeUnfold(xs, slots, xs);
  }

  /** Writing at index 1 of an empty array leaves one hole, which sorts last. */
  lemma HoleThenItem(slots: seq<Slot>, sh: Value)
    requires slots == SetProperty([], "1", sh)
    ensures slots == [Hole, Item(sh)] && SortedSlots(slots) == [sh, Undef]
  {
    OneDigitNames();
    assert Items([Item(sh)]) == [sh] + Items([]);
    assert Items(slots) == [] + Items([Item(sh)]);
  }

  /** `[5, 6]` shapes to `[0, 0]`: a top-level array keeps one representative per element. */
  lemma TwoNumbersShape(xs: seq<Value>)
    requires xs == [Num(5), Num(6)]
    ensures ShapeOf(Arr(xs)) == Ok(Shaped(Arr([Num(0), Num(0)]), Arr(xs)))
  {
    assert ToJsString(Num(5)) == "5" && ToJsString(Num(6)) == "6";
    assert !CodeUnitLess("6", "5");
    SortOrderedPair(Num(5), Num(6));
    PrimitiveArrayShape(xs);
    assert Representatives(xs) == [Num(0)] + Representatives([Num(6)]);
    assert Representatives([Num(6)]) == [Num(0)] + Representatives([]);
    SortTiedPair(Num(0), Num(0));
  }

  /** `[[0], undefined]` and `[0, 0]` differ at both positions. */
  lemma HoleShapeDiffers(s1: Value, s2: Value)
    requires s1 == Arr([Arr([Num(0)]), Undef]) && s2 == Arr([Num(0), Num(0)])
    ensures DeepCompareShapes(s1, s2) == Ok(false)
  {
    CompareEqualLengthArrays(s1.elems, s2.elems);
    assert DeepCompareShapes(s1.elems[0], s2.elems[0]) == Ok(false);
    assert DeepCompareShapes(s1.elems[1], s2.elems[1]) == Ok(false);
  }

  /**
   * The array value `[[[1]], [5, 6]]` shapes to the set
   * `[[[0], undefined], [0, 0]]`: the hole is compared as undefined, which
   * matches neither 0 nor an object, so no TypeError is thrown.
   */
  lemma HoleInArrayValue(a1: Value, a2: Value, s1: Value, s2: Value)
    requires a1 == Arr([Arr([Num(1)])]) && a2 == Arr([Num(5), Num(6)])
    requires s1 == Arr([Arr([Num(0)]), Undef]) && s2 == Arr([Num(0), Num(0)])
    ensures ArrayShape([a1, a2]) == Ok(Shaped(Arr([s1, s2]), Arr([a1, a2])))
  {
    var xs := [a1, a2];
    HoleSetSorted(a1, a2, s1, s2);
    var bound := Size(Arr(xs));
    AllElementsSmaller(xs);
    NestedArrayLeavesHole(Arr([Num(1)]), Arr([Num(0)]));
    TwoNumbersShape(a2.elems);
    HoleShapeDiffers(s1, s2);
    HoleSetLoop(xs, bound, s1, s2);
  }

  /** The sort keys in HoleInArrayValue: "1" before "5,6", and "0," before "0,0". */
  lemma HoleSetSorted(a1: Value, a2: Value, s1: Value, s2: Value)
    requires a1 == Arr([Arr([Num(1)])]) && a2 == Arr([Num(5), Num(6)])
    requires s1 == Arr([Arr([Num(0)]), Undef]) && s2 == Arr([Num(0), Num(0)])
    ensures SortByString([a1, a2]) == [a1, a2] && SortByString([s1, s2]) == [s1, s2]
  {
    OneDigitNames();
    assert ToJsString(a1) == "1" && ToJsString(a2) == "5,6";
    assert !CodeUnitLess("5,6", "1");
    SortOrderedPair(a1, a2);
    assert ToJsString(s1) == "0," && ToJsString(s2) == "0,0";
    assert !CodeUnitLess("0,0", "0,");
    SortOrderedPair(s1, s2);
  }

  /** Two elements whose shapes do not match both go into the set. */
  lemma HoleSetLoop(xs: seq<Value>, bound: nat, s1: Value, s2: Value)
    requires |xs| == 2 && TypeOf(xs[0]) == Object && TypeOf(xs[1]) == Object
    requires forall x :: x in xs ==> Size(x) < bound
    requires ShapeOf(xs[0]) == Ok(Shaped(s1, xs[0])) && ShapeOf(xs[1]) == Ok(Shaped(s2, xs[1]))
    requires DeepCompareShapes(s1, s2) == Ok(false)
    requires SortByString(xs) == xs && SortByString([s1, s2]) == [s1, s2]
    ensures ShapeArrayValue(xs, bound) == Ok(Shaped(Arr([s1, s2]), Arr(xs)))
  {
    TwoDistinctMembers(xs, bound, s1, s2);
    ArrayValueUnfold(xs, bound, [s1, s2], xs);
  }

  lemma TwoDistinctMembers(xs: seq<Value>, bound: nat, s1: Value, s2: Value)
    requires |xs| == 2 && TypeOf(xs[0]) == Object && TypeOf(xs[1]) == Object
    requires forall x :: x in xs ==> Size(x) < bound
    requires ShapeOf(xs[0]) == Ok(Shaped(s1, xs[0])) && ShapeOf(xs[1]) == Ok(Shaped(s2, xs[1]))
    requires DeepCompareShapes(s1, s2) == Ok(false)
    ensures ShapeSetLoop(xs, 0, [], [], bound) == Ok(([s1, s2], xs))
  {
    assert SomeCompares([], s1) == Ok(false);
    KnownStructuredSetStep(xs, 0, [], [], bound, Shaped(s1, xs[0]), false);
    assert [] + [s1] == [s1] && [] + [xs[0]] == [xs[0]];
    SecondDistinctMember(xs, bound, s1, s2);
  }

  lemma SecondDistinctMember(xs: seq<Value>, bound: nat, s1: Value, s2: Value)
    requires |xs| == 2 && TypeOf(xs[1]) == Object
    requires forall x :: x in xs ==> Size(x) < bound
    requires ShapeOf(xs[1]) == Ok(Shaped(s2, xs[1])) && DeepCompareShapes(s1, s2) == Ok(false)
    ensures ShapeSetLoop(xs, 1, [s1], [xs[0]], bound) == Ok(([s1, s2], xs))
  {
    assert SomeCompares([s1], s2) == Ok(false) by {
      assert [s1][1..] == [];
    }
    KnownStructuredSetStep(xs, 1, [s1], [xs[0]], bound, Shaped(s2, xs[1]), false);
    assert [s1] + [s2] == [s1, s2] && [xs[0]] + [xs[1]] == xs;
    SetLoopEnd(xs, [s1, s2], xs, bound);
  }

  /**
   * `{a: [[[1]], [5, 6]]}` shapes to `{a: [[[0], undefined], [0, 0]]}`,
   * which serialises as `{"a":[[[0],null],[0,0]]}`.
   */
  lemma HoleReadsAsUndefined()
    ensures var fs := [Field("a", Arr([Arr([Arr([Num(1)])]), Arr([Num(5), Num(6)])]))];
            ShapeOf(Obj(fs)).Ok? &&
            ShapeOf(Obj(fs)).value.shape == Obj([Field("a", Arr([Arr([Arr([Num(0)]), Undef]), Arr([Num(0), Num(0)])]))])
  {
    var a1, a2 := Arr([Arr([Num(1)])]), Arr([Num(5), Num(6)]);
    var s1, s2 := Arr([Arr([Num(0)]), Undef]), Arr([Num(0), Num(0)]);
    HoleInArrayValue(a1, a2, s1, s2);
    SingleArrayField("a", [a1, a2], Shaped(Arr([s1, s2]), Arr([a1, a2])));
  }

  /** An object with one array field shapes to that field's element-shape set. */
  lemma SingleArrayField(k: string, xs: seq<Value>, a: Shaped)
    requires ArrayShape(xs) == Ok(a)
    ensures ShapeOf(Obj([Field(k, Arr(xs))])) == Ok(Shaped(Obj([Field(k, a.shape)]), Obj([Field(k, a.thing)])))
  {
    var fs := [Field(k, Arr(xs))];
    var bound := Size(Obj(fs));
    EntriesSmaller(Obj(fs));
    ArrayFieldStep(fs, 0, [], [], bound, a);
    assert [] + [Field(k, a.shape)] == [Field(k, a.shape)] && [] + [Field(k, a.thing)] == [Field(k, a.thing)];
    FieldsEnd(fs, [Field(k, a.shape)], [Field(k, a.thing)], bound);
    ObjectShapeUnfold(fs, [Field(k, a.shape)], [Field(k, a.thing)]);
  }

  /**
   * `[[1], [2]]` shapes to `[[0], [0], undefined]`, serialised as
   * `[[0],[0],null]`: the two sets go to indices 1 and 2.
   */
  lemma TwoNestedArraysShape(e1: Value, e2: Value, sh: Value)
    requires e1 == Arr([Num(1)]) && e2 == Arr([Num(2)]) && sh == Arr([Num(0)])
    ensures ShapeOf(Arr([e1, e2])) == Ok(Shaped(Arr([sh, sh, Undef]), Arr([e1, e2])))
  {
    var xs := [e1, e2];
    OneDigitNames();
    assert !CodeUnitLess("2", "1");
    SortOrderedPair(e1, e2);
    var bound := Size(Arr(xs));
    AllElementsSmaller(xs);
    var slots2 := TwoNestedArraysLoop(xs, bound, sh);
    ArrayShapeUnfold(xs, slots2, xs);
  }

  lemma TwoNestedArraysLoop(xs: seq<Value>, bound: nat, sh: Value) returns (slots2: seq<Slot>)
    requires xs == [Arr([Num(1)]), Arr([Num(2)])] && sh == Arr([Num(0)])
    requires forall x :: x in xs ==> Size(x) < bound
    ensures ShapeElements(xs, 0, [], [], bound) == Ok((slots2, xs))
    ensures SortedSlots(slots2) == [sh, sh, Undef]
  {
    OneDigitNames();
    OneNumberArray(1);
    ArrayElementStep(xs, 0, [], [], bound, Shaped(sh, xs[0]));
    var slots1 := SetProperty([], "1", sh);
    HoleThenItem(slots1, sh);
    assert [] + [xs[0]] == [xs[0]];
    slots2 := SecondNestedArray(xs, bound, sh, slots1);
  }

  lemma SecondNestedArray(xs: seq<Value>, bound: nat, sh: Value, slots1: seq<Slot>) returns (slots2: seq<Slot>)
    requires xs == [Arr([Num(1)]), Arr([Num(2)])] && sh == Arr([Num(0)]) && slots1 == [Hole, Item(sh)]
    requires forall x :: x in xs ==> Size(x) < bound
    ensures ShapeElements(xs, 1, slots1, [xs[0]], bound) == Ok((slots2, xs))
    ensures SortedSlots(slots2) == [sh, sh, Undef]
  {
    OneDigitNames();
    OneNumberArray(2);
    ArrayElementStep(xs, 1, slots1, [xs[0]], bound, Shaped(sh, xs[1]));
    slots2 := SetProperty(slots1, "2", sh);
    TwoItemsAfterHole(slots1, slots2, sh);
    assert [xs[0]] + [xs[1]] == xs;
    ElementsEnd(xs, slots2, xs, bound);
  }

  /** Writing at index 2 after the hole and the item at 1 leaves the hole last after sorting. */
  lemma TwoItemsAfterHole(slots1: seq<Slot>, slots2: seq<Slot>, sh: Value)
    requires slots1 == [Hole, Item(sh)] && slots2 == SetProperty(slots1, "2", sh)
    ensures SortedSlots(slots2) == [sh, sh, Undef]
  {
    assert slots2 == [Hole, Item(sh), Item(sh)] by {
      OneDigitNames();
    }
    HoleThenTwoItems(slots2, sh);
  }

  lemma HoleThenTwoItems(slots: seq<Slot>, sh: Value)
    requires slots == [Hole, Item(sh), Item(sh)]
    ensures SortedSlots(slots) == [sh, sh, Undef]
  {
    assert Items(slots) == [sh, sh] by {
      assert Items([Item(sh)]) == [sh] + Items([]);
      assert Items([Item(sh), Item(sh)]) == [sh] + Items([Item(sh)]);
      assert Items(slots) == [] + Items([Item(sh), Item(sh)]);
    }
    SortTiedPair(sh, sh);
    var r := SortedSlots(slots);
    assert r[..2] == [sh, sh] by {
      assert multiset(r[..2]) == multiset{sh, sh};
    }
  }

  /**
   * Shaping that serialised shape again gives `[[0], null]`, not the shape
   * itself: the two equal sets are written to the same index and null
   * takes the place of the hole.
   */
  lemma ReshapingIsNotIdempotent(sh: Value)
    requires sh == Arr([Num(0)])
    ensures ShapeOf(Arr([sh, sh, Null])) == Ok(Shaped(Arr([sh, Null]), Arr([sh, sh, Null])))
  {
    var xs := [sh, sh, Null];
    ReshapedSorted(sh);
    var bound := Size(Arr(xs));
    AllElementsSmaller(xs);
    ReshapedLoop(xs, bound, sh);
    NullAfterSet(sh);
    ArrayShapeUnfold(xs, [Item(sh), Item(Null)], xs);
  }

  lemma ReshapedLoop(xs: seq<Value>, bound: nat, sh: Value)
    requires sh == Arr([Num(0)]) && xs == [sh, sh, Null]
    requires forall x :: x in xs ==> Size(x) < bound
    ensures ShapeElements(xs, 0, [], [], bound) == Ok(([Item(sh), Item(Null)], xs))
  {
    OneNumberArray(0);
    OneDigitNames();
    ArrayElementStep(xs, 0, [], [], bound, Shaped(sh, sh));
    assert SetProperty([], "0", sh) == [Item(sh)];
    assert [] + [sh] == [sh];
    ReshapedRest(xs, bound, sh);
  }

  /** The second `[0]` lands on index 0 again, then null is pushed. */
  lemma ReshapedRest(xs: seq<Value>, bound: nat, sh: Value)
    requires sh == Arr([Num(0)]) && xs == [sh, sh, Null]
    requires forall x :: x in xs ==> Size(x) < bound
    ensures ShapeElements(xs, 1, [Item(sh)], [sh], bound) == Ok(([Item(sh), Item(Null)], xs))
  {
    OneNumberArray(0);
    OneDigitNames();
    ArrayElementStep(xs, 1, [Item(sh)], [sh], bound, Shaped(sh, sh));
    assert SetProperty([Item(sh)], "0", sh) == [Item(sh)];
    assert [sh] + [sh] == [sh, sh];
    ReshapedNull(xs, bound, sh);
  }

  lemma ReshapedNull(xs: seq<Value>, bound: nat, sh: Value)
    requires sh == Arr([Num(0)]) && xs == [sh, sh, Null]
    requires forall x :: x in xs ==> Size(x) < bound
    ensures ShapeElements(xs, 2, [Item(sh)], [sh, sh], bound) == Ok(([Item(sh), Item(Null)], xs))
  {
    NullAfterSet(sh);
    assert xs[2] == Null && TypeOf(Null) == Object;
    assert ShapeOf(Null) == Ok(Shaped(Null, Null));
    NewObjectElementStep(xs, 2, [Item(sh)], [sh, sh], bound, Shaped(Null, Null));
    assert [sh, sh] + [Null] == xs && [Item(sh)] + [Item(Null)] == [Item(sh), Item(Null)];
    ElementsEnd(xs, [Item(sh), Item(Null)], xs, bound);
  }

  /** `[[0], [0], null]` is already in sort order: "0", "0", "null". */
  lemma ReshapedSorted(sh: Value)
    requires sh == Arr([Num(0)])
    ensures SortByString([sh, sh, Null]) == [sh, sh, Null]
  {
    var xs := [sh, sh, Null];
    OneDigitNames();
    assert ToJsString(Null) == "null" && !CodeUnitLess("null", "0");
    SortTiedPair(sh, sh);
    assert xs[..2] == [sh, sh];
    assert InsertByString(Null, [sh, sh]) == [sh] + InsertByString(Null, [sh]);
    assert InsertByString(Null, [sh]) == [sh] + InsertByString(Null, []);
  }

  /** null matches no array in the set, so it is pushed, and the set and null stay in that order. */
  lemma NullAfterSet(sh: Value)
    requires sh == Arr([Num(0)])
    ensures Items([Item(sh)]) == [sh] && SomeCompares([sh], Null) == Ok(false)
    ensures SortedSlots([Item(sh), Item(Null)]) == [sh, Null]
  {
    assert Items([Item(sh)]) == [sh] + Items([]);
    assert [sh][1..] == [];
    assert Items([Item(sh), Item(Null)]) == [sh, Null] by {
      assert Items([Item(Null)]) == [Null] + Items([]);
      assert Items([Item(sh), Item(Null)]) == [sh] + Items([Item(Null)]);
    }
    OneDigitNames();
    assert ToJsString(sh) == "0" && ToJsString(Null) == "null" && !CodeUnitLess("null", "0");
    SortOrderedPair(sh, Null);
  }
}
