/**
 * The shape canonicaliser and the structural comparator of
 * src/diff-shapes.ts: `deepCompareShapes`, `detectElementType` and
 * `deepShape`.
 */
module DiffShapes {
  import opened Wrappers
  import opened JsValues

  // ===========================================================================
  // deepCompareShapes
  // ===========================================================================

  /**
   * A `Set` compares primitives, null and undefined by value; every array
   * and object is a reference of its own.
   */
  predicate KeptByValue(v: Value) {
    !v.Arr? && !v.Obj?
  }

  /**
   * `new Set(xs)` listed in insertion order: it holds exactly the elements of
   * `xs`; SetOfCounts says how often.
   */
  function SetOf(xs: seq<Value>): (s: seq<Value>)
    ensures forall x :: x in s <==> x in xs
  {
    if xs == [] then []
    else
      var n := |xs| - 1;
      var s := SetOf(xs[..n]);
      assert xs == xs[..n] + [xs[n]];
      if KeptByValue(xs[n]) && xs[n] in s then s else s + [xs[n]]
  }

  /** A value compared by value is in the set once; every array and object as often as it occurs. */
  lemma {:induction false} SetOfCounts(xs: seq<Value>)
    ensures forall x :: KeptByValue(x) ==> multiset(SetOf(xs))[x] == if x in xs then 1 else 0
    ensures forall x :: !KeptByValue(x) ==> multiset(SetOf(xs))[x] == multiset(xs)[x]
  {
    if xs != [] {
      var n := |xs| - 1;
      var front, e := xs[..n], xs[n];
      SetOfCounts(front);
      assert xs == front + [e];
      assert multiset(xs) == multiset(front) + multiset{e};
      if KeptByValue(e) && e in SetOf(front) {
        assert SetOf(xs) == SetOf(front);
      } else {
        assert multiset(SetOf(xs)) == multiset(SetOf(front)) + multiset{e};
      }
    }
  }

  /** The larger of the two sets (the first on a tie), which drives the outer loop. */
  function Outer(xs: seq<Value>, ys: seq<Value>): (s: seq<Value>)
    ensures s == SetOf(xs) || s == SetOf(ys)
    ensures |s| >= |SetOf(xs)| && |s| >= |SetOf(ys)|
    ensures |SetOf(xs)| == |SetOf(ys)| ==> s == SetOf(xs)
  {
    if |SetOf(ys)| > |SetOf(xs)| then SetOf(ys) else SetOf(xs)
  }

  /** The other set: together with Outer it is the pair of the two sets. */
  function Inner(xs: seq<Value>, ys: seq<Value>): (s: seq<Value>)
    ensures (s == SetOf(xs) && Outer(xs, ys) == SetOf(ys)) || (s == SetOf(ys) && Outer(xs, ys) == SetOf(xs))
    ensures |s| <= |Outer(xs, ys)|
  {
    if |SetOf(ys)| > |SetOf(xs)| then SetOf(xs) else SetOf(ys)
  }

  /** The measure that bounds every comparison made under the pair `o1`, `o2`. */
  function PairSize(o1: Value, o2: Value): nat {
    Size(o1) + Size(o2)
  }

  /**
   * The type-level structural equality of two shapes. An error stands for
   * the TypeError `Object.keys(null)` and `Object.keys(undefined)` throw.
   */
  function DeepCompareShapes(o1: Value, o2: Value): (r: Result<bool>)
    ensures o1.Null? && o2.Null? ==> r == Ok(true)
    ensures o1.Arr? != o2.Arr? ==> r == Ok(false)
    ensures TypeOf(o1) != Object && TypeOf(o2) != Object ==> r == Ok(TypeOf(o1) == TypeOf(o2))
    ensures !o1.Arr? && !o2.Arr? && o1.Null? != o2.Null? ==> r == Err(TypeError)
    ensures !o1.Arr? && !o2.Arr? && (TypeOf(o1) == Object || TypeOf(o2) == Object) && (o1.Undef? || o2.Undef?)
            ==> r == Err(TypeError)
    decreases Size(o1) + Size(o2), 3, 0
  {
    if o1.Null? && o2.Null? then Ok(true)
    else if o1.Arr? && o2.Arr? then
      AllElementsSmaller(o1.elems);
      AllElementsSmaller(o2.elems);
      CompareArrays(o1.elems, o2.elems, PairSize(o1, o2))
    else if o1.Arr? || o2.Arr? then Ok(false)
    else if TypeOf(o1) != Object && TypeOf(o2) != Object then Ok(TypeOf(o1) == TypeOf(o2))
    else if o1.Null? || o2.Null? || o1.Undef? || o2.Undef? then Err(TypeError)
    else
      var e1, e2 := Entries(o1), Entries(o2);
      EntriesSmaller(o1);
      EntriesSmaller(o2);
      if |e1| != |e2| then Ok(false)
      else CompareFields(e1, e2, PairSize(o1, o2))
  }

  /**
   * Two arrays: position by position when their lengths agree, otherwise
   * every member of the larger set against every member of the smaller.
   */
  function CompareArrays(xs: seq<Value>, ys: seq<Value>, ghost bound: nat): Result<bool>
    requires forall x, y :: x in xs && y in ys ==> Size(x) + Size(y) < bound
    decreases bound, 2, 0
  {
    if |xs| == |ys| then
      ComparePositions(xs, ys, bound)
    else
      var outer, inner := Outer(xs, ys), Inner(xs, ys);
      assert forall x :: x in SortByString(outer) ==> x in multiset(outer);
      assert forall y :: y in SortByString(inner) ==> y in multiset(inner);
      CompareAllPairs(SortByString(outer), SortByString(inner), bound)
  }

  /** Equal lengths: every position is compared (all of them, in order), then any false decides. */
  function ComparePositions(xs: seq<Value>, ys: seq<Value>, ghost bound: nat): Result<bool>
    requires |xs| == |ys|
    requires forall i :: 0 <= i < |xs| ==> Size(xs[i]) + Size(ys[i]) < bound
    decreases bound, 0, |xs|
  {
    if xs == [] then Ok(true)
    else
      var r := DeepCompareShapes(xs[0], ys[0]);
      if r.Err? then r
      else
        var rest := ComparePositions(xs[1..], ys[1..], bound);
        if rest.Err? then rest else Ok(r.value && rest.value)
  }

  /** Unequal lengths: every (outer, inner) pair, outer-major, stopping at the first that fails. */
  function CompareAllPairs(outer: seq<Value>, inner: seq<Value>, ghost bound: nat): Result<bool>
    requires forall x, y :: x in outer && y in inner ==> Size(x) + Size(y) < bound
    decreases bound, 1, |outer|
  {
    if outer == [] then Ok(true)
    else
      var row := CompareRow(outer[0], inner, bound);
      if row != Ok(true) then row else CompareAllPairs(outer[1..], inner, bound)
  }

  function CompareRow(x: Value, inner: seq<Value>, ghost bound: nat): Result<bool>
    requires forall y :: y in inner ==> Size(x) + Size(y) < bound
    decreases bound, 0, |inner|
  {
    if inner == [] then Ok(true)
    else
      var r := DeepCompareShapes(x, inner[0]);
      if r != Ok(true) then r else CompareRow(x, inner[1..], bound)
  }

  /**
   * Objects: the keys of the first are visited in order; a missing key or a
   * type mismatch gives false, and the first key whose two values are both
   * objects decides the whole comparison.
   */
  function CompareFields(fs1: seq<Field>, fs2: seq<Field>, ghost bound: nat): Result<bool>
    requires forall f, g :: f in fs1 && g in fs2 && TypeOf(f.value) == Object && TypeOf(g.value) == Object
                            ==> Size(f.value) + Size(g.value) < bound
    decreases bound, 0, |fs1|
  {
    if fs1 == [] then Ok(true)
    else
      match Lookup(fs2, fs1[0].key)
      case None => Ok(false)
      case Some(v2) =>
        var v1 := fs1[0].value;
        if TypeOf(v1) == Object then
          if TypeOf(v2) == Object then DeepCompareShapes(v1, v2) else Ok(false)
        else if TypeOf(v2) == Object then Ok(false)
        else if TypeOf(v1) != TypeOf(v2) then Ok(false)
        else CompareFields(fs1[1..], fs2, bound)
  }

  // ===========================================================================
  // detectElementType
  // ===========================================================================

  /** The representative of a `typeof` result. */
  function DetectElementType(t: JsType): (entry: Value)
    ensures t == Boolean ==> entry == Bool(true)
    ensures t == Number || t == BigInt ==> entry == Num(0)
    ensures t == String ==> entry == Str("")
    ensures entry == Undef <==> t == Undefined
    ensures entry == Null <==> t == Symbol || t == Function || t == Object
  {
    match t
    case Undefined => Undef
    case Boolean => Bool(true)
    case Number => Num(0)
    case String => Str("")
    case BigInt => Num(0)
    case _ => Null
  }

  /**
   * The representative of a value that is not an object in a shape: it
   * depends only on `typeof`, keeping the type and dropping the data.
   */
  function Representative(v: Value): (r: Value)
    requires IsPrimitive(v)
    ensures TypeOf(r) == TypeOf(v)
    ensures v.Bool? ==> r == Bool(true)
    ensures v.Num? ==> r == Num(0)
    ensures v.Str? ==> r == Str("")
    ensures v.Undef? ==> r == Undef
  {
    DetectElementType(TypeOf(v))
  }

  // ===========================================================================
  // deepShape
  // ===========================================================================

  /**
   * What `deepShape(thing)` yields: the shape it returns, and `thing` as the
   * caller sees it afterwards, since `deepShape` sorts every array it meets in
   * place.
   */
  datatype Shaped = Shaped(shape: Value, thing: Value)

  /** A slot of a shape array under construction: writes past the end leave holes. */
  datatype Slot = Hole | Item(shape: Value)

  /** `list.some(e => deepCompareShapes(e, entry))`. */
  function SomeCompares(list: seq<Value>, entry: Value): Result<bool> {
    if list == [] then Ok(false)
    else
      var r := DeepCompareShapes(list[0], entry);
      if r != Ok(false) then r else SomeCompares(list[1..], entry)
  }

  /** The values of the filled slots, in order. */
  function Items(slots: seq<Slot>): (items: seq<Value>)
    ensures |items| + CountHoles(slots) == |slots|
  {
    if slots == [] then []
    else (if slots[0].Item? then [slots[0].shape] else []) + Items(slots[1..])
  }

  function CountHoles(slots: seq<Slot>): nat {
    if slots == [] then 0 else (if slots[0].Hole? then 1 else 0) + CountHoles(slots[1..])
  }

  /**
   * `shape[name] = v` on an array: an index name fills that slot, extending the
   * array with holes when it lies past the end; any other name makes a
   * property that serialisation ignores.
   */
  function SetProperty(slots: seq<Slot>, name: string, v: Value): (r: seq<Slot>)
    ensures ArrayIndex(name).None? ==> r == slots
    ensures ArrayIndex(name).Some? ==>
              var n := ArrayIndex(name).value;
              |r| == (if n < |slots| then |slots| else n + 1) && r[n] == Item(v) &&
              forall i :: 0 <= i < |r| && i != n ==> r[i] == if i < |slots| then slots[i] else Hole
  {
    match ArrayIndex(name)
    case None => slots
    case Some(n) =>
      if n < |slots| then slots[n := Item(v)]
      else slots + seq(n - |slots|, _ => Hole) + [Item(v)]
  }

  /**
   * `shape.sort()` on an array with holes, as later reads see it: the filled
   * slots in sort order, then the holes, each read as `undefined` (and
   * written as null by serialisation).
   */
  function SortedSlots(slots: seq<Slot>): (r: seq<Value>)
    ensures |r| == |slots| && SortedByString(r)
    ensures multiset(r[..|Items(slots)|]) == multiset(Items(slots))
    ensures forall i :: |Items(slots)| <= i < |r| ==> r[i] == Undef
  {
    var sorted := SortByString(Items(slots));
    SortByStringSorted(Items(slots));
    UndefinedLast(sorted, CountHoles(slots));
    assert (sorted + seq(CountHoles(slots), _ => Undef))[..|sorted|] == sorted;
    sorted + seq(CountHoles(slots), _ => Undef)
  }

  /** Appending `undefined`s to a sorted sequence keeps it sorted: they sort last. */
  lemma UndefinedLast(s: seq<Value>, n: nat)
    requires SortedByString(s)
    ensures SortedByString(s + seq(n, _ => Undef))
  {
    var r := s + seq(n, _ => Undef);
    forall i, j | 0 <= i < j < |r| ensures InOrder(r[i], r[j]) {
      if j < |s| {
        assert r[i] == s[i] && r[j] == s[j];
      } else {
        assert r[j] == Undef;
      }
    }
  }

  /** The specification of `deepShape`. */
  function ShapeOf(thing: Value): (r: Result<Shaped>)
    ensures r.Ok? ==> Size(r.value.thing) == Size(thing)
    ensures r.Ok? ==> (r.value.shape.Null? <==> thing.Null?) && (r.value.shape.Arr? <==> thing.Arr?)
    ensures r.Ok? && !thing.Null? && !thing.Arr? ==> r.value.shape.Obj?
    ensures thing.Undef? ==> r == Err(TypeError)
    ensures r.Ok? && thing.Arr? ==> r.value.thing.Arr? && |r.value.thing.elems| == |thing.elems| && SortedByString(r.value.shape.elems)
    decreases Size(thing), 3, 0
  {
    if thing.Null? then Ok(Shaped(Null, Null))
    else if thing.Undef? then Err(TypeError)
    else if thing.Arr? then
      var xs := thing.elems;
      var sorted := SortByString(xs);
      SortByStringSize(xs);
      AllElementsSmaller(xs);
      assert forall y :: y in sorted ==> y in multiset(xs);
      assert sorted[0..] == sorted;
      (match ShapeElements(sorted, 0, [], [], Size(thing))
       case Err(e) => Err(e)
       case Ok(acc) => Ok(Shaped(Arr(SortedSlots(acc.0)), Arr(acc.1))))
    else
      // an object; a primitive shapes as an object too, over Object.keys of it
      var es := Entries(thing);
      EntriesSmaller(thing);
      assert es[0..] == es;
      match ShapeFields(es, 0, [], [], Size(thing))
      case Err(e) => Err(e)
      case Ok(acc) => Ok(Shaped(Obj(acc.0), if thing.Obj? then Obj(acc.1) else thing))
  }

  /**
   * The loop over an object's keys: an array value becomes its element-shape
   * set, an object or null value is shaped twice (the second shape is kept),
   * a primitive becomes its representative.
   */
  function ShapeFields(fs: seq<Field>, i: nat, shapes: seq<Field>, fields: seq<Field>, ghost bound: nat)
    : (r: Result<(seq<Field>, seq<Field>)>)
    requires i <= |fs|
    requires forall f :: f in fs && TypeOf(f.value) == Object ==> Size(f.value) < bound
    ensures r.Ok? ==> SizeFields(r.value.1) == SizeFields(fields) + SizeFields(fs[i..])
    ensures r.Ok? ==> |r.value.0| == |shapes| + |fs| - i && |r.value.1| == |fields| + |fs| - i
    decreases bound, 2, |fs| - i
  {
    if i == |fs| then Ok((shapes, fields))
    else
      var key, v := fs[i].key, fs[i].value;
      assert fs[i..][1..] == fs[i + 1..];
      assert fs[i] in fs;
      if v.Arr? then
        assert TypeOf(v) == Object && Size(v) < bound;
        match ArrayShape(v.elems)
        case Err(e) => Err(e)
        case Ok(a) =>
          SizeFieldsAppend(fields, [Field(key, a.thing)]);
          ShapeFields(fs, i + 1, shapes + [Field(key, a.shape)], fields + [Field(key, a.thing)], bound)
      else if TypeOf(v) == Object then
        match ShapeOf(v)
        case Err(e) => Err(e)
        case Ok(first) =>
          match ShapeOf(first.thing)
          case Err(e) => Err(e)
          case Ok(second) =>
            SizeFieldsAppend(fields, [Field(key, second.thing)]);
            ShapeFields(fs, i + 1, shapes + [Field(key, second.shape)], fields + [Field(key, second.thing)], bound)
      else
        SizeFieldsAppend(fields, [fs[i]]);
        ShapeFields(fs, i + 1, shapes + [Field(key, Representative(v))], fields + [fs[i]], bound)
  }

  /** The element-shape set of an array value. */
  function ArrayShape(xs: seq<Value>): (r: Result<Shaped>)
    ensures r.Ok? ==> Size(r.value.thing) == Size(Arr(xs)) && r.value.thing.Arr? && r.value.shape.Arr?
    ensures r.Ok? ==> |r.value.thing.elems| == |xs| && SortedByString(r.value.shape.elems)
    decreases Size(Arr(xs)), 1, 1
  {
    AllElementsSmaller(xs);
    ShapeArrayValue(xs, Size(Arr(xs)))
  }

  /**
   * An array-valued entry: sort it, collect the element shapes into a set
   * (structured shapes deduplicated with DeepCompareShapes, representatives
   * by value), and sort that set.
   */
  function ShapeArrayValue(xs: seq<Value>, ghost bound: nat): (r: Result<Shaped>)
    requires forall x :: x in xs ==> Size(x) < bound
    ensures r.Ok? ==> Size(r.value.thing) == Size(Arr(xs)) && r.value.thing.Arr? && r.value.shape.Arr?
    ensures r.Ok? ==> |r.value.thing.elems| == |xs| && SortedByString(r.value.shape.elems)
    decreases bound, 1, 0
  {
    var sorted := SortByString(xs);
    SortByStringSize(xs);
    assert forall y :: y in sorted ==> y in multiset(xs);
    match ShapeSetLoop(sorted, 0, [], [], bound)
    case Err(e) => Err(e)
    case Ok(acc) =>
      SortByStringSorted(acc.0);
      Ok(Shaped(Arr(SortByString(acc.0)), Arr(acc.1)))
  }

  function ShapeSetLoop(xs: seq<Value>, i: nat, members: seq<Value>, elems: seq<Value>, ghost bound: nat)
    : (r: Result<(seq<Value>, seq<Value>)>)
    requires i <= |xs|
    requires forall x :: x in xs ==> Size(x) < bound
    ensures r.Ok? ==> SizeSeq(r.value.1) == SizeSeq(elems) + SizeSeq(xs[i..])
    ensures r.Ok? ==> members <= r.value.0 && |r.value.1| == |elems| + |xs| - i
    decreases bound, 0, |xs| - i
  {
    if i == |xs| then Ok((members, elems))
    else
      var e := xs[i];
      assert xs[i..][1..] == xs[i + 1..];
      if TypeOf(e) == Object then
        match ShapeOf(e)
        case Err(err) => Err(err)
        case Ok(s) =>
          match SomeCompares(members, s.shape)
          case Err(err) => Err(err)
          case Ok(found) =>
            SizeSeqAppend(elems, [s.thing]);
            ShapeSetLoop(xs, i + 1, if found then members else members + [s.shape], elems + [s.thing], bound)
      else
        var rep := Representative(e);
        SizeSeqAppend(elems, [e]);
        ShapeSetLoop(xs, i + 1, if rep in members then members else members + [rep], elems + [e], bound)
  }

  /**
   * The loop over a top-level array's (sorted) elements: an array element's
   * set is written under the element's string form, an object or null
   * element is pushed unless an equal shape is already there (then it is
   * shaped again and dropped), a primitive's representative is always pushed.
   */
  function ShapeElements(xs: seq<Value>, i: nat, slots: seq<Slot>, elems: seq<Value>, ghost bound: nat)
    : (r: Result<(seq<Slot>, seq<Value>)>)
    requires i <= |xs|
    requires forall x :: x in xs ==> Size(x) < bound
    ensures r.Ok? ==> SizeSeq(r.value.1) == SizeSeq(elems) + SizeSeq(xs[i..])
    ensures r.Ok? ==> |r.value.1| == |elems| + |xs| - i
    decreases bound, 2, |xs| - i
  {
    if i == |xs| then Ok((slots, elems))
    else
      var e := xs[i];
      assert xs[i..][1..] == xs[i + 1..];
      if e.Arr? then
        match ArrayShape(e.elems)
        case Err(err) => Err(err)
        case Ok(a) =>
          SizeSeqAppend(elems, [a.thing]);
          ShapeElements(xs, i + 1, SetProperty(slots, ToJsString(a.thing), a.shape), elems + [a.thing], bound)
      else if TypeOf(e) == Object then
        match ShapeOf(e)
        case Err(err) => Err(err)
        case Ok(first) =>
          match SomeCompares(Items(slots), first.shape)
          case Err(err) => Err(err)
          case Ok(found) =>
            if !found then
              SizeSeqAppend(elems, [first.thing]);
              ShapeElements(xs, i + 1, slots + [Item(first.shape)], elems + [first.thing], bound)
            else
              // the write goes to a property named "[object Object]" or "null"
              match ShapeOf(first.thing)
              case Err(err) => Err(err)
              case Ok(second) =>
                SizeSeqAppend(elems, [second.thing]);
                ShapeElements(xs, i + 1, slots, elems + [second.thing], bound)
      else
        SizeSeqAppend(elems, [e]);
        ShapeElements(xs, i + 1, slots + [Item(Representative(e))], elems + [e], bound)
  }
}

/**
 * `deepShape` as the source runs it: loops that build the shape step by step
 * and recursive calls, each proved to compute ShapeOf.
 */
module DeepShapeImpl {
  import opened Wrappers
  import opened JsValues
  import opened DiffShapes

  method DeepShape(thing: Value) returns (r: Result<Shaped>)
    ensures r == ShapeOf(thing)
    decreases Size(thing), 3, 0
  {
    if thing.Null? {
      return Ok(Shaped(Null, Null));
    }
    if thing.Undef? {
      return Err(TypeError);
    }
    if thing.Arr? {
      var sorted := SortByString(thing.elems);
      AllElementsSmaller(thing.elems);
      assert forall y :: y in sorted ==> y in multiset(thing.elems);
      var acc := ShapeTopArray(sorted, Size(thing));
      if acc.Err? {
        return Err(acc.error);
      }
      return Ok(Shaped(Arr(SortedSlots(acc.value.0)), Arr(acc.value.1)));
    }
    var es := Entries(thing);
    EntriesSmaller(thing);
    var acc := ShapeObject(es, Size(thing));
    if acc.Err? {
      return Err(acc.error);
    }
    return Ok(Shaped(Obj(acc.value.0), if thing.Obj? then Obj(acc.value.1) else thing));
  }

  /** The loop over a top-level array's sorted elements, pushing into `shape`. */
  method ShapeTopArray(sorted: seq<Value>, ghost bound: nat) returns (r: Result<(seq<Slot>, seq<Value>)>)
    requires forall x :: x in sorted ==> Size(x) < bound
    ensures r == ShapeElements(sorted, 0, [], [], bound)
    decreases bound, 2, 0
  {
    var slots: seq<Slot> := [];
    var elems: seq<Value> := [];
    var i := 0;
    while i < |sorted|
      invariant i <= |sorted|
      invariant ShapeElements(sorted, i, slots, elems, bound) == ShapeElements(sorted, 0, [], [], bound)
    {
      var e := sorted[i];
      assert e in sorted;
      if e.Arr? {
        AllElementsSmaller(e.elems);
        var a := ShapeArray(e.elems, Size(e));
        if a.Err? {
          return Err(a.error);
        }
        slots := SetProperty(slots, ToJsString(a.value.thing), a.value.shape);
        elems := elems + [a.value.thing];
      } else if TypeOf(e) == Object {
        var first := DeepShape(e);
        if first.Err? {
          return Err(first.error);
        }
        var found := SomeCompares(Items(slots), first.value.shape);
        if found.Err? {
          return Err(found.error);
        }
        if !found.value {
          slots := slots + [Item(first.value.shape)];
          elems := elems + [first.value.thing];
        } else {
          var second := DeepShape(first.value.thing);
          if second.Err? {
            return Err(second.error);
          }
          elems := elems + [second.value.thing];
        }
      } else {
        slots := slots + [Item(Representative(e))];
        elems := elems + [e];
      }
      i := i + 1;
    }
    return Ok((slots, elems));
  }

  /** The loop over `Object.keys(thing)`, assigning `shape[key]`. */
  method ShapeObject(es: seq<Field>, ghost bound: nat) returns (r: Result<(seq<Field>, seq<Field>)>)
    requires forall f :: f in es && TypeOf(f.value) == Object ==> Size(f.value) < bound
    ensures r == ShapeFields(es, 0, [], [], bound)
    decreases bound, 2, 0
  {
    var shapes: seq<Field> := [];
    var fields: seq<Field> := [];
    var i := 0;
    while i < |es|
      invariant i <= |es|
      invariant ShapeFields(es, i, shapes, fields, bound) == ShapeFields(es, 0, [], [], bound)
    {
      var key, v := es[i].key, es[i].value;
      assert es[i] in es;
      if v.Arr? {
        assert TypeOf(v) == Object;
        AllElementsSmaller(v.elems);
        var a := ShapeArray(v.elems, Size(v));
        if a.Err? {
          return Err(a.error);
        }
        shapes := shapes + [Field(key, a.value.shape)];
        fields := fields + [Field(key, a.value.thing)];
      } else if TypeOf(v) == Object {
        var first := DeepShape(v);
        if first.Err? {
          return Err(first.error);
        }
        var second := DeepShape(first.value.thing);
        if second.Err? {
          return Err(second.error);
        }
        shapes := shapes + [Field(key, second.value.shape)];
        fields := fields + [Field(key, second.value.thing)];
      } else {
        shapes := shapes + [Field(key, Representative(v))];
        fields := fields + [es[i]];
      }
      i := i + 1;
    }
    return Ok((shapes, fields));
  }

  /** The array branch: `value.sort().forEach(...)` into a set, then the sorted set. */
  method ShapeArray(xs: seq<Value>, ghost bound: nat) returns (r: Result<Shaped>)
    requires forall x :: x in xs ==> Size(x) < bound
    ensures r == ShapeArrayValue(xs, bound)
    decreases bound, 1, 1
  {
    var sorted := SortByString(xs);
    assert forall y :: y in sorted ==> y in multiset(xs);
    var acc := FillSet(sorted, bound);
    if acc.Err? {
      return Err(acc.error);
    }
    return Ok(Shaped(Arr(SortByString(acc.value.0)), Arr(acc.value.1)));
  }

  /** The `forEach` over a sorted array value, adding element shapes to the set. */
  method FillSet(sorted: seq<Value>, ghost bound: nat) returns (r: Result<(seq<Value>, seq<Value>)>)
    requires forall x :: x in sorted ==> Size(x) < bound
    ensures r == ShapeSetLoop(sorted, 0, [], [], bound)
    decreases bound, 1, 0
  {
    var members: seq<Value> := [];
    var elems: seq<Value> := [];
    var i := 0;
    while i < |sorted|
      invariant i <= |sorted|
      invariant ShapeSetLoop(sorted, i, members, elems, bound) == ShapeSetLoop(sorted, 0, [], [], bound)
    {
      var e := sorted[i];
      assert e in sorted;
      if TypeOf(e) == Object {
        var s := DeepShape(e);
        if s.Err? {
          return Err(s.error);
        }
        var found := SomeCompares(members, s.value.shape);
        if found.Err? {
          return Err(found.error);
        }
        if !found.value {
          members := members + [s.value.shape];
        }
        elems := elems + [s.value.thing];
      } else {
        var rep := Representative(e);
        if rep !in members {
          members := members + [rep];
        }
        elems := elems + [e];
      }
      i := i + 1;
    }
    return Ok((members, elems));
  }
}
