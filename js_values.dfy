/**
 * The JavaScript values the shape engine works on, and the pieces of JavaScript
 * semantics its code relies on: `typeof`, `Object.keys` with property reads,
 * `String(v)`, the code-unit order of strings, the argument-less
 * `Array.prototype.sort()` (a stable sort by string form that puts `undefined` last) and the names that
 * count as array indices.
 */
module JsValues {
  import opened Wrappers

  /**
   * A JSON value, or `undefined`. An object's fields are listed in
   * `Object.keys` order and their keys are distinct, as in every JavaScript
   * object. `undefined` is not produced by `JSON.parse`; it is what a hole of
   * an array reads as, and deepShape leaves holes in the arrays it builds.
   */
  datatype Value =
    | Undef
    | Null
    | Bool(b: bool)
    | Num(n: int)
    | Str(s: string)
    | Arr(elems: seq<Value>)
    | Obj(fields: seq<Field>)

  datatype Field = Field(key: string, value: Value)

  /** The results of the `typeof` operator. */
  datatype JsType = Undefined | Boolean | Number | BigInt | String | Symbol | Function | Object

  /** `typeof v`: null, arrays and objects are all "object". */
  function TypeOf(v: Value): (t: JsType)
    ensures t == Object <==> v.Null? || v.Arr? || v.Obj?
    ensures t == Undefined <==> v.Undef?
    ensures t != BigInt && t != Symbol && t != Function
  {
    match v
    case Undef => Undefined
    case Bool(_) => Boolean
    case Num(_) => Number
    case Str(_) => String
    case _ => Object
  }

  /** A value that is not an object to `typeof`: `undefined`, a boolean, a number or a string. */
  predicate IsPrimitive(v: Value) {
    v.Undef? || v.Bool? || v.Num? || v.Str?
  }

  // ---------------------------------------------------------------------------
  // Size, the termination measure of the recursive algorithms
  // ---------------------------------------------------------------------------

  function Size(v: Value): nat {
    match v
    case Arr(xs) => 1 + SizeSeq(xs)
    case Obj(fs) => 1 + SizeFields(fs)
    case _ => 1
  }

  function SizeSeq(xs: seq<Value>): nat {
    if xs == [] then 0 else Size(xs[0]) + SizeSeq(xs[1..])
  }

  function SizeFields(fs: seq<Field>): nat {
    if fs == [] then 0 else Size(fs[0].value) + SizeFields(fs[1..])
  }

  lemma {:induction false} ElementSmaller(xs: seq<Value>, i: nat)
    requires i < |xs|
    ensures Size(xs[i]) < Size(Arr(xs))
  {
    if i > 0 {
      ElementSmaller(xs[1..], i - 1);
    }
  }

  lemma {:induction false} FieldSmaller(fs: seq<Field>, i: nat)
    requires i < |fs|
    ensures Size(fs[i].value) < Size(Obj(fs))
  {
    if i > 0 {
      FieldSmaller(fs[1..], i - 1);
    }
  }

  lemma MemberSmaller(xs: seq<Value>, x: Value)
    requires x in xs
    ensures Size(x) < Size(Arr(xs))
  {
    var i :| 0 <= i < |xs| && xs[i] == x;
    ElementSmaller(xs, i);
  }

  lemma AllElementsSmaller(xs: seq<Value>)
    ensures forall x :: x in xs ==> Size(x) < Size(Arr(xs))
  {
    forall x | x in xs ensures Size(x) < Size(Arr(xs)) {
      MemberSmaller(xs, x);
    }
  }

  lemma {:induction false} SizeFieldsAppend(fs: seq<Field>, gs: seq<Field>)
    ensures SizeFields(fs + gs) == SizeFields(fs) + SizeFields(gs)
  {
    if fs != [] {
      assert (fs + gs)[1..] == fs[1..] + gs;
      SizeFieldsAppend(fs[1..], gs);
    } else {
      assert fs + gs == gs;
    }
  }

  lemma {:induction false} SizeSeqAppend(xs: seq<Value>, ys: seq<Value>)
    ensures SizeSeq(xs + ys) == SizeSeq(xs) + SizeSeq(ys)
  {
    if xs != [] {
      assert (xs + ys)[1..] == xs[1..] + ys;
      SizeSeqAppend(xs[1..], ys);
    } else {
      assert xs + ys == ys;
    }
  }

  // ---------------------------------------------------------------------------
  // Decimal numerals and array-index property names
  // ---------------------------------------------------------------------------

  function Digit(d: nat): char
    requires d < 10
  {
    ('0' as int + d) as char
  }

  predicate IsDigit(c: char) {
    '0' <= c <= '9'
  }

  /** The decimal numeral of `n`, as `String(n)` writes it. */
  function NatToString(n: nat): (s: string)
    ensures |s| > 0 && forall i :: 0 <= i < |s| ==> IsDigit(s[i])
    ensures n >= 10 ==> s[0] != '0'
  {
    if n < 10 then [Digit(n)] else NatToString(n / 10) + [Digit(n % 10)]
  }

  /** `String(n)` for an integral number below 1e21 in magnitude. */
  function IntToString(n: int): string {
    if n < 0 then "-" + NatToString(-n) else NatToString(n)
  }

  function DigitsValue(s: string): nat
    requires forall i :: 0 <= i < |s| ==> IsDigit(s[i])
  {
    if s == [] then 0
    else
      assert IsDigit(s[|s| - 1]);
      10 * DigitsValue(s[..|s| - 1]) + (s[|s| - 1] as int - '0' as int)
  }

  /** The largest array index, 2^32 - 2. */
  const MaxArrayIndex: nat := 0xFFFF_FFFE

  /**
   * The index a property name denotes on an array, if any: a canonical
   * decimal numeral (no sign, no leading zero) no larger than 2^32 - 2.
   */
  function ArrayIndex(name: string): Option<nat> {
    if |name| > 0 && (forall i :: 0 <= i < |name| ==> IsDigit(name[i]))
       && (name[0] != '0' || |name| == 1) && DigitsValue(name) <= MaxArrayIndex
    then Some(DigitsValue(name))
    else None
  }

  // ---------------------------------------------------------------------------
  // String(v), the key the argument-less sort orders by
  // ---------------------------------------------------------------------------

  /** `String(v)`; an array joins its elements with "," and writes null and undefined as "". */
  function ToJsString(v: Value): string {
    match v
    case Undef => "undefined"
    case Null => "null"
    case Bool(b) => if b then "true" else "false"
    case Num(n) => IntToString(n)
    case Str(s) => s
    case Obj(_) => "[object Object]"
    case Arr(xs) => JoinElements(xs)
  }

  function JoinElements(xs: seq<Value>): string {
    if xs == [] then ""
    else
      var head := if xs[0].Null? || xs[0].Undef? then "" else ToJsString(xs[0]);
      if |xs| == 1 then head else head + "," + JoinElements(xs[1..])
  }

  /**
   * The order of JavaScript's string comparison: a proper prefix comes first,
   * otherwise the first differing unit decides.
   */
  predicate CodeUnitLess(a: string, b: string) {
    if |a| == 0 then |b| > 0
    else if |b| == 0 then false
    else if a[0] != b[0] then a[0] < b[0]
    else CodeUnitLess(a[1..], b[1..])
  }

  // ---------------------------------------------------------------------------
  // Array.prototype.sort() without a comparator
  // ---------------------------------------------------------------------------

  /**
   * What the argument-less `sort()` orders by: `undefined` (None) comes after
   * every other value, and the other values are ordered by `String(v)`.
   */
  function SortKey(v: Value): Option<string> {
    if v.Undef? then None else Some(ToJsString(v))
  }

  predicate KeyLess(a: Option<string>, b: Option<string>) {
    a.Some? && (b.None? || CodeUnitLess(a.value, b.value))
  }

  /** Inserts `x` after every element whose sort key is not greater than its own. */
  function InsertByString(x: Value, s: seq<Value>): seq<Value> {
    if s == [] then [x]
    else if KeyLess(SortKey(x), SortKey(s[0])) then [x] + s
    else [s[0]] + InsertByString(x, s[1..])
  }

  /** `a` may come before `b` in sort order: the key of `b` is not smaller. */
  predicate InOrder(a: Value, b: Value) {
    !KeyLess(SortKey(b), SortKey(a))
  }

  predicate SortedByString(s: seq<Value>) {
    forall i, j {:trigger InOrder(s[i], s[j])} :: 0 <= i < j < |s| ==> InOrder(s[i], s[j])
  }

  /**
   * `xs.sort()`: a stable sort by `String(v)` with `undefined` last. The
   * result is a rearrangement of the input; SortByStringSorted and
   * SortByStringStable give its order.
   */
  function SortByString(xs: seq<Value>): (r: seq<Value>)
    ensures multiset(r) == multiset(xs)
    ensures |r| == |xs|
  {
    if xs == [] then []
    else
      var n := |xs| - 1;
      var s := SortByString(xs[..n]);
      InsertByStringMultiset(xs[n], s);
      assert xs == xs[..n] + [xs[n]];
      var r := InsertByString(xs[n], s);
      assert |r| == |multiset(r)| == |multiset(xs)| == |xs|;
      r
  }

  /** The elements of `s` whose sort key is `k`, in order. */
  function WithKey(s: seq<Value>, k: Option<string>): seq<Value> {
    if s == [] then []
    else (if SortKey(s[0]) == k then [s[0]] else []) + WithKey(s[1..], k)
  }

  // ---------------------------------------------------------------------------
  // Object.keys and property reads
  // ---------------------------------------------------------------------------

  /**
   * `Object.keys(v)` paired with `v[key]`, for a value that is neither null,
   * undefined nor an array: an object's own fields, a string's indexed
   * characters, nothing for a boolean or a number.
   */
  function Entries(v: Value): (es: seq<Field>)
    requires !v.Null? && !v.Undef? && !v.Arr?
    ensures v.Obj? ==> es == v.fields
    ensures !v.Obj? ==> forall i :: 0 <= i < |es| ==> TypeOf(es[i].value) == String
  {
    match v
    case Obj(fs) => fs
    case Str(s) => CharEntries(s, 0)
    case _ => []
  }

  /** The fields "i", "i+1", ... of a string, each holding one character. */
  function CharEntries(s: string, i: nat): (es: seq<Field>)
    requires i <= |s|
    ensures |es| == |s| - i
    ensures forall j :: 0 <= j < |es| ==> es[j] == Field(NatToString(i + j), Str([s[i + j]]))
    decreases |s| - i
  {
    if i == |s| then [] else [Field(NatToString(i), Str([s[i]]))] + CharEntries(s, i + 1)
  }

  /** The entries that can hold further structure are smaller than their owner. */
  lemma EntriesSmaller(v: Value)
    requires !v.Null? && !v.Undef? && !v.Arr?
    ensures forall f :: f in Entries(v) && TypeOf(f.value) == Object ==> Size(f.value) < Size(v)
  {
    if v.Obj? {
      forall f | f in v.fields ensures Size(f.value) < Size(v) {
        var i :| 0 <= i < |v.fields| && v.fields[i] == f;
        FieldSmaller(v.fields, i);
      }
    }
  }

  /** `o[key]` on a field list: the value of the field named `key`. */
  function Lookup(fs: seq<Field>, key: string): (r: Option<Value>)
    ensures r.Some? <==> exists i :: 0 <= i < |fs| && fs[i].key == key
    ensures r.Some? ==> exists i :: 0 <= i < |fs| && fs[i].key == key && fs[i].value == r.value
  {
    if fs == [] then None
    else if fs[0].key == key then Some(fs[0].value)
    else
      var r := Lookup(fs[1..], key);
      assert r.Some? ==> exists i :: 0 <= i < |fs| - 1 && fs[1..][i].key == key && fs[1..][i].value == r.value;
      r
  }

  // ---------------------------------------------------------------------------
  // Properties of the string order and of the sort
  // ---------------------------------------------------------------------------

  /**
   * The comparison is the lexicographic order of code units: `a` comes first
   * when it is a proper prefix of `b`, or when at the first position where
   * they differ its unit is smaller.
   */
  lemma {:induction false} CodeUnitLessLexicographic(a: string, b: string)
    ensures CodeUnitLess(a, b) <==> LexLess(a, b)
  {
    if |a| > 0 && |b| > 0 {
      if a[0] != b[0] {
        LexLessHeadsDiffer(a, b);
      } else {
        CodeUnitLessLexicographic(a[1..], b[1..]);
        LexLessSameHead(a, b);
      }
    }
  }

  /** A proper prefix, or a smaller unit at the first difference. */
  predicate LexLess(a: string, b: string) {
    a < b || exists k :: 0 <= k < |a| && k < |b| && a[..k] == b[..k] && a[k] < b[k]
  }

  lemma LexLessHeadsDiffer(a: string, b: string)
    requires |a| > 0 && |b| > 0 && a[0] != b[0]
    ensures LexLess(a, b) <==> a[0] < b[0]
  {
    assert forall k :: 0 < k <= |a| && k <= |b| ==> a[..k][0] == a[0] && b[..k][0] == b[0];
    if a[0] < b[0] {
      assert a[..0] == b[..0];
    }
  }

  lemma LexLessSameHead(a: string, b: string)
    requires |a| > 0 && |b| > 0 && a[0] == b[0]
    ensures LexLess(a, b) <==> LexLess(a[1..], b[1..])
  {
    assert a == [a[0]] + a[1..] && b == [b[0]] + b[1..];
    assert a < b <==> a[1..] < b[1..];
    if k :| 0 <= k < |a[1..]| && k < |b[1..]| && a[1..][..k] == b[1..][..k] && a[1..][k] < b[1..][k] {
      assert a[..k + 1] == [a[0]] + a[1..][..k];
      assert b[..k + 1] == [b[0]] + b[1..][..k];
    }
    if k :| 0 <= k < |a| && k < |b| && a[..k] == b[..k] && a[k] < b[k] {
      assert k > 0;
      assert a[1..][..k - 1] == a[..k][1..] && b[1..][..k - 1] == b[..k][1..];
    }
  }

  lemma {:induction false} CodeUnitLessIrreflexive(a: string)
    ensures !CodeUnitLess(a, a)
  {
    if |a| > 0 {
      CodeUnitLessIrreflexive(a[1..]);
    }
  }

  lemma {:induction false} CodeUnitLessTotal(a: string, b: string)
    ensures a == b || CodeUnitLess(a, b) || CodeUnitLess(b, a)
  {
    if |a| > 0 && |b| > 0 && a[0] == b[0] {
      CodeUnitLessTotal(a[1..], b[1..]);
      if a[1..] == b[1..] {
        assert a == [a[0]] + a[1..] && b == [b[0]] + b[1..];
      }
    }
  }

  lemma {:induction false} CodeUnitLessTransitive(a: string, b: string, c: string)
    requires CodeUnitLess(a, b) && CodeUnitLess(b, c)
    ensures CodeUnitLess(a, c)
  {
    if |a| > 0 && a[0] == b[0] && b[0] == c[0] {
      CodeUnitLessTransitive(a[1..], b[1..], c[1..]);
    }
  }

  lemma KeyLessIrreflexive(k: Option<string>)
    ensures !KeyLess(k, k)
  {
    if k.Some? {
      CodeUnitLessIrreflexive(k.value);
    }
  }

  lemma KeyLessTotal(a: Option<string>, b: Option<string>)
    ensures a == b || KeyLess(a, b) || KeyLess(b, a)
  {
    if a.Some? && b.Some? {
      CodeUnitLessTotal(a.value, b.value);
    }
  }

  lemma KeyLessTransitive(a: Option<string>, b: Option<string>, c: Option<string>)
    requires KeyLess(a, b) && KeyLess(b, c)
    ensures KeyLess(a, c)
  {
    if c.Some? {
      CodeUnitLessTransitive(a.value, b.value, c.value);
    }
  }

  lemma {:induction false} InsertByStringMultiset(x: Value, s: seq<Value>)
    ensures multiset(InsertByString(x, s)) == multiset(s) + multiset{x}
  {
    if s != [] {
      var t := InsertByString(x, s[1..]);
      InsertByStringCases(x, s);
      InsertByStringMultiset(x, s[1..]);
      assert s == [s[0]] + s[1..];
      assert multiset([s[0]] + t) == multiset{s[0]} + multiset(t);
    }
  }

  /** Inserting into a non-empty sequence puts `x` in front or keeps the head. */
  lemma InsertByStringCases(x: Value, s: seq<Value>)
    requires s != []
    ensures InsertByString(x, s) == [x] + s || InsertByString(x, s) == [s[0]] + InsertByString(x, s[1..])
  {
  }

  lemma {:induction false} InsertByStringSpec(x: Value, s: seq<Value>)
    requires SortedByString(s)
    ensures SortedByString(InsertByString(x, s))
  {
    if s != [] {
      if KeyLess(SortKey(x), SortKey(s[0])) {
        InsertFirstSorted(x, s);
      } else {
        var t := InsertByString(x, s[1..]);
        SortedTail(s);
        InsertByStringSpec(x, s[1..]);
        InsertByStringMultiset(x, s[1..]);
        InsertLaterSorted(x, s, t);
      }
    }
  }

  lemma SortedTail(s: seq<Value>)
    requires SortedByString(s) && s != []
    ensures SortedByString(s[1..])
  {
    forall i, j | 0 <= i < j < |s[1..]| ensures InOrder(s[1..][i], s[1..][j]) {
      assert s[1..][j] == s[j + 1] && s[1..][i] == s[i + 1];
    }
  }

  /** Putting `x` in front of a sorted `s` whose head is greater keeps it sorted. */
  lemma InsertFirstSorted(x: Value, s: seq<Value>)
    requires SortedByString(s) && s != []
    requires KeyLess(SortKey(x), SortKey(s[0]))
    ensures SortedByString([x] + s)
  {
    var r := [x] + s;
    forall i, j | 0 <= i < j < |r|
      ensures InOrder(r[i], r[j])
    {
      if i == 0 {
        assert r[j] == s[j - 1];
        if j - 1 > 0 {
          assert InOrder(s[0], s[j - 1]);
        }
        if KeyLess(SortKey(s[j - 1]), SortKey(x)) {
          KeyLessTransitive(SortKey(s[j - 1]), SortKey(x), SortKey(s[0]));
          if j - 1 == 0 {
            KeyLessIrreflexive(SortKey(s[0]));
          }
        }
      } else {
        assert r[i] == s[i - 1] && r[j] == s[j - 1];
        assert InOrder(s[i - 1], s[j - 1]);
      }
    }
  }

  /** Keeping the head of a sorted `s` in front of `t`, a sorted rearrangement of its tail and `x`. */
  lemma InsertLaterSorted(x: Value, s: seq<Value>, t: seq<Value>)
    requires SortedByString(s) && s != []
    requires !KeyLess(SortKey(x), SortKey(s[0]))
    requires SortedByString(t) && multiset(t) == multiset(s[1..]) + multiset{x}
    ensures SortedByString([s[0]] + t)
  {
    var r := [s[0]] + t;
    forall i, j | 0 <= i < j < |r|
      ensures InOrder(r[i], r[j])
    {
      if i == 0 {
        assert r[j] == t[j - 1];
        assert r[j] in multiset(t);
        if r[j] != x {
          assert r[j] in multiset(s[1..]);
          var m :| 0 <= m < |s[1..]| && s[1..][m] == r[j];
          assert s[m + 1] == r[j];
          assert InOrder(s[0], s[m + 1]);
        }
      } else {
        assert r[i] == t[i - 1] && r[j] == t[j - 1];
        assert InOrder(t[i - 1], t[j - 1]);
      }
    }
  }

  /** The result of the sort is in order. */
  lemma {:induction false} SortByStringSorted(xs: seq<Value>)
    ensures SortedByString(SortByString(xs))
  {
    if xs != [] {
      var n := |xs| - 1;
      SortByStringSorted(xs[..n]);
      SortByStringUnfold(xs);
      InsertByStringSpec(xs[n], SortByString(xs[..n]));
    }
  }

  /** The sort inserts the last element into the sorted rest. */
  lemma SortByStringUnfold(xs: seq<Value>)
    requires xs != []
    ensures SortByString(xs) == InsertByString(xs[|xs| - 1], SortByString(xs[..|xs| - 1]))
  {
  }

  lemma SortByStringMembers(xs: seq<Value>, x: Value)
    ensures x in SortByString(xs) <==> x in xs
  {
    assert x in SortByString(xs) <==> x in multiset(SortByString(xs));
  }

  lemma {:induction false} WithKeyAppend(a: seq<Value>, b: seq<Value>, k: Option<string>)
    ensures WithKey(a + b, k) == WithKey(a, k) + WithKey(b, k)
  {
    if a == [] {
      assert a + b == b;
    } else {
      assert a + b == [a[0]] + (a[1..] + b) && a == [a[0]] + a[1..];
      WithKeyCons(a[0], a[1..] + b, k);
      WithKeyCons(a[0], a[1..], k);
      WithKeyAppend(a[1..], b, k);
    }
  }

  lemma WithKeyCons(x: Value, s: seq<Value>, k: Option<string>)
    ensures WithKey([x] + s, k) == (if SortKey(x) == k then [x] else []) + WithKey(s, k)
  {
    assert ([x] + s)[0] == x && ([x] + s)[1..] == s;
  }

  lemma {:induction false} NoneWithKey(s: seq<Value>, k: Option<string>)
    requires SortedByString(s) && s != []
    requires KeyLess(k, SortKey(s[0]))
    ensures WithKey(s, k) == []
  {
    KeyLessIrreflexive(k);
    if |s| > 1 {
      var k0, k1 := SortKey(s[0]), SortKey(s[1]);
      assert InOrder(s[0], s[1]);
      KeyLessTotal(k0, k1);
      if k0 != k1 {
        KeyLessTransitive(k, k0, k1);
      }
      assert SortedByString(s[1..]) by {
        forall i, j | 0 <= i < j < |s[1..]| ensures InOrder(s[1..][i], s[1..][j]) {
          assert s[1..][j] == s[j + 1] && s[1..][i] == s[i + 1];
        }
      }
      NoneWithKey(s[1..], k);
    }
  }

  lemma {:induction false} InsertByStringStable(x: Value, s: seq<Value>, k: Option<string>)
    requires SortedByString(s)
    ensures WithKey(InsertByString(x, s), k) == WithKey(s, k) + (if SortKey(x) == k then [x] else [])
  {
    if s == [] {
    } else if KeyLess(SortKey(x), SortKey(s[0])) {
      assert InsertByString(x, s) == [x] + s;
      InsertFrontStable(x, s, k);
    } else {
      var t := InsertByString(x, s[1..]);
      assert InsertByString(x, s) == [s[0]] + t;
      SortedTail(s);
      InsertByStringStable(x, s[1..], k);
      InsertLaterStable(x, s, t, k);
    }
  }

  lemma InsertFrontStable(x: Value, s: seq<Value>, k: Option<string>)
    requires SortedByString(s) && s != [] && KeyLess(SortKey(x), SortKey(s[0]))
    ensures WithKey([x] + s, k) == WithKey(s, k) + (if SortKey(x) == k then [x] else [])
  {
    WithKeyCons(x, s, k);
    if SortKey(x) == k {
      NoneWithKey(s, k);
    }
  }

  lemma InsertLaterStable(x: Value, s: seq<Value>, t: seq<Value>, k: Option<string>)
    requires s != []
    requires WithKey(t, k) == WithKey(s[1..], k) + (if SortKey(x) == k then [x] else [])
    ensures WithKey([s[0]] + t, k) == WithKey(s, k) + (if SortKey(x) == k then [x] else [])
  {
    var head, own := (if SortKey(s[0]) == k then [s[0]] else []), (if SortKey(x) == k then [x] else []);
    WithKeyCons(s[0], t, k);
    assert WithKey(s, k) == head + WithKey(s[1..], k);
    ConcatAssoc(head, WithKey(s[1..], k), own);
  }

  lemma ConcatAssoc(a: seq<Value>, b: seq<Value>, c: seq<Value>)
    ensures a + (b + c) == (a + b) + c
  {
  }

  /**
   * The sort is stable: the elements that share one sort key keep their
   * relative order. With the contract of SortByString this pins the result
   * down, so any stable sort by that key gives the same sequence.
   */
  lemma {:induction false} SortByStringStable(xs: seq<Value>, k: Option<string>)
    ensures WithKey(SortByString(xs), k) == WithKey(xs, k)
  {
    if xs != [] {
      var n := |xs| - 1;
      SortByStringStable(xs[..n], k);
      SortByStringSorted(xs[..n]);
      InsertStableStep(xs[..n], xs[n], SortByString(xs[..n]), k);
      assert xs[..n] + [xs[n]] == xs;
    }
  }

  /** One insertion of SortByString keeps the elements with key `k` in order. */
  lemma InsertStableStep(init: seq<Value>, x: Value, s: seq<Value>, k: Option<string>)
    requires SortedByString(s) && WithKey(s, k) == WithKey(init, k)
    ensures WithKey(InsertByString(x, s), k) == WithKey(init + [x], k)
  {
    InsertByStringStable(x, s, k);
    WithKeyAppend(init, [x], k);
  }

  lemma {:induction false} InsertByStringSize(x: Value, s: seq<Value>)
    ensures SizeSeq(InsertByString(x, s)) == Size(x) + SizeSeq(s)
  {
    if s != [] && !KeyLess(SortKey(x), SortKey(s[0])) {
      InsertByStringSize(x, s[1..]);
      assert ([s[0]] + InsertByString(x, s[1..]))[1..] == InsertByString(x, s[1..]);
    }
  }

  lemma {:induction false} SortByStringSize(xs: seq<Value>)
    ensures SizeSeq(SortByString(xs)) == SizeSeq(xs)
  {
    if xs != [] {
      var n := |xs| - 1;
      SortByStringSize(xs[..n]);
      InsertByStringSize(xs[n], SortByString(xs[..n]));
      assert xs == xs[..n] + [xs[n]];
      SizeSeqAppend(xs[..n], [xs[n]]);
    }
  }

  // ---------------------------------------------------------------------------
  // Array-index names are exactly the decimal numerals of 0 .. 2^32 - 2
  // ---------------------------------------------------------------------------

  lemma {:induction false} DigitsValueOfNatToString(n: nat)
    ensures DigitsValue(NatToString(n)) == n
  {
    if n >= 10 {
      var s := NatToString(n);
      assert s[..|s| - 1] == NatToString(n / 10);
      DigitsValueOfNatToString(n / 10);
    }
  }

  predicate IsNumeral(s: string) {
    |s| > 0 && (forall i :: 0 <= i < |s| ==> IsDigit(s[i])) && (s[0] != '0' || |s| == 1)
  }

  lemma {:induction false} NumeralPositive(s: string)
    requires IsNumeral(s) && |s| > 1
    ensures DigitsValue(s) >= 10
  {
    var p := s[..|s| - 1];
    if |p| > 1 {
      NumeralPositive(p);
    } else {
      assert p[0] == s[0];
    }
  }

  lemma {:induction false} NatToStringOfNumeral(s: string)
    requires IsNumeral(s)
    ensures NatToString(DigitsValue(s)) == s
  {
    if |s| > 1 {
      var p := s[..|s| - 1];
      assert p[0] == s[0];
      if |p| > 1 {
        NumeralPositive(p);
      } else {
        assert DigitsValue(p) == p[0] as int - '0' as int;
      }
      NatToStringOfNumeral(p);
      assert s == p + [s[|s| - 1]];
    }
  }

  /** A name is an array index exactly when it is the numeral of some n <= 2^32 - 2. */
  lemma ArrayIndexIsNumeral(name: string, n: nat)
    ensures ArrayIndex(name) == Some(n) <==> n <= MaxArrayIndex && NatToString(n) == name
  {
    if ArrayIndex(name) == Some(n) {
      NatToStringOfNumeral(name);
    }
    if n <= MaxArrayIndex && NatToString(n) == name {
      DigitsValueOfNatToString(n);
    }
  }

  /**
   * `String(n)` of an integral number names an array index exactly when n is
   * in 0 .. 2^32 - 2, and then it names index n; this is how a nested array
   * whose string form is a number lands on a slot of a top-level shape.
   */
  lemma NumberNameIsIndex(n: int)
    ensures ArrayIndex(ToJsString(Num(n))) == if 0 <= n <= MaxArrayIndex then Some(n) else None
  {
    if n < 0 {
      assert ToJsString(Num(n))[0] == '-';
    } else {
      DigitsValueOfNatToString(n);
      ArrayIndexIsNumeral(ToJsString(Num(n)), n);
    }
  }
}
