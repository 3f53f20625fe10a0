/**
 The two aggregates of the usage example: `foo_t`, whose equality is defined
 through `pod_compare` over all four members, and `Bar`, whose equality is
 the compiler-defaulted member-wise one. Both have the layout
 `{ a; b; c[8]; d[4]; }`; the integer widths of the members play no part in
 an equality test and are modelled as `int`.
 */
module UsageExample {
  import opened DefaultCompare

  /** `foo_t`: `c` and `d` are C arrays of 8 and 4 elements. */
  datatype Foo = Foo(a: int, b: int, c: nat -> int, d: nat -> int)

  /** `Bar`: the same member list as `foo_t`. */
  datatype Bar = Bar(a: int, b: int, c: nat -> int, d: nat -> int)

  const CLen: nat := 8
  const DLen: nat := 4

  /** The member selectors of `foo_t`, `&foo_t::a` .. `&foo_t::d`. */
  datatype FooField = A | B | C | D

  /** Both aggregates, viewed as their members in declaration order. */
  function Members(a: int, b: int, c: nat -> int, d: nat -> int): (r: seq<Member>)
    ensures |r| == 4 && r[0] == Scalar(a) && r[1] == Scalar(b)
    ensures r[2] == CArray(CLen, c) && r[3] == CArray(DLen, d)
  {
    [Scalar(a), Scalar(b), CArray(CLen, c), CArray(DLen, d)]
  }

  function FooMembers(x: Foo): seq<Member>
  {
    Members(x.a, x.b, x.c, x.d)
  }

  function BarMembers(x: Bar): seq<Member>
  {
    Members(x.a, x.b, x.c, x.d)
  }

  /** Values of the same aggregate type always share a layout. */
  lemma MembersSameLayout(a: int, b: int, c: nat -> int, d: nat -> int,
                          a': int, b': int, c': nat -> int, d': nat -> int)
    ensures SameLayout(Members(a, b, c, d), Members(a', b', c', d'))
  {
  }

  /** The position of a member in declaration order. */
  function Index(f: FooField): (j: nat)
    ensures j < 4
  {
    match f
    case A => 0
    case B => 1
    case C => 2
    case D => 3
  }

  function Indices(sel: seq<FooField>): (r: seq<nat>)
    ensures |r| == |sel| && ValidSelectors(r, 4)
    ensures forall k :: 0 <= k < |sel| ==> r[k] == Index(sel[k])
  {
    if sel == [] then [] else [Index(sel[0])] + Indices(sel[1..])
  }

  /** Member `f` of `x` equals member `f` of `y`, arrays element by element. */
  predicate FooFieldEq(x: Foo, y: Foo, f: FooField)
  {
    match f
    case A => x.a == y.a
    case B => x.b == y.b
    case C => forall i: nat :: i < CLen ==> x.c(i) == y.c(i)
    case D => forall i: nat :: i < DLen ==> x.d(i) == y.d(i)
  }

  /** `pod_compare(lhs, rhs, sel...)` at type `foo_t`. */
  function FooCompare(lhs: Foo, rhs: Foo, sel: seq<FooField>): (r: bool)
    ensures r <==> forall k :: 0 <= k < |sel| ==> FooFieldEq(lhs, rhs, sel[k])
  {
    var l, rr, s := FooMembers(lhs), FooMembers(rhs), Indices(sel);
    MembersSameLayout(lhs.a, lhs.b, lhs.c, lhs.d, rhs.a, rhs.b, rhs.c, rhs.d);
    assert forall k :: 0 <= k < |sel| ==> (FieldEq(l[s[k]], rr[s[k]]) <==> FooFieldEq(lhs, rhs, sel[k]));
    PodCompare(l, rr, s)
  }

  /** `operator==(const foo_t&, const foo_t&)`: `pod_compare` with all four
      members selected. */
  function FooEq(lhs: Foo, rhs: Foo): (r: bool)
    ensures r <==>
              && lhs.a == rhs.a && lhs.b == rhs.b
              && (forall i: nat :: i < CLen ==> lhs.c(i) == rhs.c(i))
              && (forall i: nat :: i < DLen ==> lhs.d(i) == rhs.d(i))
  {
    var sel := [A, B, C, D];
    assert sel[0] == A && sel[1] == B && sel[2] == C && sel[3] == D;
    FooCompare(lhs, rhs, sel)
  }

  /** The hand-written comparison that `operator==` replaces: scalars
      directly, arrays through `std::to_array`. */
  function FooEqManual(lhs: Foo, rhs: Foo): (r: bool)
    ensures r <==>
              && lhs.a == rhs.a && lhs.b == rhs.b
              && (forall i: nat :: i < CLen ==> lhs.c(i) == rhs.c(i))
              && (forall i: nat :: i < DLen ==> lhs.d(i) == rhs.d(i))
  {
    TieHelperEqIff(CArray(CLen, lhs.c), CArray(CLen, rhs.c));
    TieHelperEqIff(CArray(DLen, lhs.d), CArray(DLen, rhs.d));
    && lhs.a == rhs.a
    && lhs.b == rhs.b
    && ToArray(CLen, lhs.c) == ToArray(CLen, rhs.c)
    && ToArray(DLen, lhs.d) == ToArray(DLen, rhs.d)
  }

  /** The `pod_compare`-based `operator==` agrees with the hand-written one,
      and both mean: all four members equal, arrays element by element. */
  lemma FooEqMatchesManual(lhs: Foo, rhs: Foo)
    ensures FooEq(lhs, rhs) == FooEqManual(lhs, rhs)
    ensures FooEq(lhs, rhs) <==>
              && lhs.a == rhs.a && lhs.b == rhs.b
              && (forall i: nat :: i < CLen ==> lhs.c(i) == rhs.c(i))
              && (forall i: nat :: i < DLen ==> lhs.d(i) == rhs.d(i))
  {
    var sel := [A, B, C, D];
    assert sel[0] == A && sel[1] == B && sel[2] == C && sel[3] == D;
    TieHelperEqIff(CArray(CLen, lhs.c), CArray(CLen, rhs.c));
    TieHelperEqIff(CArray(DLen, lhs.d), CArray(DLen, rhs.d));
  }

  /** Element-wise equality of indices `i .. n-1` of two C arrays, tested in
      increasing index order as a defaulted comparison does. */
  function ElementsFromEq(i: nat, n: nat, x: nat -> int, y: nat -> int): bool
    decreases n - i
  {
    i >= n || (x(i) == y(i) && ElementsFromEq(i + 1, n, x, y))
  }

  lemma {:induction false} ElementsFromEqIff(i: nat, n: nat, x: nat -> int, y: nat -> int)
    ensures ElementsFromEq(i, n, x, y) <==> forall e: nat :: i <= e < n ==> x(e) == y(e)
    decreases n - i
  {
    if i < n {
      ElementsFromEqIff(i + 1, n, x, y);
    }
  }

  /** `Bar`'s compiler-defaulted `operator==`: the members in declaration
      order, arrays element by element. */
  function BarDefaultEq(x: Bar, y: Bar): (r: bool)
    ensures r <==>
              && x.a == y.a && x.b == y.b
              && (forall i: nat :: i < CLen ==> x.c(i) == y.c(i))
              && (forall i: nat :: i < DLen ==> x.d(i) == y.d(i))
  {
    ElementsFromEqIff(0, CLen, x.c, y.c);
    ElementsFromEqIff(0, DLen, x.d, y.d);
    && x.a == y.a
    && x.b == y.b
    && ElementsFromEq(0, CLen, x.c, y.c)
    && ElementsFromEq(0, DLen, x.d, y.d)
  }

  /** `pod_compare` over all of `Bar`'s members agrees with the defaulted
      `operator==` that it imitates. */
  lemma BarDefaultEqAgrees(x: Bar, y: Bar)
    ensures SameLayout(BarMembers(x), BarMembers(y))
    ensures BarDefaultEq(x, y) == PodCompare(BarMembers(x), BarMembers(y), [0, 1, 2, 3])
  {
    MembersSameLayout(x.a, x.b, x.c, x.d, y.a, y.b, y.c, y.d);
    ElementsFromEqIff(0, CLen, x.c, y.c);
    ElementsFromEqIff(0, DLen, x.d, y.d);
    var sel: seq<nat> := [0, 1, 2, 3];
    assert sel[0] == 0 && sel[1] == 1 && sel[2] == 2 && sel[3] == 3;
  }

  /** The value `foo_t(1, 1, {1, 1})`: `c` is `{1, 1, 0, 0, 0, 0, 0, 0}` and
      `d` is value-initialised to `{0, 0, 0, 0}`. */
  const Sample: Foo := Foo(1, 1, (i: nat) => if i < 2 then 1 else 0, (i: nat) => 0)

  /** The value `Bar{1, 1, {1, 1}}`, initialised the same way. */
  const BarSample: Bar := Bar(1, 1, (i: nat) => if i < 2 then 1 else 0, (i: nat) => 0)

  /** The sample with `d[2]` changed from 0 to 1. */
  const SampleD2Changed: Foo := Sample.(d := (i: nat) => if i == 2 then 1 else Sample.d(i))

  /** Both comparisons of the usage example hold: each sample equals an
      identically built value, by `pod_compare` and by the defaulted `==`. */
  lemma SampleEqualsItself()
    ensures FooEq(Sample, Sample)
    ensures BarDefaultEq(BarSample, BarSample)
    ensures PodCompare(BarMembers(BarSample), BarMembers(BarSample), [0, 1, 2, 3])
  {
    PodCompareReflexive(FooMembers(Sample), [0, 1, 2, 3]);
    BarDefaultEqAgrees(BarSample, BarSample);
  }

  /** Changing `d[2]` on one operand turns the result to false; with `d`
      left out of the selectors the result stays true; setting `d[2]` back
      to its old value makes the operands compare equal again. */
  lemma SampleD2Scenario()
    ensures !FooEq(Sample, SampleD2Changed)
    ensures FooCompare(Sample, SampleD2Changed, [A, B, C])
    ensures FooEq(Sample, SampleD2Changed.(d := (i: nat) => if i == 2 then Sample.d(2) else SampleD2Changed.d(i)))
  {
    assert Sample.d(2) != SampleD2Changed.d(2);
    var sel' := [A, B, C];
    assert sel'[0] == A && sel'[1] == B && sel'[2] == C;
  }
}
