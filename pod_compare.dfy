/**
 Structural equality of plain aggregates over a caller-chosen list of members.

 A value of a plain aggregate type is modelled as the sequence of its data
 members in declaration order. A member is either a scalar or a fixed-size
 C array. A C array has no value equality of its own, which is why its
 element accessor is a function here (a datatype holding a function does not
 support `==` in compiled code): before two records can be compared, every
 selected member is normalised into a `Tied` value, which does.
 */
module DefaultCompare {

  /** One data member of a plain aggregate: a scalar, or a C array `T[n]`
      whose element `i` (for `i < n`) is `at(i)`. */
  datatype Member = Scalar(value: int) | CArray(n: nat, at: nat -> int)

  /** The static type of a member: what two members of the same field of the
      same aggregate type always share. */
  datatype Kind = ScalarKind | ArrayKind(len: nat)

  /** A normalised member: a reference to a scalar (what `std::tie` yields),
      or a `std::array` copy of a C array (what `std::to_array` yields). */
  datatype Tied = TiedRef(value: int) | StdArray(elems: seq<int>)

  function KindOf(m: Member): Kind
  {
    match m
    case Scalar(_) => ScalarKind
    case CArray(n, _) => ArrayKind(n)
  }

  function ShapeOf(t: Tied): Kind
  {
    match t
    case TiedRef(_) => ScalarKind
    case StdArray(s) => ArrayKind(|s|)
  }

  /** Two records are values of the same aggregate type: the same number of
      members, and at each position the same kind (and array length). */
  predicate SameLayout(lhs: seq<Member>, rhs: seq<Member>)
  {
    |lhs| == |rhs| && forall j :: 0 <= j < |lhs| ==> KindOf(lhs[j]) == KindOf(rhs[j])
  }

  /** Every selector names a member of a record with `count` members. */
  predicate ValidSelectors(sel: seq<nat>, count: nat)
  {
    forall k :: 0 <= k < |sel| ==> sel[k] < count
  }

  /** The per-member equality rule, stated independently of normalisation:
      scalars are equal when their values are, arrays when they have the same
      length and agree at every index below it. */
  predicate FieldEq(x: Member, y: Member)
  {
    match (x, y)
    case (Scalar(u), Scalar(v)) => u == v
    case (CArray(n, f), CArray(m, g)) => n == m && forall i: nat :: i < n ==> f(i) == g(i)
    case _ => false
  }

  /** Every selected member of `lhs` equals the same member of `rhs`. */
  predicate SelectedEq(lhs: seq<Member>, rhs: seq<Member>, sel: seq<nat>)
    requires ValidSelectors(sel, |lhs|) && |lhs| == |rhs|
  {
    forall k :: 0 <= k < |sel| ==> FieldEq(lhs[sel[k]], rhs[sel[k]])
  }

  /** `std::to_array`: copy the `n` elements of a C array into a sequence. */
  function ToArray(n: nat, at: nat -> int): (s: seq<int>)
    ensures |s| == n
    ensures forall i :: 0 <= i < n ==> s[i] == at(i)
  {
    seq(n, i requires 0 <= i => at(i))
  }

  /** `tie_helper`: the array overload copies a C array into a `std::array`,
      the other overload passes the member through unchanged. */
  function TieHelper(m: Member): (t: Tied)
    ensures ShapeOf(t) == KindOf(m)
    ensures m.Scalar? ==> t == TiedRef(m.value)
    ensures m.CArray? ==> forall i :: 0 <= i < m.n ==> t.elems[i] == m.at(i)
  {
    match m
    case Scalar(v) => TiedRef(v)
    case CArray(n, at) => StdArray(ToArray(n, at))
  }

  /** Two members of the same kind normalise to equal values exactly when they
      are equal under the per-member rule. */
  lemma TieHelperEqIff(x: Member, y: Member)
    requires KindOf(x) == KindOf(y)
    ensures TieHelper(x) == TieHelper(y) <==> FieldEq(x, y)
  {
    if x.CArray? {
      var s, t := TieHelper(x).elems, TieHelper(y).elems;
      if FieldEq(x, y) {
        assert forall i :: 0 <= i < |s| ==> s[i] == t[i];
        assert s == t;
      } else {
        var i: nat :| i < x.n && x.at(i) != y.at(i);
        assert s[i] != t[i];
      }
    }
  }

  /** `tie_members`: one normalised component per selector, in selector
      order (the expansion of the selector pack). */
  function TieMembers(obj: seq<Member>, sel: seq<nat>): (t: seq<Tied>)
    requires ValidSelectors(sel, |obj|)
    ensures |t| == |sel|
    ensures forall k :: 0 <= k < |sel| ==> t[k] == TieHelper(obj[sel[k]])
  {
    if sel == [] then [] else [TieHelper(obj[sel[0]])] + TieMembers(obj, sel[1..])
  }

  /** Both operands of a comparison yield tuples of the same length, and the
      components at each position have the same shape. */
  lemma TieMembersSameShape(lhs: seq<Member>, rhs: seq<Member>, sel: seq<nat>)
    requires SameLayout(lhs, rhs) && ValidSelectors(sel, |lhs|)
    ensures |TieMembers(lhs, sel)| == |TieMembers(rhs, sel)| == |sel|
    ensures forall k :: 0 <= k < |sel| ==>
              ShapeOf(TieMembers(lhs, sel)[k]) == ShapeOf(TieMembers(rhs, sel)[k]) == KindOf(lhs[sel[k]])
  {
  }

  /** The two tuples are equal exactly when every selected member is. */
  lemma TieMembersEqIff(lhs: seq<Member>, rhs: seq<Member>, sel: seq<nat>)
    requires SameLayout(lhs, rhs) && ValidSelectors(sel, |lhs|)
    ensures TieMembers(lhs, sel) == TieMembers(rhs, sel) <==> SelectedEq(lhs, rhs, sel)
  {
    var tl, tr := TieMembers(lhs, sel), TieMembers(rhs, sel);
    forall k | 0 <= k < |sel|
      ensures tl[k] == tr[k] <==> FieldEq(lhs[sel[k]], rhs[sel[k]])
    {
      TieHelperEqIff(lhs[sel[k]], rhs[sel[k]]);
    }
    if SelectedEq(lhs, rhs, sel) {
      assert tl == tr;
    }
  }

  /** `pod_compare`: compare the two tuples of selected, normalised members.
      Both records must be values of the same plain aggregate type, which the
      source enforces at compile time. */
  function PodCompare(lhs: seq<Member>, rhs: seq<Member>, sel: seq<nat>): (r: bool)
    requires SameLayout(lhs, rhs) && ValidSelectors(sel, |lhs|)
    ensures r <==> forall k :: 0 <= k < |sel| ==> FieldEq(lhs[sel[k]], rhs[sel[k]])
  {
    TieMembersEqIff(lhs, rhs, sel);
    TieMembers(lhs, sel) == TieMembers(rhs, sel)
  }

  /** An array member of length `n` compares equal exactly when all indices
      `0 .. n-1` match; elements beyond the length play no part. */
  lemma ArrayMemberEqIff(lhs: seq<Member>, rhs: seq<Member>, j: nat)
    requires SameLayout(lhs, rhs) && j < |lhs| && lhs[j].CArray?
    ensures PodCompare(lhs, rhs, [j]) <==>
              forall i :: 0 <= i < lhs[j].n ==> lhs[j].at(i) == rhs[j].at(i)
  {
    assert [j][0] == j;
  }

  /** The record `obj` with element `i` of its array member `j` set to `v`. */
  function SetElement(obj: seq<Member>, j: nat, i: nat, v: int): (r: seq<Member>)
    requires j < |obj| && obj[j].CArray?
    ensures SameLayout(obj, r)
    ensures r[j].CArray? && r[j].at(i) == v
    ensures forall e: nat :: e != i ==> r[j].at(e) == obj[j].at(e)
    ensures forall e :: 0 <= e < |obj| && e != j ==> r[e] == obj[e]
  {
    obj[j := CArray(obj[j].n, (e: nat) => if e == i then v else obj[j].at(e))]
  }

  /** Changing one element of a selected array member makes the records
      compare unequal. */
  lemma SelectedElementChangeDetected(obj: seq<Member>, sel: seq<nat>, k: nat, i: nat, v: int)
    requires ValidSelectors(sel, |obj|) && k < |sel| && obj[sel[k]].CArray?
    requires i < obj[sel[k]].n && obj[sel[k]].at(i) != v
    ensures !PodCompare(obj, SetElement(obj, sel[k], i, v), sel)
  {
    var changed := SetElement(obj, sel[k], i, v);
    assert !FieldEq(obj[sel[k]], changed[sel[k]]);
  }

  /** Restoring the changed element gives a record that compares equal to
      the original again. */
  lemma RestoredElementCompareEqual(obj: seq<Member>, sel: seq<nat>, j: nat, i: nat, v: int)
    requires ValidSelectors(sel, |obj|) && j < |obj| && obj[j].CArray? && i < obj[j].n
    ensures PodCompare(obj, SetElement(SetElement(obj, j, i, v), j, i, obj[j].at(i)), sel)
  {
    var restored := SetElement(SetElement(obj, j, i, v), j, i, obj[j].at(i));
    assert FieldEq(obj[j], restored[j]);
    forall k | 0 <= k < |sel| ensures FieldEq(obj[sel[k]], restored[sel[k]]) {
      MemberReflexive(obj[sel[k]]);
    }
  }

  /** Changing a member that is not selected never changes the result: only
      the selected members are read. */
  lemma UnselectedMembersIrrelevant(lhs: seq<Member>, lhs': seq<Member>, rhs: seq<Member>, sel: seq<nat>)
    requires SameLayout(lhs, rhs) && SameLayout(lhs', rhs) && ValidSelectors(sel, |lhs|)
    requires forall k :: 0 <= k < |sel| ==> lhs'[sel[k]] == lhs[sel[k]]
    ensures PodCompare(lhs, rhs, sel) == PodCompare(lhs', rhs, sel)
    ensures TieMembers(lhs, sel) == TieMembers(lhs', sel)
  {
    var t, t' := TieMembers(lhs, sel), TieMembers(lhs', sel);
    assert forall k :: 0 <= k < |sel| ==> t[k] == t'[k];
  }

  /** Two records that differ in exactly one member `j`, where the member
      values differ: the comparison fails when `j` is selected and succeeds
      when it is not. */
  lemma OneMemberDiffers(lhs: seq<Member>, rhs: seq<Member>, sel: seq<nat>, j: nat)
    requires SameLayout(lhs, rhs) && ValidSelectors(sel, |lhs|) && j < |lhs|
    requires forall e :: 0 <= e < |lhs| && e != j ==> lhs[e] == rhs[e]
    requires !FieldEq(lhs[j], rhs[j])
    ensures PodCompare(lhs, rhs, sel) <==> j !in sel
  {
    if j !in sel {
      forall k | 0 <= k < |sel| ensures FieldEq(lhs[sel[k]], rhs[sel[k]]) {
        MemberReflexive(lhs[sel[k]]);
      }
    } else {
      var k :| 0 <= k < |sel| && sel[k] == j;
    }
  }

  lemma MemberReflexive(m: Member)
    ensures FieldEq(m, m)
  {
  }

  /** An empty selector list yields two empty tuples, which are equal. */
  lemma EmptySelectorsAlwaysEqual(lhs: seq<Member>, rhs: seq<Member>)
    requires SameLayout(lhs, rhs)
    ensures PodCompare(lhs, rhs, [])
  {
  }

  lemma PodCompareReflexive(x: seq<Member>, sel: seq<nat>)
    requires ValidSelectors(sel, |x|)
    ensures PodCompare(x, x, sel)
  {
  }

  lemma PodCompareSymmetric(x: seq<Member>, y: seq<Member>, sel: seq<nat>)
    requires SameLayout(x, y) && ValidSelectors(sel, |x|)
    ensures PodCompare(x, y, sel) == PodCompare(y, x, sel)
  {
  }
}
