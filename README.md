# pod_compare: structural equality over selected members

This project models the `pod_compare` helper of `default_compare/main.cpp`.
The helper compares two values of the same plain aggregate type, but only on the members the caller lists.
It works in two steps:

- `tie_helper` normalises each selected member. A C array becomes a `std::array`, which has element-wise `==`. Any other member is wrapped by `std::tie` in a one-element tuple holding a reference to it.
- `tie_members` builds one tuple per operand, with one component per selector, in selector order. `pod_compare` then compares the two tuples.

The model also covers the usage example. `foo_t`'s `operator==` calls `pod_compare` with all four members. The project proves it agrees with the hand-written comparison in the comment beside it. `Bar` has the compiler-defaulted `operator==` that the helper imitates.

Modelling choices:

- A value of an aggregate type is the sequence of its members in declaration order (`DefaultCompare.Member`).
- A C array member `T[n]` is a length `n` and an element function `nat -> int`. A Dafny datatype holding a function has no compiled `==`, just as a C array has no value equality. Only the normalised form (`Tied`) can be compared.
- "Both operands have the same type `T`" is the precondition `SameLayout`: the same number of members, with the same kind and array length at each position.
- A selector is the index of a member. A selector list is a `seq<nat>`. Repeats are allowed, as the C++ parameter pack allows them.
- The compile-time `static_assert` that `T` is trivial and standard-layout is a matter of types here. A member is only ever a scalar or a one-dimensional array of scalars.
- `foo_t` and `Bar` are the datatypes `UsageExample.Foo` and `UsageExample.Bar`. Their `c` and `d` members are arrays of 8 and 4 elements.

## Model

| member | source | states |
|---|---|---|
| DefaultCompare.ToArray | default_compare/main.cpp:26 | `std::to_array` copies a C array of `n` elements into a sequence of length `n` whose element `i` is the array's element `i` |
| DefaultCompare.TieHelper | default_compare/main.cpp:24-33 | the array overload yields a `std::array` of the same length holding the same elements; any other member passes through with its value; the normalised shape is the member's kind |
| DefaultCompare.TieHelperEqIff | default_compare/main.cpp:24-33 | two members of the same kind normalise to equal values iff they are equal under the per-member rule (scalars by value, arrays at every index below the length) |
| DefaultCompare.TieMembers | default_compare/main.cpp:35-38 | the tuple has exactly one component per selector, and component `k` is the normalised member named by selector `k` |
| DefaultCompare.TieMembersSameShape | default_compare/main.cpp:35-38 | both operands give tuples of the same length as the selector list, with components of matching shape at every position |
| DefaultCompare.TieMembersEqIff | default_compare/main.cpp:36-37 | the two tuples are equal iff every selected member of `lhs` equals the same member of `rhs` |
| DefaultCompare.PodCompare | default_compare/main.cpp:40-44 | the result is true iff, for every selector, the selected members of the two operands are equal, arrays element by element |
| DefaultCompare.ArrayMemberEqIff | default_compare/main.cpp:24-27 | comparing on one array member of length `n` is true iff the operands agree at all indices `0 .. n-1` |
| DefaultCompare.SelectedElementChangeDetected | default_compare/main.cpp:43 | changing any single element of a selected array member to a different value makes the comparison false |
| DefaultCompare.RestoredElementCompareEqual | default_compare/main.cpp:43 | restoring the changed element gives a value that compares equal to the original again |
| DefaultCompare.UnselectedMembersIrrelevant | default_compare/main.cpp:36-37 | replacing members that are not selected changes neither the tuple nor the result |
| DefaultCompare.OneMemberDiffers | default_compare/main.cpp:36-37 | when two values differ in exactly one member, the comparison is false iff that member is selected |
| DefaultCompare.EmptySelectorsAlwaysEqual | default_compare/main.cpp:37 | with no selectors, two values of the same type always compare equal |
| DefaultCompare.PodCompareReflexive | default_compare/main.cpp:43 | every value compares equal to itself, whatever the selectors |
| DefaultCompare.PodCompareSymmetric | default_compare/main.cpp:43 | swapping the operands does not change the result |
| UsageExample.Members | default_compare/main.cpp:48-53 | a `foo_t` or `Bar` value is its two scalars `a`, `b` followed by the arrays `c[8]` and `d[4]` |
| UsageExample.MembersSameLayout | default_compare/main.cpp:11-15 | any two values of the aggregate share one layout, so every pair meets the same-type precondition |
| UsageExample.Indices | default_compare/main.cpp:57 | the member selectors `&foo_t::a` .. `&foo_t::d` map in order to valid member positions |
| UsageExample.FooCompare | default_compare/main.cpp:40-44 | `pod_compare` at type `foo_t` is true iff every selected member is equal, arrays element by element |
| UsageExample.FooEq | default_compare/main.cpp:56-58 | `foo_t`'s `operator==` is true iff `a` and `b` are equal and `c` and `d` agree at every index below 8 and 4 |
| UsageExample.FooEqManual | default_compare/main.cpp:62-67 | the hand-written comparison is true iff `a` and `b` are equal and `c` and `d` agree at every index below 8 and 4 |
| UsageExample.FooEqMatchesManual | default_compare/main.cpp:56-67 | `operator==` over all four members equals the hand-written `a == a && b == b && to_array(c) == to_array(c) && to_array(d) == to_array(d)`, and means all four members equal element by element |
| UsageExample.ElementsFromEqIff | default_compare/main.cpp:18 | `ElementsFromEq`, the defaulted element-by-element array test from index `i`, is true iff the arrays agree at every index from `i` up to the length |
| UsageExample.BarDefaultEq | default_compare/main.cpp:11-18 | `Bar`'s defaulted `operator==` is true iff `a` and `b` are equal and `c` and `d` agree at every index below 8 and 4 |
| UsageExample.BarDefaultEqAgrees | default_compare/main.cpp:11-19 | `Bar`'s defaulted `operator==` agrees with `pod_compare` over all of `Bar`'s members |
| UsageExample.SampleEqualsItself | default_compare/main.cpp:72-76 | `foo_t(1, 1, {1, 1})` equals itself under `operator==`, and `Bar{1, 1, {1, 1}}` equals itself under the defaulted `==` and under `pod_compare` over all members |
| UsageExample.SampleD2Scenario | default_compare/main.cpp:56-58 | changing `d[2]` on one operand makes `operator==` false; with `d` left out of the selectors the result is true; setting `d[2]` back to 0 makes the operands compare equal again |

## Left out

- `main` and its `std::cout` output: demonstration code and I/O.
- The `static_assert` on `std::is_standard_layout_v` and `std::is_trivial_v`: a compile-time check, captured only by which member types the model admits.
- Members that are themselves aggregates, and multi-dimensional arrays: the model's members are scalars and one-dimensional arrays of scalars only.
- DefaultCompare.PodCompareReflexive: scalar members are integral only; floating-point members, which a trivial standard-layout struct may have, are not modelled, so the IEEE cases where `==` is not reflexive (a NaN member) or equates different values (`+0.0` and `-0.0`) are not captured.
- Integer widths (`int16_t`, `uint32_t`, `uint16_t`, `char`), padding and bit layout: only `==` is ever applied to integral members, and it does not depend on the width, so every scalar is an unbounded `int`.
- Template and parameter-pack mechanics, pointer-to-member syntax and the reference semantics of `std::tie`: a selector is a member index, and a selected member is a value projected out of the record.
- Short-circuit evaluation order of the tuple comparison: the comparison has no side effects, so only its result is modelled.
- The parenthesised aggregate initialisation of the demonstration values: the samples are written out as the complete values it produces (missing elements and members zero).
