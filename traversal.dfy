/**
 * The traversal every pass of the combination pipeline makes: every field
 * of every tuple of every section, in section-then-tuple-then-field order,
 * threading a state from one field to the next and replacing each field by
 * what its visit returns.
 *
 * The three levels are written as prefix recursions, so that "the first n
 * fields (tuples, sections) have been visited" is one function call; the
 * loops that implement a pass keep exactly that as their invariant.
 */
module Traversal {
  import opened Wrappers
  import opened Data

  datatype Visited<S> = Visited(field: Option<Field>, state: S)

  /** A visit of one field: the state so far, where the field is, its tuple's definition and source line, its value. */
  type FieldVisitor<!S> = (S, FieldHandle, TupleDefinition, Option<SourceLineNumber>, Option<Field>) -> Visited<S>

  function VisitFields<S>(visit: FieldVisitor<S>, st: S, s: nat, t: nat, tuple: IntermediateTuple, n: nat)
    : (r: (seq<Option<Field>>, S))
    requires n <= |tuple.fields|
    ensures |r.0| == n
    decreases n
  {
    if n == 0 then ([], st)
    else
      var before := VisitFields(visit, st, s, t, tuple, n - 1);
      var v := visit(before.1, FieldHandle(s, t, n - 1), tuple.definition, tuple.sourceLineNumbers, tuple.fields[n - 1]);
      (before.0 + [v.field], v.state)
  }

  function VisitTuple<S>(visit: FieldVisitor<S>, st: S, s: nat, t: nat, tuple: IntermediateTuple)
    : (r: (IntermediateTuple, S))
    ensures SameTupleShape(tuple, r.0)
  {
    var fs := VisitFields(visit, st, s, t, tuple, |tuple.fields|);
    (tuple.(fields := fs.0), fs.1)
  }

  function VisitTuples<S>(visit: FieldVisitor<S>, st: S, s: nat, section: IntermediateSection, n: nat)
    : (r: (seq<IntermediateTuple>, S))
    requires n <= |section.tuples|
    ensures |r.0| == n
    decreases n
  {
    if n == 0 then ([], st)
    else
      var before := VisitTuples(visit, st, s, section, n - 1);
      var v := VisitTuple(visit, before.1, s, n - 1, section.tuples[n - 1]);
      (before.0 + [v.0], v.1)
  }

  function VisitSection<S>(visit: FieldVisitor<S>, st: S, s: nat, section: IntermediateSection)
    : (r: (IntermediateSection, S))
  {
    var ts := VisitTuples(visit, st, s, section, |section.tuples|);
    (section.(tuples := ts.0), ts.1)
  }

  function VisitSections<S>(visit: FieldVisitor<S>, st: S, ss: seq<IntermediateSection>, n: nat)
    : (r: (seq<IntermediateSection>, S))
    requires n <= |ss|
    ensures |r.0| == n
    decreases n
  {
    if n == 0 then ([], st)
    else
      var before := VisitSections(visit, st, ss, n - 1);
      var v := VisitSection(visit, before.1, n - 1, ss[n - 1]);
      (before.0 + [v.0], v.1)
  }

  /** The whole pass: the new sections and the final state. */
  function VisitAll<S>(visit: FieldVisitor<S>, st: S, ss: seq<IntermediateSection>)
    : (r: (seq<IntermediateSection>, S))
    ensures SameShape(ss, r.0)
  {
    SectionsShape(visit, st, ss, |ss|);
    VisitSections(visit, st, ss, |ss|)
  }

  lemma {:induction false} TuplesShape<S>(visit: FieldVisitor<S>, st: S, s: nat, section: IntermediateSection, n: nat)
    requires n <= |section.tuples|
    ensures forall k :: 0 <= k < n ==> SameTupleShape(section.tuples[k], VisitTuples(visit, st, s, section, n).0[k])
    decreases n
  {
    if n > 0 {
      TuplesShape(visit, st, s, section, n - 1);
    }
  }

  lemma {:induction false} SectionsShape<S>(visit: FieldVisitor<S>, st: S, ss: seq<IntermediateSection>, n: nat)
    requires n <= |ss|
    ensures forall k :: 0 <= k < n ==> SameSectionShape(ss[k], VisitSections(visit, st, ss, n).0[k])
    decreases n
  {
    if n > 0 {
      SectionsShape(visit, st, ss, n - 1);
      var before := VisitSections(visit, st, ss, n - 1).1;
      TuplesShape(visit, before, n - 1, ss[n - 1], |ss[n - 1].tuples|);
    }
  }

  /** The state the pass is in when it reaches the field at h. */
  function StateAt<S>(visit: FieldVisitor<S>, st: S, ss: seq<IntermediateSection>, h: FieldHandle): S
    requires ValidHandle(ss, h)
  {
    var atSection := VisitSections(visit, st, ss, h.section).1;
    var atTuple := VisitTuples(visit, atSection, h.section, ss[h.section], h.tuple).1;
    VisitFields(visit, atTuple, h.section, h.tuple, TupleAt(ss, h), h.field).1
  }

  /** The visit of the field at h, made in the state the pass is in when it reaches it. */
  function VisitAt<S>(visit: FieldVisitor<S>, st: S, ss: seq<IntermediateSection>, h: FieldHandle): Visited<S>
    requires ValidHandle(ss, h)
  {
    var tuple := TupleAt(ss, h);
    visit(StateAt(visit, st, ss, h), h, tuple.definition, tuple.sourceLineNumbers, FieldAt(ss, h))
  }

  // ---------------------------------------------------------------------
  // Each field of the result is its own visit.

  lemma {:induction false} FieldsPrefix<S>(visit: FieldVisitor<S>, st: S, s: nat, t: nat, tuple: IntermediateTuple, n: nat, i: nat)
    requires i < n <= |tuple.fields|
    ensures VisitFields(visit, st, s, t, tuple, n).0[i]
         == visit(VisitFields(visit, st, s, t, tuple, i).1, FieldHandle(s, t, i),
                  tuple.definition, tuple.sourceLineNumbers, tuple.fields[i]).field
    decreases n
  {
    if i < n - 1 {
      FieldsPrefix(visit, st, s, t, tuple, n - 1, i);
    }
  }

  lemma {:induction false} TuplesPrefix<S>(visit: FieldVisitor<S>, st: S, s: nat, section: IntermediateSection, n: nat, k: nat)
    requires k < n <= |section.tuples|
    ensures VisitTuples(visit, st, s, section, n).0[k]
         == VisitTuple(visit, VisitTuples(visit, st, s, section, k).1, s, k, section.tuples[k]).0
    decreases n
  {
    if k < n - 1 {
      TuplesPrefix(visit, st, s, section, n - 1, k);
    }
  }

  lemma {:induction false} SectionsPrefix<S>(visit: FieldVisitor<S>, st: S, ss: seq<IntermediateSection>, n: nat, k: nat)
    requires k < n <= |ss|
    ensures VisitSections(visit, st, ss, n).0[k]
         == VisitSection(visit, VisitSections(visit, st, ss, k).1, k, ss[k]).0
    decreases n
  {
    if k < n - 1 {
      SectionsPrefix(visit, st, ss, n - 1, k);
    }
  }

  /** The field at h after the pass is what the visit of h, in the state the pass reached, returned. */
  lemma VisitedFieldAt<S>(visit: FieldVisitor<S>, st: S, ss: seq<IntermediateSection>, h: FieldHandle)
    requires ValidHandle(ss, h)
    ensures ValidHandle(VisitAll(visit, st, ss).0, h)
    ensures FieldAt(VisitAll(visit, st, ss).0, h) == VisitAt(visit, st, ss, h).field
  {
    var r := VisitAll(visit, st, ss).0;
    SameShapeHandles(ss, r, h);
    SectionsPrefix(visit, st, ss, |ss|, h.section);
    var atSection := VisitSections(visit, st, ss, h.section).1;
    var section := ss[h.section];
    TuplesPrefix(visit, atSection, h.section, section, |section.tuples|, h.tuple);
    var atTuple := VisitTuples(visit, atSection, h.section, section, h.tuple).1;
    var tuple := section.tuples[h.tuple];
    FieldsPrefix(visit, atTuple, h.section, h.tuple, tuple, |tuple.fields|, h.field);
  }

  // ---------------------------------------------------------------------
  // A property of the state that no visit takes away holds from the point
  // where it first holds to the end of the pass.

  ghost predicate Preserves<S(!new)>(visit: FieldVisitor<S>, P: S -> bool) {
    forall a, h, d, l, f :: P(a) ==> P(visit(a, h, d, l, f).state)
  }

  lemma {:induction false} FieldsPreserve<S(!new)>(visit: FieldVisitor<S>, P: S -> bool, st: S, s: nat, t: nat,
                                                   tuple: IntermediateTuple, a: nat, b: nat)
    requires Preserves(visit, P)
    requires a <= b <= |tuple.fields|
    requires P(VisitFields(visit, st, s, t, tuple, a).1)
    ensures P(VisitFields(visit, st, s, t, tuple, b).1)
    decreases b
  {
    if a < b {
      FieldsPreserve(visit, P, st, s, t, tuple, a, b - 1);
    }
  }

  lemma {:induction false} TuplesPreserve<S(!new)>(visit: FieldVisitor<S>, P: S -> bool, st: S, s: nat,
                                                   section: IntermediateSection, a: nat, b: nat)
    requires Preserves(visit, P)
    requires a <= b <= |section.tuples|
    requires P(VisitTuples(visit, st, s, section, a).1)
    ensures P(VisitTuples(visit, st, s, section, b).1)
    decreases b
  {
    if a < b {
      TuplesPreserve(visit, P, st, s, section, a, b - 1);
      var before := VisitTuples(visit, st, s, section, b - 1).1;
      var tuple := section.tuples[b - 1];
      FieldsPreserve(visit, P, before, s, b - 1, tuple, 0, |tuple.fields|);
    }
  }

  lemma {:induction false} SectionsPreserve<S(!new)>(visit: FieldVisitor<S>, P: S -> bool, st: S,
                                                     ss: seq<IntermediateSection>, a: nat, b: nat)
    requires Preserves(visit, P)
    requires a <= b <= |ss|
    requires P(VisitSections(visit, st, ss, a).1)
    ensures P(VisitSections(visit, st, ss, b).1)
    decreases b
  {
    if a < b {
      SectionsPreserve(visit, P, st, ss, a, b - 1);
      var before := VisitSections(visit, st, ss, b - 1).1;
      var section := ss[b - 1];
      assert VisitTuples(visit, before, b - 1, section, 0).1 == before;
      TuplesPreserve(visit, P, before, b - 1, section, 0, |section.tuples|);
      assert VisitSections(visit, st, ss, b).1 == VisitTuples(visit, before, b - 1, section, |section.tuples|).1;
    }
  }

  /** The state after the visit of h, carried to the end of the section that holds h. */
  lemma AfterVisitToSectionEnd<S(!new)>(visit: FieldVisitor<S>, P: S -> bool, st: S, ss: seq<IntermediateSection>, h: FieldHandle)
    requires Preserves(visit, P)
    requires ValidHandle(ss, h)
    requires P(VisitAt(visit, st, ss, h).state)
    ensures P(VisitSections(visit, st, ss, h.section + 1).1)
  {
    var section := ss[h.section];
    var tuple := TupleAt(ss, h);
    var atSection := VisitSections(visit, st, ss, h.section).1;
    var atTuple := VisitTuples(visit, atSection, h.section, section, h.tuple).1;
    assert VisitFields(visit, atTuple, h.section, h.tuple, tuple, h.field + 1).1 == VisitAt(visit, st, ss, h).state;
    FieldsPreserve(visit, P, atTuple, h.section, h.tuple, tuple, h.field + 1, |tuple.fields|);
    TuplesPreserve(visit, P, atSection, h.section, section, h.tuple + 1, |section.tuples|);
  }

  /** Whatever holds after the visit of h still holds when the pass reaches any later field. */
  lemma PreservedLater<S(!new)>(visit: FieldVisitor<S>, P: S -> bool, st: S, ss: seq<IntermediateSection>,
                                h: FieldHandle, h': FieldHandle)
    requires Preserves(visit, P)
    requires ValidHandle(ss, h) && ValidHandle(ss, h') && Precedes(h, h')
    requires P(VisitAt(visit, st, ss, h).state)
    ensures P(StateAt(visit, st, ss, h'))
  {
    var section := ss[h.section];
    var tuple := TupleAt(ss, h);
    var atSection := VisitSections(visit, st, ss, h.section).1;
    var atTuple := VisitTuples(visit, atSection, h.section, section, h.tuple).1;
    assert VisitFields(visit, atTuple, h.section, h.tuple, tuple, h.field + 1).1 == VisitAt(visit, st, ss, h).state;
    var tuple' := TupleAt(ss, h');
    if h.section == h'.section && h.tuple == h'.tuple {
      FieldsPreserve(visit, P, atTuple, h.section, h.tuple, tuple, h.field + 1, h'.field);
    } else {
      FieldsPreserve(visit, P, atTuple, h.section, h.tuple, tuple, h.field + 1, |tuple.fields|);
      var atSection' := VisitSections(visit, st, ss, h'.section).1;
      if h.section == h'.section {
        TuplesPreserve(visit, P, atSection, h.section, section, h.tuple + 1, h'.tuple);
      } else {
        TuplesPreserve(visit, P, atSection, h.section, section, h.tuple + 1, |section.tuples|);
        SectionsPreserve(visit, P, st, ss, h.section + 1, h'.section);
        TuplesPreserve(visit, P, atSection', h'.section, ss[h'.section], 0, h'.tuple);
      }
      var atTuple' := VisitTuples(visit, atSection', h'.section, ss[h'.section], h'.tuple).1;
      FieldsPreserve(visit, P, atTuple', h'.section, h'.tuple, tuple', 0, h'.field);
    }
  }

  /** Whatever holds after the visit of h still holds at the end of the pass. */
  lemma PreservedToEnd<S(!new)>(visit: FieldVisitor<S>, P: S -> bool, st: S, ss: seq<IntermediateSection>, h: FieldHandle)
    requires Preserves(visit, P)
    requires ValidHandle(ss, h)
    requires P(VisitAt(visit, st, ss, h).state)
    ensures P(VisitAll(visit, st, ss).1)
  {
    AfterVisitToSectionEnd(visit, P, st, ss, h);
    SectionsPreserve(visit, P, st, ss, h.section + 1, |ss|);
  }

  /** Whatever holds before the pass holds when it reaches any field. */
  lemma PreservedFromStart<S(!new)>(visit: FieldVisitor<S>, P: S -> bool, st: S, ss: seq<IntermediateSection>, h: FieldHandle)
    requires Preserves(visit, P)
    requires ValidHandle(ss, h)
    requires P(st)
    ensures P(StateAt(visit, st, ss, h))
  {
    SectionsPreserve(visit, P, st, ss, 0, h.section);
    var atSection := VisitSections(visit, st, ss, h.section).1;
    TuplesPreserve(visit, P, atSection, h.section, ss[h.section], 0, h.tuple);
    var atTuple := VisitTuples(visit, atSection, h.section, ss[h.section], h.tuple).1;
    FieldsPreserve(visit, P, atTuple, h.section, h.tuple, TupleAt(ss, h), 0, h.field);
  }

  // ---------------------------------------------------------------------
  // A part of the state that visits only append to ends up as the
  // concatenation, in traversal order, of what each field contributes.

  type FieldEmitter<T> = (FieldHandle, TupleDefinition, Option<SourceLineNumber>, Option<Field>) -> seq<T>

  function EmittedFields<T>(emit: FieldEmitter<T>, s: nat, t: nat, tuple: IntermediateTuple, n: nat): seq<T>
    requires n <= |tuple.fields|
    decreases n
  {
    if n == 0 then []
    else EmittedFields(emit, s, t, tuple, n - 1)
         + emit(FieldHandle(s, t, n - 1), tuple.definition, tuple.sourceLineNumbers, tuple.fields[n - 1])
  }

  function EmittedTuples<T>(emit: FieldEmitter<T>, s: nat, section: IntermediateSection, n: nat): seq<T>
    requires n <= |section.tuples|
    decreases n
  {
    if n == 0 then []
    else EmittedTuples(emit, s, section, n - 1)
         + EmittedFields(emit, s, n - 1, section.tuples[n - 1], |section.tuples[n - 1].fields|)
  }

  function EmittedSections<T>(emit: FieldEmitter<T>, ss: seq<IntermediateSection>, n: nat): seq<T>
    requires n <= |ss|
    decreases n
  {
    if n == 0 then []
    else EmittedSections(emit, ss, n - 1) + EmittedTuples(emit, n - 1, ss[n - 1], |ss[n - 1].tuples|)
  }

  function Emitted<T>(emit: FieldEmitter<T>, ss: seq<IntermediateSection>): seq<T> {
    EmittedSections(emit, ss, |ss|)
  }

  ghost predicate Appends<S(!new), T>(visit: FieldVisitor<S>, out: S -> seq<T>, emit: FieldEmitter<T>) {
    forall a, h, d, l, f :: out(visit(a, h, d, l, f).state) == out(a) + emit(h, d, l, f)
  }

  lemma {:induction false} FieldsAppend<S(!new), T>(visit: FieldVisitor<S>, out: S -> seq<T>, emit: FieldEmitter<T>,
                                                    st: S, s: nat, t: nat, tuple: IntermediateTuple, n: nat)
    requires Appends(visit, out, emit)
    requires n <= |tuple.fields|
    ensures out(VisitFields(visit, st, s, t, tuple, n).1) == out(st) + EmittedFields(emit, s, t, tuple, n)
    decreases n
  {
    if n > 0 {
      FieldsAppend(visit, out, emit, st, s, t, tuple, n - 1);
      var before := VisitFields(visit, st, s, t, tuple, n - 1).1;
      var h := FieldHandle(s, t, n - 1);
      assert out(visit(before, h, tuple.definition, tuple.sourceLineNumbers, tuple.fields[n - 1]).state)
          == out(before) + emit(h, tuple.definition, tuple.sourceLineNumbers, tuple.fields[n - 1]);
    }
  }

  lemma {:induction false} TuplesAppend<S(!new), T>(visit: FieldVisitor<S>, out: S -> seq<T>, emit: FieldEmitter<T>,
                                                    st: S, s: nat, section: IntermediateSection, n: nat)
    requires Appends(visit, out, emit)
    requires n <= |section.tuples|
    ensures out(VisitTuples(visit, st, s, section, n).1) == out(st) + EmittedTuples(emit, s, section, n)
    decreases n
  {
    if n > 0 {
      TuplesAppend(visit, out, emit, st, s, section, n - 1);
      var before := VisitTuples(visit, st, s, section, n - 1).1;
      var tuple := section.tuples[n - 1];
      FieldsAppend(visit, out, emit, before, s, n - 1, tuple, |tuple.fields|);
      assert VisitTuples(visit, st, s, section, n).1 == VisitFields(visit, before, s, n - 1, tuple, |tuple.fields|).1;
      assert out(st) + EmittedTuples(emit, s, section, n)
          == (out(st) + EmittedTuples(emit, s, section, n - 1)) + EmittedFields(emit, s, n - 1, tuple, |tuple.fields|);
    }
  }

  lemma {:induction false} SectionsAppend<S(!new), T>(visit: FieldVisitor<S>, out: S -> seq<T>, emit: FieldEmitter<T>,
                                                      st: S, ss: seq<IntermediateSection>, n: nat)
    requires Appends(visit, out, emit)
    requires n <= |ss|
    ensures out(VisitSections(visit, st, ss, n).1) == out(st) + EmittedSections(emit, ss, n)
    decreases n
  {
    if n > 0 {
      SectionsAppend(visit, out, emit, st, ss, n - 1);
      var before := VisitSections(visit, st, ss, n - 1).1;
      var section := ss[n - 1];
      TuplesAppend(visit, out, emit, before, n - 1, section, |section.tuples|);
      assert VisitSections(visit, st, ss, n).1 == VisitTuples(visit, before, n - 1, section, |section.tuples|).1;
      assert out(st) + EmittedSections(emit, ss, n)
          == (out(st) + EmittedSections(emit, ss, n - 1)) + EmittedTuples(emit, n - 1, section, |section.tuples|);
    }
  }

  /** What the pass appends is everything the fields contribute, in traversal order. */
  lemma AppendsEmitted<S(!new), T>(visit: FieldVisitor<S>, out: S -> seq<T>, emit: FieldEmitter<T>,
                                   st: S, ss: seq<IntermediateSection>)
    requires Appends(visit, out, emit)
    ensures out(VisitAll(visit, st, ss).1) == out(st) + Emitted(emit, ss)
  {
    SectionsAppend(visit, out, emit, st, ss, |ss|);
  }

  // ---------------------------------------------------------------------
  // When each field contributes its own handle or nothing, what is
  // contributed is exactly the picked handles, each once, in order.

  type FieldPicker = (FieldHandle, TupleDefinition, Option<SourceLineNumber>, Option<Field>) -> bool

  function Selecting(pick: FieldPicker): FieldEmitter<FieldHandle> {
    (h, d, l, f) => if pick(h, d, l, f) then [h] else []
  }

  predicate PickedAt(pick: FieldPicker, ss: seq<IntermediateSection>, h: FieldHandle)
    requires ValidHandle(ss, h)
  {
    var tuple := TupleAt(ss, h);
    pick(h, tuple.definition, tuple.sourceLineNumbers, FieldAt(ss, h))
  }

  lemma OrderedAppend(a: seq<FieldHandle>, b: seq<FieldHandle>)
    requires StrictlyOrdered(a) && StrictlyOrdered(b)
    requires forall x, y :: x in a && y in b ==> Precedes(x, y)
    ensures StrictlyOrdered(a + b)
  {
    forall i, j | 0 <= i < j < |a + b| ensures Precedes((a + b)[i], (a + b)[j]) {
      if j < |a| {
      } else if i >= |a| {
        assert (a + b)[i] == b[i - |a|] && (a + b)[j] == b[j - |a|];
      } else {
        assert (a + b)[i] == a[i] && (a + b)[j] == b[j - |a|];
      }
    }
  }

  /** h is one of the first n fields of tuple t of section s, and is picked. */
  predicate PickedInTuple(pick: FieldPicker, s: nat, t: nat, tuple: IntermediateTuple, n: nat, h: FieldHandle) {
    && h.section == s && h.tuple == t && h.field < n && h.field < |tuple.fields|
    && pick(h, tuple.definition, tuple.sourceLineNumbers, tuple.fields[h.field])
  }

  /** h is a field of one of the first n tuples of section s, and is picked. */
  predicate PickedInSection(pick: FieldPicker, s: nat, section: IntermediateSection, n: nat, h: FieldHandle) {
    && h.tuple < n && h.tuple < |section.tuples|
    && PickedInTuple(pick, s, h.tuple, section.tuples[h.tuple], |section.tuples[h.tuple].fields|, h)
  }

  /** h is a field of one of the first n sections, and is picked. */
  predicate PickedInSections(pick: FieldPicker, ss: seq<IntermediateSection>, n: nat, h: FieldHandle) {
    && h.section < n && h.section < |ss|
    && PickedInSection(pick, h.section, ss[h.section], |ss[h.section].tuples|, h)
  }

  lemma {:induction false} SelectedFields(pick: FieldPicker, s: nat, t: nat, tuple: IntermediateTuple, n: nat)
    requires n <= |tuple.fields|
    ensures forall h :: h in EmittedFields(Selecting(pick), s, t, tuple, n) <==> PickedInTuple(pick, s, t, tuple, n, h)
    ensures StrictlyOrdered(EmittedFields(Selecting(pick), s, t, tuple, n))
    decreases n
  {
    if n > 0 {
      SelectedFields(pick, s, t, tuple, n - 1);
      var a := EmittedFields(Selecting(pick), s, t, tuple, n - 1);
      var h := FieldHandle(s, t, n - 1);
      var last := if pick(h, tuple.definition, tuple.sourceLineNumbers, tuple.fields[n - 1]) then [h] else [];
      assert EmittedFields(Selecting(pick), s, t, tuple, n) == a + last;
      OrderedAppend(a, last);
      forall g ensures g in a + last <==> g in a || g in last {
      }
    }
  }

  lemma {:induction false} SelectedTuples(pick: FieldPicker, s: nat, section: IntermediateSection, n: nat)
    requires n <= |section.tuples|
    ensures forall h :: h in EmittedTuples(Selecting(pick), s, section, n) <==> PickedInSection(pick, s, section, n, h)
    ensures StrictlyOrdered(EmittedTuples(Selecting(pick), s, section, n))
    decreases n
  {
    if n > 0 {
      SelectedTuples(pick, s, section, n - 1);
      var tuple := section.tuples[n - 1];
      SelectedFields(pick, s, n - 1, tuple, |tuple.fields|);
      TupleStep(pick, s, section, n);
    }
  }

  /** One step of SelectedTuples: the handles of the earlier tuples, then those of tuple n - 1. */
  lemma TupleStep(pick: FieldPicker, s: nat, section: IntermediateSection, n: nat)
    requires 0 < n <= |section.tuples|
    requires var a := EmittedTuples(Selecting(pick), s, section, n - 1);
      && StrictlyOrdered(a) && forall h :: h in a <==> PickedInSection(pick, s, section, n - 1, h)
    requires var tuple := section.tuples[n - 1];
      var b := EmittedFields(Selecting(pick), s, n - 1, tuple, |tuple.fields|);
      && StrictlyOrdered(b) && forall h :: h in b <==> PickedInTuple(pick, s, n - 1, tuple, |tuple.fields|, h)
    ensures forall h :: h in EmittedTuples(Selecting(pick), s, section, n) <==> PickedInSection(pick, s, section, n, h)
    ensures StrictlyOrdered(EmittedTuples(Selecting(pick), s, section, n))
  {
    var tuple := section.tuples[n - 1];
    var a := EmittedTuples(Selecting(pick), s, section, n - 1);
    var b := EmittedFields(Selecting(pick), s, n - 1, tuple, |tuple.fields|);
    assert EmittedTuples(Selecting(pick), s, section, n) == a + b;
    forall x, y | x in a && y in b ensures Precedes(x, y) {
      assert x.section == s && x.tuple < n - 1 && y.section == s && y.tuple == n - 1;
    }
    OrderedAppend(a, b);
    forall h: FieldHandle ensures h in a + b <==> PickedInSection(pick, s, section, n, h) {
      assert h in a + b <==> h in a || h in b;
    }
  }

  lemma {:induction false} SelectedSections(pick: FieldPicker, ss: seq<IntermediateSection>, n: nat)
    requires n <= |ss|
    ensures forall h :: h in EmittedSections(Selecting(pick), ss, n) <==> PickedInSections(pick, ss, n, h)
    ensures StrictlyOrdered(EmittedSections(Selecting(pick), ss, n))
    decreases n
  {
    if n > 0 {
      SelectedSections(pick, ss, n - 1);
      SelectedTuples(pick, n - 1, ss[n - 1], |ss[n - 1].tuples|);
      SectionStep(pick, ss, n);
    }
  }

  /** One step of SelectedSections: the handles of the earlier sections, then those of section n - 1. */
  lemma SectionStep(pick: FieldPicker, ss: seq<IntermediateSection>, n: nat)
    requires 0 < n <= |ss|
    requires var a := EmittedSections(Selecting(pick), ss, n - 1);
      && StrictlyOrdered(a) && forall h :: h in a <==> PickedInSections(pick, ss, n - 1, h)
    requires var b := EmittedTuples(Selecting(pick), n - 1, ss[n - 1], |ss[n - 1].tuples|);
      && StrictlyOrdered(b) && forall h :: h in b <==> PickedInSection(pick, n - 1, ss[n - 1], |ss[n - 1].tuples|, h)
    ensures forall h :: h in EmittedSections(Selecting(pick), ss, n) <==> PickedInSections(pick, ss, n, h)
    ensures StrictlyOrdered(EmittedSections(Selecting(pick), ss, n))
  {
    var a := EmittedSections(Selecting(pick), ss, n - 1);
    var b := EmittedTuples(Selecting(pick), n - 1, ss[n - 1], |ss[n - 1].tuples|);
    assert EmittedSections(Selecting(pick), ss, n) == a + b;
    forall x, y | x in a && y in b ensures Precedes(x, y) {
      assert x.section < n - 1 && y.section == n - 1;
    }
    OrderedAppend(a, b);
    forall h: FieldHandle ensures h in a + b <==> PickedInSections(pick, ss, n, h) {
      assert h in a + b <==> h in a || h in b;
    }
  }

  /** The picked handles, each exactly once, in section-then-tuple-then-field order. */
  lemma Selected(pick: FieldPicker, ss: seq<IntermediateSection>)
    ensures forall h :: h in Emitted(Selecting(pick), ss) <==> ValidHandle(ss, h) && PickedAt(pick, ss, h)
    ensures StrictlyOrdered(Emitted(Selecting(pick), ss))
  {
    SelectedSections(pick, ss, |ss|);
    forall h ensures PickedInSections(pick, ss, |ss|, h) <==> ValidHandle(ss, h) && PickedAt(pick, ss, h) {
    }
  }

  // ---------------------------------------------------------------------
  // Two visitors that agree on every input give the same pass.

  ghost predicate SameVisitor<S(!new)>(v1: FieldVisitor<S>, v2: FieldVisitor<S>) {
    forall a, h, d, l, f :: v1(a, h, d, l, f) == v2(a, h, d, l, f)
  }

  lemma {:induction false} FieldsAgree<S(!new)>(v1: FieldVisitor<S>, v2: FieldVisitor<S>, st: S, s: nat, t: nat,
                                                tuple: IntermediateTuple, n: nat)
    requires SameVisitor(v1, v2)
    requires n <= |tuple.fields|
    ensures VisitFields(v1, st, s, t, tuple, n) == VisitFields(v2, st, s, t, tuple, n)
    decreases n
  {
    if n > 0 {
      FieldsAgree(v1, v2, st, s, t, tuple, n - 1);
      var before := VisitFields(v1, st, s, t, tuple, n - 1).1;
      var h := FieldHandle(s, t, n - 1);
      assert v1(before, h, tuple.definition, tuple.sourceLineNumbers, tuple.fields[n - 1])
          == v2(before, h, tuple.definition, tuple.sourceLineNumbers, tuple.fields[n - 1]);
    }
  }

  lemma {:induction false} TuplesAgree<S(!new)>(v1: FieldVisitor<S>, v2: FieldVisitor<S>, st: S, s: nat,
                                                section: IntermediateSection, n: nat)
    requires SameVisitor(v1, v2)
    requires n <= |section.tuples|
    ensures VisitTuples(v1, st, s, section, n) == VisitTuples(v2, st, s, section, n)
    decreases n
  {
    if n > 0 {
      TuplesAgree(v1, v2, st, s, section, n - 1);
      var before := VisitTuples(v1, st, s, section, n - 1).1;
      var tuple := section.tuples[n - 1];
      FieldsAgree(v1, v2, before, s, n - 1, tuple, |tuple.fields|);
    }
  }

  lemma {:induction false} SectionsAgree<S(!new)>(v1: FieldVisitor<S>, v2: FieldVisitor<S>, st: S,
                                                  ss: seq<IntermediateSection>, n: nat)
    requires SameVisitor(v1, v2)
    requires n <= |ss|
    ensures VisitSections(v1, st, ss, n) == VisitSections(v2, st, ss, n)
    decreases n
  {
    if n > 0 {
      SectionsAgree(v1, v2, st, ss, n - 1);
      var before := VisitSections(v1, st, ss, n - 1).1;
      TuplesAgree(v1, v2, before, n - 1, ss[n - 1], |ss[n - 1].tuples|);
    }
  }

  lemma VisitorsAgree<S(!new)>(v1: FieldVisitor<S>, v2: FieldVisitor<S>, st: S, ss: seq<IntermediateSection>)
    requires SameVisitor(v1, v2)
    ensures VisitAll(v1, st, ss) == VisitAll(v2, st, ss)
  {
    SectionsAgree(v1, v2, st, ss, |ss|);
  }
}
