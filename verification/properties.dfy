/** The property bits of `properties.rs` and their updates in `mutate_properties.rs` and `trs_iter_mut.rs`. */
module Properties {
  import opened Fsts
  import opened Weights

  datatype Property =
    | ACCEPTOR | NOT_ACCEPTOR | I_DETERMINISTIC | NOT_I_DETERMINISTIC | O_DETERMINISTIC | NOT_O_DETERMINISTIC
    | EPSILONS | NO_EPSILONS | I_EPSILONS | NO_I_EPSILONS | O_EPSILONS | NO_O_EPSILONS
    | I_LABEL_SORTED | NOT_I_LABEL_SORTED | O_LABEL_SORTED | NOT_O_LABEL_SORTED
    | WEIGHTED | UNWEIGHTED | CYCLIC | ACYCLIC | INITIAL_CYCLIC | INITIAL_ACYCLIC | TOP_SORTED | NOT_TOP_SORTED
    | ACCESSIBLE | NOT_ACCESSIBLE | COACCESSIBLE | NOT_COACCESSIBLE | STRING | NOT_STRING
    | WEIGHTED_CYCLES | UNWEIGHTED_CYCLES

  // ------------------------------------------------ preservation masks

  const LABEL_PROPERTIES: set<Property> :=
    {ACCEPTOR, NOT_ACCEPTOR, I_DETERMINISTIC, NOT_I_DETERMINISTIC, O_DETERMINISTIC, NOT_O_DETERMINISTIC,
     EPSILONS, NO_EPSILONS, I_EPSILONS, NO_I_EPSILONS, O_EPSILONS, NO_O_EPSILONS,
     I_LABEL_SORTED, NOT_I_LABEL_SORTED, O_LABEL_SORTED, NOT_O_LABEL_SORTED}

  const NULL_PROPERTIES: set<Property> :=
    {ACCEPTOR, I_DETERMINISTIC, O_DETERMINISTIC, NO_EPSILONS, NO_I_EPSILONS, NO_O_EPSILONS, I_LABEL_SORTED,
     O_LABEL_SORTED, UNWEIGHTED, ACYCLIC, INITIAL_ACYCLIC, TOP_SORTED, ACCESSIBLE, COACCESSIBLE, STRING,
       UNWEIGHTED_CYCLES}

  const SET_START_PROPERTIES: set<Property> :=
    LABEL_PROPERTIES + {WEIGHTED, UNWEIGHTED, CYCLIC, ACYCLIC, TOP_SORTED, NOT_TOP_SORTED, COACCESSIBLE,
                        NOT_COACCESSIBLE,
                        WEIGHTED_CYCLES, UNWEIGHTED_CYCLES}

  const SET_FINAL_PROPERTIES: set<Property> :=
    LABEL_PROPERTIES + {CYCLIC, ACYCLIC, INITIAL_CYCLIC, INITIAL_ACYCLIC, TOP_SORTED, NOT_TOP_SORTED, ACCESSIBLE,
                        NOT_ACCESSIBLE,
                        WEIGHTED_CYCLES, UNWEIGHTED_CYCLES}

  const ADD_STATE_PROPERTIES: set<Property> :=
    LABEL_PROPERTIES + {WEIGHTED, UNWEIGHTED, CYCLIC, ACYCLIC, INITIAL_CYCLIC, INITIAL_ACYCLIC, TOP_SORTED,
                        NOT_TOP_SORTED,
                        NOT_ACCESSIBLE, NOT_COACCESSIBLE, NOT_STRING, WEIGHTED_CYCLES, UNWEIGHTED_CYCLES}

  const ADD_ARC_PROPERTIES: set<Property> :=
    {NOT_ACCEPTOR, NOT_I_DETERMINISTIC, NOT_O_DETERMINISTIC, EPSILONS, I_EPSILONS, O_EPSILONS, NOT_I_LABEL_SORTED,
     NOT_O_LABEL_SORTED, WEIGHTED, CYCLIC, INITIAL_CYCLIC, NOT_TOP_SORTED, ACCESSIBLE, COACCESSIBLE, WEIGHTED_CYCLES}

  const DELETE_STATES_PROPERTIES: set<Property> :=
    {ACCEPTOR, I_DETERMINISTIC, O_DETERMINISTIC, NO_EPSILONS, NO_I_EPSILONS, NO_O_EPSILONS, I_LABEL_SORTED,
     O_LABEL_SORTED,
     UNWEIGHTED, ACYCLIC, INITIAL_ACYCLIC, TOP_SORTED, UNWEIGHTED_CYCLES}

  const DELETE_ARCS_PROPERTIES: set<Property> :=
    DELETE_STATES_PROPERTIES + {NOT_ACCESSIBLE, NOT_COACCESSIBLE}

  const ARCSORT_PROPERTIES: set<Property> :=
    LABEL_PROPERTIES - {I_LABEL_SORTED, NOT_I_LABEL_SORTED, O_LABEL_SORTED, NOT_O_LABEL_SORTED}
    + {WEIGHTED, UNWEIGHTED, CYCLIC, ACYCLIC, INITIAL_CYCLIC, INITIAL_ACYCLIC, TOP_SORTED, NOT_TOP_SORTED, ACCESSIBLE,
       NOT_ACCESSIBLE,
       COACCESSIBLE, NOT_COACCESSIBLE, STRING, NOT_STRING, WEIGHTED_CYCLES, UNWEIGHTED_CYCLES}

  const STATESORT_PROPERTIES: set<Property> :=
    LABEL_PROPERTIES + {WEIGHTED, UNWEIGHTED, CYCLIC, ACYCLIC, INITIAL_CYCLIC, INITIAL_ACYCLIC, ACCESSIBLE,
                        NOT_ACCESSIBLE, COACCESSIBLE, NOT_COACCESSIBLE, WEIGHTED_CYCLES, UNWEIGHTED_CYCLES}

  const RELEVANT_TO_SET_ARC: set<Property> :=
    {ACCEPTOR, NOT_ACCEPTOR, EPSILONS, NO_EPSILONS, I_EPSILONS, NO_I_EPSILONS, O_EPSILONS, NO_O_EPSILONS, WEIGHTED,
     UNWEIGHTED}

  // ------------------------------------------------ updates

  predicate Trivial(w: Weight) {
    w == ZERO || w == ONE
  }

  predicate NonTrivial(w: Option<Weight>) {
    w.Some? && !Trivial(w.value)
  }

  predicate IsUnweighted(f: Fst<Weight>) {
    forall s :: 0 <= s < |f.states| ==>
      && !NonTrivial(f.states[s].finalWeight)
      && forall i :: 0 <= i < |f.states[s].trs| ==> Trivial(f.states[s].trs[i].weight)
  }

  function SetStartProperties(inprops: set<Property>): set<Property> {
    inprops * SET_START_PROPERTIES + if ACYCLIC in inprops then {INITIAL_ACYCLIC} else {}
  }

  function SetFinalProperties(inprops: set<Property>, oldWeight: Option<Weight>,
                              newWeight: Option<Weight>): set<Property> {
    var p := if NonTrivial(oldWeight) then inprops - {WEIGHTED} else inprops;
    var p := if NonTrivial(newWeight) then p + {WEIGHTED} - {UNWEIGHTED} else p;
    p * (SET_FINAL_PROPERTIES + {WEIGHTED, UNWEIGHTED})
  }

  function AddStateProperties(inprops: set<Property>): set<Property> {
    inprops * ADD_STATE_PROPERTIES
  }

  /** `tr` was appended to the arcs of `state`, right after `prev`. */
  function AddTrProperties(inprops: set<Property>, state: nat, tr: Tr<Weight>,
                           prev: Option<Tr<Weight>>): set<Property> {
    var p := NoteShape(NoteLabels(inprops, tr.ilabel, tr.olabel), state, tr, prev);
    var p := p * (ADD_ARC_PROPERTIES
                  + {ACCEPTOR, NO_EPSILONS, NO_I_EPSILONS, NO_O_EPSILONS, I_LABEL_SORTED, O_LABEL_SORTED, UNWEIGHTED,
                     TOP_SORTED});
    if TOP_SORTED in p then p + {ACYCLIC, INITIAL_ACYCLIC} else p
  }

  /** What a new arc adds and refutes by its place, its weight and its target. */
  function NoteShape(inprops: set<Property>, state: nat, tr: Tr<Weight>, prev: Option<Tr<Weight>>): set<Property> {
    var p := if prev.Some? && prev.value.ilabel > tr.ilabel then inprops + {NOT_I_LABEL_SORTED} - {I_LABEL_SORTED}
      else inprops;
    var p := if prev.Some? && prev.value.olabel > tr.olabel then p + {NOT_O_LABEL_SORTED} - {O_LABEL_SORTED} else p;
    var p := if !Trivial(tr.weight) then p + {WEIGHTED} - {UNWEIGHTED} else p;
    if tr.nextstate <= state then p + {NOT_TOP_SORTED} - {TOP_SORTED} else p
  }

  /** No new arc and no new state makes `ACCESSIBLE` known. */
  lemma NotesStayUnmarked(props: set<Property>, state: nat, tr: Tr<Weight>, prev: Option<Tr<Weight>>)
    requires ACCESSIBLE !in props
    ensures ACCESSIBLE !in NoteShape(NoteLabels(props, tr.ilabel, tr.olabel), state, tr, prev)
  {
    hide Trivial;
  }

  lemma AddTrStaysUnmarked(props: set<Property>, state: nat, tr: Tr<Weight>, prev: Option<Tr<Weight>>)
    requires ACCESSIBLE !in props
    ensures ACCESSIBLE !in AddTrProperties(props, state, tr, prev)
  {
    hide NoteShape, NoteLabels, ADD_ARC_PROPERTIES;
    NotesStayUnmarked(props, state, tr, prev);
  }

  lemma AddStateUnmarks(props: set<Property>)
    ensures ACCESSIBLE !in AddStateProperties(props)
  {
  }

  lemma SetFinalStaysUnmarked(props: set<Property>, oldWeight: Option<Weight>, newWeight: Option<Weight>)
    requires ACCESSIBLE !in props
    ensures ACCESSIBLE !in SetFinalProperties(props, oldWeight, newWeight)
  {
    hide SET_FINAL_PROPERTIES, NonTrivial;
  }

  lemma DeleteUnmarks(props: set<Property>)
    ensures ACCESSIBLE !in props * DELETE_ARCS_PROPERTIES
  {
  }

  /** What the labels of a new arc add and refute. */
  function NoteLabels(inprops: set<Property>, ilabel: Label, olabel: Label): set<Property> {
    var p := if ilabel != olabel then inprops + {NOT_ACCEPTOR} - {ACCEPTOR} else inprops;
    var p := if ilabel == EPS_LABEL then p + {I_EPSILONS} - {NO_I_EPSILONS} else p;
    var p := if ilabel == EPS_LABEL && olabel == EPS_LABEL then p + {EPSILONS} - {NO_EPSILONS} else p;
    if olabel == EPS_LABEL then p + {O_EPSILONS} - {NO_O_EPSILONS} else p
  }

  /** What the labels of an overwritten arc no longer witness. */
  function ForgetLabels(inprops: set<Property>, ilabel: Label, olabel: Label): set<Property> {
    var p := if ilabel != olabel then inprops - {NOT_ACCEPTOR} else inprops;
    var p := if ilabel == EPS_LABEL then p - {I_EPSILONS} else p;
    var p := if ilabel == EPS_LABEL && olabel == EPS_LABEL then p - {EPSILONS} else p;
    if olabel == EPS_LABEL then p - {O_EPSILONS} else p
  }

  function UpdateWeights(inprops: set<Property>, oldWeight: Weight, newWeight: Weight): set<Property> {
    var p := if !Trivial(oldWeight) then inprops - {WEIGHTED} else inprops;
    if !Trivial(newWeight) then p + {WEIGHTED} - {UNWEIGHTED} else p
  }

  /** After the arcs of every state are sorted by input label. */
  function SortedByILabel(inprops: set<Property>): set<Property> {
    inprops * ARCSORT_PROPERTIES + {I_LABEL_SORTED} + if ACCEPTOR in inprops then {O_LABEL_SORTED} else {}
  }

  /** After repeated arcs are removed from every state. */
  function UniqueProperties(inprops: set<Property>, empty: bool): set<Property> {
    inprops * ARCSORT_PROPERTIES * DELETE_ARCS_PROPERTIES
    + inprops * {ACCESSIBLE, NOT_ACCESSIBLE, COACCESSIBLE, NOT_COACCESSIBLE}
    + if empty then NULL_PROPERTIES else {}
  }

  function SetLabelsProperties(inprops: set<Property>, oldTr: Tr<Weight>, ilabel: Label, olabel: Label): set<Property> {
    NoteLabels(ForgetLabels(inprops, oldTr.ilabel, oldTr.olabel), ilabel, olabel) * RELEVANT_TO_SET_ARC
  }

  function SetWeightProperties(inprops: set<Property>, oldWeight: Weight, newWeight: Weight): set<Property> {
    UpdateWeights(inprops, oldWeight, newWeight) * RELEVANT_TO_SET_ARC
  }

  function SetTrProperties(inprops: set<Property>, oldTr: Tr<Weight>, newTr: Tr<Weight>): set<Property> {
    var p := NoteLabels(ForgetLabels(inprops, oldTr.ilabel, oldTr.olabel), newTr.ilabel, newTr.olabel);
    UpdateWeights(p, oldTr.weight, newTr.weight) * RELEVANT_TO_SET_ARC
  }
}
