/** Which property bits every mutation must leave. */
module KeptBits {
  import opened Fsts
  import opened Properties
  import opened PropertyBits
  import opened Reweights
  import opened VectorFsts
  import opened Weights

  /** The labels of an arc refute the bit. */
  predicate LabelsRefute(ilabel: Label, olabel: Label, p: Property) {
    || (p == ACCEPTOR && ilabel != olabel)
    || (p == NO_EPSILONS && ilabel == EPS_LABEL && olabel == EPS_LABEL)
    || (p == NO_I_EPSILONS && ilabel == EPS_LABEL)
    || (p == NO_O_EPSILONS && olabel == EPS_LABEL)
  }

  /** The labels of an arc may have been the only reason for the bit. */
  predicate LabelsAttest(ilabel: Label, olabel: Label, p: Property) {
    || (p == NOT_ACCEPTOR && ilabel != olabel)
    || (p == EPSILONS && ilabel == EPS_LABEL && olabel == EPS_LABEL)
    || (p == I_EPSILONS && ilabel == EPS_LABEL)
    || (p == O_EPSILONS && olabel == EPS_LABEL)
  }

  /** An arc appended after `prev` refutes the bit. */
  predicate ArcRefutes(s: nat, tr: Tr<Weight>, prev: Option<Tr<Weight>>, p: Property) {
    || LabelsRefute(tr.ilabel, tr.olabel, p)
    || (p == I_LABEL_SORTED && prev.Some? && prev.value.ilabel > tr.ilabel)
    || (p == O_LABEL_SORTED && prev.Some? && prev.value.olabel > tr.olabel)
    || (p == UNWEIGHTED && !Trivial(tr.weight))
    || (p == TOP_SORTED && tr.nextstate <= s)
  }

  predicate WeightDrops(was: Weight, now: Weight, p: Property) {
    (p == WEIGHTED && !Trivial(was) && Trivial(now)) || (p == UNWEIGHTED && !Trivial(now))
  }

  /** What an overwritten arc says nothing about any more. */
  predicate ArcEditDrops(p: Property) {
    p !in {ACCEPTOR, NOT_ACCEPTOR, EPSILONS, NO_EPSILONS, I_EPSILONS, NO_I_EPSILONS, O_EPSILONS, NO_O_EPSILONS,
           WEIGHTED, UNWEIGHTED}
  }

  predicate LabelEditDrops(was: Tr<Weight>, ilabel: Label, olabel: Label, p: Property) {
    LabelsRefute(ilabel, olabel, p) || (LabelsAttest(was.ilabel, was.olabel, p) && !LabelsAttest(ilabel, olabel, p))
  }

  /** The bits that a mutation may take away. */
  ghost predicate Drops(a: Tagged, m: Mutation, p: Property)
    requires Allowed(a.fst, m)
  {
    var f := a.fst;
    match m
    case SetStart(_) =>
      || p in {INITIAL_CYCLIC, ACCESSIBLE, NOT_ACCESSIBLE, STRING, NOT_STRING}
      || (p == INITIAL_ACYCLIC && ACYCLIC !in a.bits)
    case SetFinal(s, w) =>
      || p in {COACCESSIBLE, NOT_COACCESSIBLE, STRING, NOT_STRING}
      || (p == WEIGHTED && NonTrivial(f.states[s].finalWeight) && !NonTrivial(w))
      || (p == UNWEIGHTED && NonTrivial(w))
    case AddState => p in {ACCESSIBLE, COACCESSIBLE, STRING}
    case AddTr(s, tr) =>
      || p in {I_DETERMINISTIC, O_DETERMINISTIC, NOT_ACCESSIBLE, NOT_COACCESSIBLE, STRING, NOT_STRING,
            UNWEIGHTED_CYCLES}
      || (p in {ACYCLIC, INITIAL_ACYCLIC} && (TOP_SORTED !in a.bits || tr.nextstate <= s))
      || ArcRefutes(s, tr, LastTr(f.states[s].trs), p)
    case DeleteTrs(_) =>
      p in {NOT_ACCEPTOR, NOT_I_DETERMINISTIC, NOT_O_DETERMINISTIC, EPSILONS, I_EPSILONS, O_EPSILONS,
            NOT_I_LABEL_SORTED, NOT_O_LABEL_SORTED, WEIGHTED, CYCLIC, INITIAL_CYCLIC, NOT_TOP_SORTED, ACCESSIBLE,
            COACCESSIBLE, STRING, NOT_STRING, WEIGHTED_CYCLES}
    case SetLabels(s, i, il, ol) => ArcEditDrops(p) || LabelEditDrops(ArcAt(f, s, i), il, ol, p)
    case SetWeight(s, i, w) => ArcEditDrops(p) || WeightDrops(ArcAt(f, s, i).weight, w, p)
    case SetNextstate(_, _, _) => ArcEditDrops(p)
    case SetTr(s, i, tr) =>
      || ArcEditDrops(p) || LabelEditDrops(ArcAt(f, s, i), tr.ilabel, tr.olabel, p)
      || WeightDrops(ArcAt(f, s, i).weight, tr.weight, p)
    case SetTrs(_, trs) => p !in Stale(a.bits, trs)
    case DelStates(_) =>
      p in {NOT_ACCEPTOR, NOT_I_DETERMINISTIC, NOT_O_DETERMINISTIC, EPSILONS, I_EPSILONS, O_EPSILONS,
            NOT_I_LABEL_SORTED, NOT_O_LABEL_SORTED, WEIGHTED, CYCLIC, INITIAL_CYCLIC, NOT_TOP_SORTED, ACCESSIBLE,
            NOT_ACCESSIBLE, COACCESSIBLE, NOT_COACCESSIBLE, STRING, NOT_STRING, WEIGHTED_CYCLES}
    case DelAllStates =>
      p in {NOT_ACCEPTOR, NOT_I_DETERMINISTIC, NOT_O_DETERMINISTIC, EPSILONS, I_EPSILONS, O_EPSILONS,
            NOT_I_LABEL_SORTED, NOT_O_LABEL_SORTED, WEIGHTED, CYCLIC, INITIAL_CYCLIC, NOT_TOP_SORTED, NOT_ACCESSIBLE,
            NOT_COACCESSIBLE, NOT_STRING, WEIGHTED_CYCLES}
  }

  lemma SetStartRetains(props: set<Property>, p: Property)
    requires p in props && p !in {INITIAL_CYCLIC, ACCESSIBLE, NOT_ACCESSIBLE, STRING, NOT_STRING}
    requires p == INITIAL_ACYCLIC ==> ACYCLIC in props
    ensures p in SetStartProperties(props)
  {
  }

  lemma SetFinalRetains(props: set<Property>, was: Option<Weight>, now: Option<Weight>, p: Property)
    requires p in props && p !in {COACCESSIBLE, NOT_COACCESSIBLE, STRING, NOT_STRING}
    requires !(p == WEIGHTED && NonTrivial(was) && !NonTrivial(now)) && !(p == UNWEIGHTED && NonTrivial(now))
    ensures p in SetFinalProperties(props, was, now)
  {
  }

  lemma AddTrRetains(props: set<Property>, s: nat, tr: Tr<Weight>, prev: Option<Tr<Weight>>, p: Property)
    requires p in props && !ArcRefutes(s, tr, prev, p)
    requires p !in {I_DETERMINISTIC, O_DETERMINISTIC, NOT_ACCESSIBLE, NOT_COACCESSIBLE, STRING, NOT_STRING,
                    UNWEIGHTED_CYCLES}
    requires p in {ACYCLIC, INITIAL_ACYCLIC} ==> TOP_SORTED in props && tr.nextstate > s
    ensures p in AddTrProperties(props, s, tr, prev)
  {
    hide AddTrProperties, Trivial;
    AddTrIn(props, s, tr, prev, p);
  }

  lemma LabelsRetain(props: set<Property>, was: Tr<Weight>, ilabel: Label, olabel: Label, p: Property)
    requires p in props && !LabelEditDrops(was, ilabel, olabel, p)
    ensures p in NoteLabels(ForgetLabels(props, was.ilabel, was.olabel), ilabel, olabel)
  {
    hide NoteLabels;
    ForgetLabelsIn(props, was.ilabel, was.olabel, p);
    NoteLabelsIn(ForgetLabels(props, was.ilabel, was.olabel), ilabel, olabel, p);
  }

  lemma WeightsRetain(props: set<Property>, was: Weight, now: Weight, p: Property)
    requires p in props && !WeightDrops(was, now, p)
    ensures p in UpdateWeights(props, was, now)
  {
    hide Trivial;
  }

  lemma EditRetains(p: Property)
    ensures p in RELEVANT_TO_SET_ARC <==> !ArcEditDrops(p)
  {
  }

  lemma DeletionRetains(p: Property)
    ensures p in DELETE_STATES_PROPERTIES <==>
            p !in {NOT_ACCEPTOR, NOT_I_DETERMINISTIC, NOT_O_DETERMINISTIC, EPSILONS, I_EPSILONS, O_EPSILONS,
                   NOT_I_LABEL_SORTED, NOT_O_LABEL_SORTED, WEIGHTED, CYCLIC, INITIAL_CYCLIC, NOT_TOP_SORTED, ACCESSIBLE,
                   NOT_ACCESSIBLE, COACCESSIBLE, NOT_COACCESSIBLE, STRING, NOT_STRING, WEIGHTED_CYCLES}
    ensures p in DELETE_ARCS_PROPERTIES <==> p in DELETE_STATES_PROPERTIES || p in {NOT_ACCESSIBLE, NOT_COACCESSIBLE}
  {
  }

  lemma NullRetains(p: Property)
    ensures p in NULL_PROPERTIES <==>
            p !in {NOT_ACCEPTOR, NOT_I_DETERMINISTIC, NOT_O_DETERMINISTIC, EPSILONS, I_EPSILONS, O_EPSILONS,
                   NOT_I_LABEL_SORTED, NOT_O_LABEL_SORTED, WEIGHTED, CYCLIC, INITIAL_CYCLIC, NOT_TOP_SORTED,
                   NOT_ACCESSIBLE, NOT_COACCESSIBLE, NOT_STRING, WEIGHTED_CYCLES}
  {
  }

  lemma AddStateRetains(p: Property)
    ensures p in ADD_STATE_PROPERTIES <==> p !in {ACCESSIBLE, COACCESSIBLE, STRING}
  {
  }

  lemma SetTrRetains(props: set<Property>, was: Tr<Weight>, now: Tr<Weight>, p: Property)
    requires p in props && !ArcEditDrops(p) && !LabelEditDrops(was, now.ilabel, now.olabel, p)
    requires !WeightDrops(was.weight, now.weight, p)
    ensures p in SetTrProperties(props, was, now)
  {
    hide NoteLabels, ForgetLabels, UpdateWeights, LabelEditDrops, ArcEditDrops, WeightDrops, RELEVANT_TO_SET_ARC;
    EditRetains(p);
    LabelsRetain(props, was, now.ilabel, now.olabel, p);
    WeightsRetain(NoteLabels(ForgetLabels(props, was.ilabel, was.olabel), now.ilabel, now.olabel), was.weight,
                  now.weight, p);
  }

  /** A mutation takes away no bit but those. */
  lemma StepRetains(a: Tagged, m: Mutation, b: Tagged, p: Property)
    requires WellFormed(a.fst) && Allowed(a.fst, m) && Steps(a, m, b) && p in a.bits && !Drops(a, m, p)
    ensures p in b.bits
  {
    hide SetStartProperties, SetFinalProperties, AddTrProperties, NoteLabels, ForgetLabels, UpdateWeights,
         SetTrProperties, LabelEditDrops, ArcEditDrops, WeightDrops, ArcRefutes, RELEVANT_TO_SET_ARC,
         DELETE_ARCS_PROPERTIES, DELETE_STATES_PROPERTIES, NULL_PROPERTIES, ADD_STATE_PROPERTIES, Stale, NonTrivial;
    var f, props := a.fst, a.bits;
    EditRetains(p);
    DeletionRetains(p);
    match m {
      case SetStart(_) => SetStartRetains(props, p);
      case SetFinal(s, w) => SetFinalRetains(props, f.states[s].finalWeight, w, p);
      case AddState => AddStateRetains(p);
      case AddTr(s, tr) => AddTrRetains(props, s, tr, LastTr(f.states[s].trs), p);
      case DeleteTrs(_) =>
      case SetLabels(s, i, il, ol) => LabelsRetain(props, ArcAt(f, s, i), il, ol, p);
      case SetWeight(s, i, w) => WeightsRetain(props, ArcAt(f, s, i).weight, w, p);
      case SetNextstate(_, _, _) =>
      case SetTr(s, i, tr) => SetTrRetains(props, ArcAt(f, s, i), tr, p);
      case SetTrs(s, trs) => StaleStays(props, s, trs, p);
      case DelStates(_) =>
      case DelAllStates => NullRetains(p);
    }
  }

  // ------------------------------------------------ operations on whole machines

  /** `state_sort` forgets the order of the states and whether the machine is a string. */
  lemma StateSortRetains(p: Property)
    ensures p in STATESORT_PROPERTIES <==> p !in {TOP_SORTED, NOT_TOP_SORTED, STRING, NOT_STRING}
  {
  }

  lemma ArcSortRetains(p: Property)
    ensures p in ARCSORT_PROPERTIES <==> p !in {I_LABEL_SORTED, NOT_I_LABEL_SORTED, O_LABEL_SORTED, NOT_O_LABEL_SORTED}
  {
  }

  /** Sorting by input label forgets only what was known of the order of labels. */
  lemma SortRetains(props: set<Property>, p: Property)
    requires p in props && p !in {NOT_I_LABEL_SORTED, O_LABEL_SORTED, NOT_O_LABEL_SORTED}
    ensures p in SortedByILabel(props)
  {
    hide ARCSORT_PROPERTIES;
    ArcSortRetains(p);
  }

  /** Removing repetitions forgets that order too, and what a removed arc may have been the reason for. */
  lemma UniqueRetains(props: set<Property>, p: Property)
    requires p in props
    ensures p in UniqueProperties(props, false) <==>
            p !in {NOT_ACCEPTOR, NOT_I_DETERMINISTIC, NOT_O_DETERMINISTIC, EPSILONS, I_EPSILONS, O_EPSILONS,
                   I_LABEL_SORTED, NOT_I_LABEL_SORTED, O_LABEL_SORTED, NOT_O_LABEL_SORTED, WEIGHTED, CYCLIC,
                   INITIAL_CYCLIC, NOT_TOP_SORTED, STRING, NOT_STRING, WEIGHTED_CYCLES}
  {
    hide ARCSORT_PROPERTIES, DELETE_ARCS_PROPERTIES, DELETE_STATES_PROPERTIES;
    ArcSortRetains(p);
    DeletionRetains(p);
  }

  /** Reweighting forgets what weights have a say in; infinite ones may cut a state off. */
  lemma ReweightRetains(props: set<Property>, p: Property)
    requires p in props
    ensures p in ReweightProperties(props) <==>
            p !in {WEIGHTED, UNWEIGHTED, WEIGHTED_CYCLES, UNWEIGHTED_CYCLES, COACCESSIBLE}
  {
  }
}
