/** The warmth lifecycle: states, readiness predicates and the guarded transition table. */
module WarmthStates {
  import opened Basics

  datatype WarmthState =
    | COLD | DISCOVERED | PREPARING | PARTIALLY_WARM | WARM
    | HOT | STALE | INVALIDATED | EVICTED | FAILED

  predicate ExecutionReady(s: WarmthState) {
    s.WARM? || s.HOT?
  }

  predicate LiveWarm(s: WarmthState) {
    s.PARTIALLY_WARM? || s.WARM? || s.HOT?
  }

  /** `to_level`: the warm axis, with every non-warm state at the cold end. */
  function Level(s: WarmthState): nat {
    match s
    case COLD => 0
    case DISCOVERED => 1
    case PREPARING => 2
    case PARTIALLY_WARM => 3
    case WARM => 4
    case HOT => 5
    case _ => 0
  }

  predicate TransitionAllowed(from: WarmthState, to: WarmthState) {
    match from
    case COLD => to.COLD? || to.DISCOVERED? || to.PREPARING? || to.EVICTED? || to.INVALIDATED? || to.FAILED?
    case DISCOVERED =>
      to.COLD? || to.DISCOVERED? || to.PREPARING? || to.PARTIALLY_WARM? ||
      to.WARM? || to.INVALIDATED? || to.EVICTED? || to.FAILED?
    case PREPARING =>
      to.DISCOVERED? || to.PREPARING? || to.PARTIALLY_WARM? || to.WARM? ||
      to.HOT? || to.STALE? || to.INVALIDATED? || to.EVICTED? || to.FAILED?
    case PARTIALLY_WARM =>
      to.PREPARING? || to.PARTIALLY_WARM? || to.WARM? || to.STALE? ||
      to.INVALIDATED? || to.EVICTED? || to.FAILED? || to.COLD?
    case WARM =>
      to.HOT? || to.WARM? || to.PARTIALLY_WARM? || to.STALE? ||
      to.INVALIDATED? || to.EVICTED? || to.FAILED? || to.DISCOVERED?
    case HOT => to.WARM? || to.HOT? || to.STALE? || to.INVALIDATED? || to.EVICTED? || to.FAILED?
    case STALE => to.WARM? || to.STALE? || to.INVALIDATED? ||
      to.COLD? || to.EVICTED? || to.FAILED? || to.DISCOVERED?
    case INVALIDATED => to.COLD? || to.DISCOVERED? || to.PREPARING? ||
      to.INVALIDATED? || to.FAILED? || to.EVICTED?
    case EVICTED => to.COLD? || to.DISCOVERED? || to.PREPARING? || to.EVICTED?
    case FAILED => to.COLD? || to.DISCOVERED? || to.INVALIDATED? || to.FAILED?
  }

  /** The same table read by columns: from which states a state may be entered. */
  predicate EnteredFrom(to: WarmthState, from: WarmthState) {
    match to
    case COLD => !from.PREPARING? && !from.WARM? && !from.HOT?
    case DISCOVERED => !from.PARTIALLY_WARM? && !from.HOT?
    case PREPARING => !from.WARM? && !from.HOT? && !from.STALE? && !from.FAILED?
    case PARTIALLY_WARM => from.DISCOVERED? || from.PREPARING? || from.PARTIALLY_WARM? || from.WARM?
    case WARM => !from.COLD? && !from.INVALIDATED? && !from.EVICTED? && !from.FAILED?
    case HOT => from.PREPARING? || from.WARM? || from.HOT?
    case STALE => from.PREPARING? || from.PARTIALLY_WARM? || from.WARM? || from.HOT? || from.STALE?
    case INVALIDATED => !from.EVICTED?
    case EVICTED => !from.FAILED?
    case FAILED => !from.EVICTED?
  }

  lemma TableByColumns(from: WarmthState, to: WarmthState)
    ensures TransitionAllowed(from, to) <==> EnteredFrom(to, from)
  {
  }

  function StateCode(s: WarmthState): Byte {
    match s
    case COLD => 0
    case DISCOVERED => 1
    case PREPARING => 2
    case PARTIALLY_WARM => 3
    case WARM => 4
    case HOT => 5
    case STALE => 6
    case INVALIDATED => 7
    case EVICTED => 8
    case FAILED => 9
  }

  function StateOf(b: Byte): (s: Option<WarmthState>)
    ensures s.Some? ==> StateCode(s.value) == b
    ensures s.None? <==> b > 9
  {
    match b
    case 0 => Some(COLD)
    case 1 => Some(DISCOVERED)
    case 2 => Some(PREPARING)
    case 3 => Some(PARTIALLY_WARM)
    case 4 => Some(WARM)
    case 5 => Some(HOT)
    case 6 => Some(STALE)
    case 7 => Some(INVALIDATED)
    case 8 => Some(EVICTED)
    case 9 => Some(FAILED)
    case _ => None
  }
}
