/**
 * The life of a port across dispatches (port.c): when its descriptors are opened and closed. What initialization,
 * the link and the switch of the PTP hardware clock come to is up to the environment.
 */
module PortLifecycle {
  import opened PortFsm

  /** How port_initialize ends; failing late it has stored its timer descriptors before it closes them again. */
  datatype InitResult = Initialized | FailsEarly | FailsLate

  /** The timer and transport descriptors a port has stored: none, open ones, or closed ones. */
  datatype Fds = Closed | Open | Stale

  /** The environment's answers during one state update: whether a fault clears at once, and how init ends. */
  datatype Answers = Answers(clearNow: bool, init: InitResult)

  /** A port's state, its descriptors, and how often a stored descriptor was closed that had been closed before. */
  datatype Life = Life(state: PortState, fds: Fds, closedAgain: nat)

  const START := Life(INITIALIZING, Closed, 0)

  /** Descriptors are open exactly while the port is enabled. */
  predicate InStep(l: Life) { l.fds == Open <==> Enabled(l.state) }

  function AfterDisable(l: Life): Life {
    l.(fds := Closed, closedAgain := if l.fds == Stale then l.closedAgain + 1 else l.closedAgain)
  }

  function AfterInitialize(l: Life, r: InitResult): Life {
    match r
    case Initialized => l.(fds := Open)
    case FailsEarly => l
    case FailsLate => l.(fds := Stale)
  }

  /** The state the machine proposes, when a fault that clears at once is cleared. */
  function Proposed(m: Machine, s: PortState, e: Event, mdiff: bool, clearNow: bool): PortState {
    var next := Next(m, s, e, mdiff);
    if next == FAULTY && clearNow then Next(m, next, FAULT_CLEARED, false) else next
  }

  /** port_state_update. */
  function AfterUpdate(m: Machine, l: Life, e: Event, mdiff: bool, a: Answers): Life {
    var next := Proposed(m, l.state, e, mdiff, a.clearNow);
    if next != INITIALIZING then l.(state := next)
    else
      var l1 := if Enabled(l.state) then AfterDisable(l) else l;
      AfterInitialize(l1, a.init).(state := Next(m, INITIALIZING,
                                              if a.init == Initialized then INIT_COMPLETE else FAULT_DETECTED, false))
  }

  /** What the transition into a new state does to the descriptors. */
  function AfterTransition(l: Life): Life {
    if l.state == FAULTY || l.state == DISABLED then AfterDisable(l) else l
  }

  /** One dispatch; if the clock cannot be switched, a fault is dispatched in turn, with further answers. */
  function AfterDispatch(m: Machine, jbod: bool, l: Life, e: Event, mdiff: bool, a: Answers, phcOk: bool, again: Answers): Life {
    var l1 := AfterUpdate(m, l, e, mdiff, a);
    if l1.state == l.state then l1
    else
      var l2 := AfterTransition(l1);
      if jbod && l2.state == UNCALIBRATED && !phcOk then
        var l3 := AfterUpdate(m, l2, FAULT_DETECTED, false, again);
        if l3.state == l2.state then l3 else AfterTransition(l3)
      else l2
  }

  class Port {
    const machine: Machine
    /** Whether entering UNCALIBRATED switches the clock over: jbod is set and the port has a PHC. */
    const jbod: bool
    var state: PortState
    var fds: Fds
    ghost var closedAgain: nat

    ghost function AsLife(): Life
      reads this
    {
      Life(state, fds, closedAgain)
    }

    constructor (m: Machine, switches: bool)
      ensures AsLife() == START && machine == m && jbod == switches
    {
      machine, jbod, state, fds, closedAgain := m, switches, INITIALIZING, Closed, 0;
    }

    /** port_disable: closes what descriptors are stored and forgets them. */
    method Disable()
      modifies this
      ensures AsLife() == AfterDisable(old(AsLife()))
    {
      if fds == Stale {
        closedAgain := closedAgain + 1;
      }
      fds := Closed;
    }

    /** port_initialize: never called while descriptors are open. */
    method Initialize(r: InitResult) returns (ok: bool)
      requires fds != Open
      modifies this
      ensures AsLife() == AfterInitialize(old(AsLife()), r) && ok == (r == Initialized)
    {
      if r == Initialized {
        fds := Open;
      } else if r == FailsLate {
        fds := Stale;
      }
      ok := r == Initialized;
    }

    method StateUpdate(event: Event, mdiff: bool, a: Answers) returns (changed: bool)
      requires InStep(AsLife())
      modifies this
      ensures AsLife() == AfterUpdate(machine, old(AsLife()), event, mdiff, a)
      ensures changed == (state != old(state))
    {
      hide Next;
      var next := Next(machine, state, event, mdiff);
      if next == FAULTY && a.clearNow {
        next := Next(machine, next, FAULT_CLEARED, false);
      }
      if next == INITIALIZING {
        if Enabled(state) {
          Disable();
        }
        var ok := Initialize(a.init);
        next := Next(machine, next, if ok then INIT_COMPLETE else FAULT_DETECTED, false);
      }
      changed := next != state;
      state := next;
    }

    method Transition()
      modifies this
      ensures AsLife() == AfterTransition(old(AsLife()))
    {
      if state == FAULTY || state == DISABLED {
        Disable();
      }
    }

    /** bc_dispatch; it calls itself at most once, with a detected fault. */
    method Dispatch(event: Event, mdiff: bool, a: Answers, phcOk: bool, again: Answers)
      requires InStep(AsLife()) && Reachable(machine, state)
      requires !(state == INITIALIZING && event == INIT_COMPLETE)
      modifies this
      ensures AsLife() == AfterDispatch(machine, jbod, old(AsLife()), event, mdiff, a, phcOk, again)
      decreases event != FAULT_DETECTED
    {
      hide AfterUpdate, AfterTransition;
      ghost var l := AsLife();
      UpdateFacts(machine, l, event, mdiff, a);
      var changed := StateUpdate(event, mdiff, a);
      if !changed {
        return;
      }
      Transition();
      if jbod && state == UNCALIBRATED && !phcOk {
        UpdateFacts(machine, AsLife(), FAULT_DETECTED, false, again);
        Dispatch(FAULT_DETECTED, false, again, phcOk, again);
      }
    }
  }

  /** An update and the transition after it, in all four machines. */
  lemma UpdateFacts(m: Machine, l: Life, e: Event, mdiff: bool, a: Answers)
    requires InStep(l) && Reachable(m, l.state)
    ensures var l1 := AfterUpdate(m, l, e, mdiff, a);
            var l2 := if l1.state == l.state then l1 else AfterTransition(l1);
            && l1.state != INITIALIZING && Reachable(m, l1.state) && l2.state == l1.state
            && (e == FAULT_DETECTED ==> l1.state != UNCALIBRATED)
            && (InStep(l2) <==> !(l.state == INITIALIZING && e == INIT_COMPLETE))
  {
    hide Next;
    MachineFacts(m, l.state, e, mdiff);
    MachineFacts(m, FAULTY, FAULT_CLEARED, false);
    MachineFacts(m, INITIALIZING, INIT_COMPLETE, false);
    MachineFacts(m, INITIALIZING, FAULT_DETECTED, false);
  }

  // ----- runs

  datatype Occurrence = Occurrence(event: Event, mdiff: bool, answers: Answers, phcOk: bool, again: Answers)

  function Dispatched(m: Machine, jbod: bool, l: Life, o: Occurrence): Life {
    AfterDispatch(m, jbod, l, o.event, o.mdiff, o.answers, o.phcOk, o.again)
  }

  function Run(m: Machine, jbod: bool, l: Life, os: seq<Occurrence>): Life
    decreases |os|
  {
    if os == [] then l else Run(m, jbod, Dispatched(m, jbod, l, os[0]), os[1..])
  }

  /** A dispatch keeps a port in step, except the one that skips the initialization. */
  lemma DispatchInStep(m: Machine, jbod: bool, l: Life, o: Occurrence)
    requires InStep(l) && Reachable(m, l.state)
    ensures var l' := Dispatched(m, jbod, l, o);
            && l'.state != INITIALIZING && Reachable(m, l'.state)
            && (InStep(l') <==> !(l.state == INITIALIZING && o.event == INIT_COMPLETE))
  {
    hide AfterUpdate, Next;
    UpdateFacts(m, l, o.event, o.mdiff, o.answers);
    var l1 := AfterUpdate(m, l, o.event, o.mdiff, o.answers);
    if l.state == INITIALIZING && o.event == INIT_COMPLETE {
      FromInitialization(m, l, o.event, o.mdiff, o.answers);
    } else if l1.state != l.state {
      var l2 := AfterTransition(l1);
      if jbod && l2.state == UNCALIBRATED && !o.phcOk {
        UpdateFacts(m, l2, FAULT_DETECTED, false, o.again);
      }
    }
  }

  lemma FromInitialization(m: Machine, l: Life, e: Event, mdiff: bool, a: Answers)
    requires l.state == INITIALIZING && e == INIT_COMPLETE
    ensures AfterUpdate(m, l, e, mdiff, a).state == FirstWorking(m) != UNCALIBRATED
  {
  }

  /** After every dispatch of a run. */
  ghost predicate AlwaysInStep(m: Machine, jbod: bool, l: Life, os: seq<Occurrence>)
    decreases |os|
  {
    os == [] || (var l' := Dispatched(m, jbod, l, os[0]);
                 InStep(l') && l'.state != INITIALIZING && AlwaysInStep(m, jbod, l', os[1..]))
  }

  lemma {:induction false} RunInStep(m: Machine, jbod: bool, l: Life, os: seq<Occurrence>)
    requires InStep(l) && Reachable(m, l.state) && l.state != INITIALIZING
    ensures AlwaysInStep(m, jbod, l, os) && Reachable(m, Run(m, jbod, l, os).state)
    decreases |os|
  {
    hide Dispatched, InStep, Reachable;
    if os != [] {
      DispatchInStep(m, jbod, l, os[0]);
      RunInStep(m, jbod, Dispatched(m, jbod, l, os[0]), os[1..]);
    }
  }

  /**
   * On every run of a new port, with any answers, its descriptors are open after each dispatch exactly while it is
   * enabled, if and only if the run does not begin with the completion of an initialization that never took place.
   * No dispatch ends in INITIALIZING, and the port never leaves the states of its machine.
   */
  lemma NewPortStaysInStep(m: Machine, jbod: bool, os: seq<Occurrence>)
    requires os != []
    ensures AlwaysInStep(m, jbod, START, os) <==> os[0].event != INIT_COMPLETE
    ensures Run(m, jbod, START, os).state != INITIALIZING
    ensures os[0].event != INIT_COMPLETE ==> Reachable(m, Run(m, jbod, START, os).state)
  {
    hide Dispatched;
    DispatchInStep(m, jbod, START, os[0]);
    var l := Dispatched(m, jbod, START, os[0]);
    if os[0].event != INIT_COMPLETE {
      RunInStep(m, jbod, l, os[1..]);
    }
    NeverInitializing(m, jbod, l, os[1..]);
  }

  /** That exception: a new port that is told its initialization is complete works with no descriptor open. */
  lemma SkippedInitialization(m: Machine, jbod: bool, a: Answers)
    ensures var l := Dispatched(m, jbod, START, Occurrence(INIT_COMPLETE, false, a, true, a));
            l == Life(FirstWorking(m), Closed, 0) && Enabled(l.state) && !InStep(l)
  {
  }

  lemma StateUpdateEnds(m: Machine, l: Life, e: Event, mdiff: bool, a: Answers)
    ensures AfterUpdate(m, l, e, mdiff, a).state != INITIALIZING
  {
  }

  lemma {:induction false} NeverInitializing(m: Machine, jbod: bool, l: Life, os: seq<Occurrence>)
    requires l.state != INITIALIZING
    ensures Run(m, jbod, l, os).state != INITIALIZING
    decreases |os|
  {
    hide AfterUpdate;
    if os != [] {
      var o := os[0];
      StateUpdateEnds(m, l, o.event, o.mdiff, o.answers);
      StateUpdateEnds(m, AfterTransition(AfterUpdate(m, l, o.event, o.mdiff, o.answers)), FAULT_DETECTED, false, o.again);
      NeverInitializing(m, jbod, Dispatched(m, jbod, l, o), os[1..]);
    }
  }

  // ----- descriptors closed twice

  /** Stored descriptors are stale only in a faulty port. */
  predicate StaleOnlyFaulty(l: Life) { l.fds == Stale ==> l.state == FAULTY }

  /**
   * Exactly when an update with its transition closes descriptors that are closed already: when initialization fails
   * late in a port that was not faulty, or when a faulty port with stale descriptors is disabled.
   */
  lemma ClosedAgainExactly(m: Machine, l: Life, e: Event, mdiff: bool, a: Answers)
    requires StaleOnlyFaulty(l)
    ensures var next := Proposed(m, l.state, e, mdiff, a.clearNow);
            var l1 := AfterUpdate(m, l, e, mdiff, a);
            var l2 := if l1.state == l.state then l1 else AfterTransition(l1);
            && StaleOnlyFaulty(l2)
            && (l2.closedAgain > l.closedAgain <==>
                  || (next == INITIALIZING && a.init == FailsLate && l.state != FAULTY)
                  || (next == DISABLED && l.fds == Stale))
            && (a.init != FailsLate && l.fds != Stale ==> l2.fds != Stale)
  {
    hide Next;
    MachineFacts(m, l.state, e, mdiff);
    MachineFacts(m, FAULTY, FAULT_CLEARED, false);
    MachineFacts(m, INITIALIZING, INIT_COMPLETE, false);
    MachineFacts(m, INITIALIZING, FAULT_DETECTED, false);
  }

  /** It does happen: on the very first dispatch, if initialization fails late. */
  lemma LateFailureClosesAgain(m: Machine)
    ensures var late := Answers(false, FailsLate);
            Dispatched(m, false, START, Occurrence(INITIALIZE, false, late, true, late)) == Life(FAULTY, Closed, 1)
  {
  }
}
