/** The four port state machines (fsm.c, designated_fsm.c). */
module PortFsm {
  datatype PortState =
    | INITIALIZING | FAULTY | DISABLED | LISTENING | PRE_MASTER | MASTER | PASSIVE | UNCALIBRATED | SLAVE | GRAND_MASTER

  datatype Event =
    | NONE | POWERUP | INITIALIZE | DESIGNATED_ENABLED | DESIGNATED_DISABLED | FAULT_CLEARED | FAULT_DETECTED
    | STATE_DECISION_EVENT | QUALIFICATION_TIMEOUT_EXPIRES | ANNOUNCE_RECEIPT_TIMEOUT_EXPIRES
    | SYNCHRONIZATION_FAULT | MASTER_CLOCK_SELECTED | INIT_COMPLETE
    | RS_MASTER | RS_GRAND_MASTER | RS_SLAVE | RS_PASSIVE

  datatype Machine = Ordinary | SlaveOnly | DesignatedMaster | DesignatedSlave

  predicate Enabled(s: PortState) { s != INITIALIZING && s != FAULTY && s != DISABLED }

  /** ptp_fsm. */
  function PtpFsm(s: PortState, e: Event, mdiff: bool): PortState {
    if e == INITIALIZE || e == POWERUP then INITIALIZING
    else
      match s
      case INITIALIZING => if e == FAULT_DETECTED then FAULTY else if e == INIT_COMPLETE then LISTENING else s
      case FAULTY => if e == DESIGNATED_DISABLED then DISABLED else if e == FAULT_CLEARED then INITIALIZING else s
      case DISABLED => if e == DESIGNATED_ENABLED then INITIALIZING else s
      case LISTENING =>
        (match e
         case DESIGNATED_DISABLED => DISABLED
         case FAULT_DETECTED => FAULTY
         case ANNOUNCE_RECEIPT_TIMEOUT_EXPIRES => MASTER
         case RS_MASTER => PRE_MASTER
         case RS_GRAND_MASTER => GRAND_MASTER
         case RS_SLAVE => UNCALIBRATED
         case RS_PASSIVE => PASSIVE
         case _ => s)
      case PRE_MASTER =>
        (match e
         case DESIGNATED_DISABLED => DISABLED
         case FAULT_DETECTED => FAULTY
         case QUALIFICATION_TIMEOUT_EXPIRES => MASTER
         case RS_SLAVE => UNCALIBRATED
         case RS_PASSIVE => PASSIVE
         case _ => s)
      case MASTER => FromMaster(s, e)
      case GRAND_MASTER => FromMaster(s, e)
      case PASSIVE =>
        (match e
         case DESIGNATED_DISABLED => DISABLED
         case FAULT_DETECTED => FAULTY
         case ANNOUNCE_RECEIPT_TIMEOUT_EXPIRES => MASTER
         case RS_MASTER => PRE_MASTER
         case RS_GRAND_MASTER => GRAND_MASTER
         case RS_SLAVE => UNCALIBRATED
         case _ => s)
      case UNCALIBRATED =>
        (match e
         case DESIGNATED_DISABLED => DISABLED
         case FAULT_DETECTED => FAULTY
         case ANNOUNCE_RECEIPT_TIMEOUT_EXPIRES => MASTER
         case MASTER_CLOCK_SELECTED => SLAVE
         case RS_MASTER => PRE_MASTER
         case RS_GRAND_MASTER => GRAND_MASTER
         case RS_PASSIVE => PASSIVE
         case _ => s)
      case SLAVE =>
        (match e
         case DESIGNATED_DISABLED => DISABLED
         case FAULT_DETECTED => FAULTY
         case ANNOUNCE_RECEIPT_TIMEOUT_EXPIRES => MASTER
         case SYNCHRONIZATION_FAULT => UNCALIBRATED
         case RS_MASTER => PRE_MASTER
         case RS_GRAND_MASTER => GRAND_MASTER
         case RS_SLAVE => if mdiff then UNCALIBRATED else s
         case RS_PASSIVE => PASSIVE
         case _ => s)
  }

  function FromMaster(s: PortState, e: Event): PortState {
    match e
    case DESIGNATED_DISABLED => DISABLED
    case FAULT_DETECTED => FAULTY
    case RS_SLAVE => UNCALIBRATED
    case RS_PASSIVE => PASSIVE
    case _ => s
  }

  /** ptp_slave_fsm. */
  function SlaveFsm(s: PortState, e: Event, mdiff: bool): PortState {
    if e == INITIALIZE || e == POWERUP then INITIALIZING
    else
      match s
      case INITIALIZING => if e == FAULT_DETECTED then FAULTY else if e == INIT_COMPLETE then LISTENING else s
      case FAULTY => if e == DESIGNATED_DISABLED then DISABLED else if e == FAULT_CLEARED then INITIALIZING else s
      case DISABLED => if e == DESIGNATED_ENABLED then INITIALIZING else s
      case LISTENING =>
        (match e
         case DESIGNATED_DISABLED => DISABLED
         case FAULT_DETECTED => FAULTY
         case RS_SLAVE => UNCALIBRATED
         case _ => s)
      case UNCALIBRATED =>
        (match e
         case DESIGNATED_DISABLED => DISABLED
         case FAULT_DETECTED => FAULTY
         case ANNOUNCE_RECEIPT_TIMEOUT_EXPIRES => LISTENING
         case RS_MASTER => LISTENING
         case RS_GRAND_MASTER => LISTENING
         case RS_PASSIVE => LISTENING
         case MASTER_CLOCK_SELECTED => SLAVE
         case _ => s)
      case SLAVE =>
        (match e
         case DESIGNATED_DISABLED => DISABLED
         case FAULT_DETECTED => FAULTY
         case ANNOUNCE_RECEIPT_TIMEOUT_EXPIRES => LISTENING
         case RS_MASTER => LISTENING
         case RS_GRAND_MASTER => LISTENING
         case RS_PASSIVE => LISTENING
         case SYNCHRONIZATION_FAULT => UNCALIBRATED
         case RS_SLAVE => if mdiff then UNCALIBRATED else s
         case _ => s)
      case _ => s
  }

  /** designated_master_fsm and designated_slave_fsm, which differ in the one working state. */
  function DesignatedFsm(s: PortState, e: Event, role: PortState): PortState {
    if e == INITIALIZE || e == POWERUP then INITIALIZING
    else if s == INITIALIZING then if e == FAULT_DETECTED then FAULTY else if e == INIT_COMPLETE then role else s
    else if s == FAULTY then if e == FAULT_CLEARED then INITIALIZING else s
    else if s == role then if e == FAULT_DETECTED then FAULTY else s
    else s
  }

  function Next(m: Machine, s: PortState, e: Event, mdiff: bool): PortState {
    match m
    case Ordinary => PtpFsm(s, e, mdiff)
    case SlaveOnly => SlaveFsm(s, e, mdiff)
    case DesignatedMaster => DesignatedFsm(s, e, MASTER)
    case DesignatedSlave => DesignatedFsm(s, e, SLAVE)
  }

  /** The only states a port ever gets to under a machine. */
  predicate Reachable(m: Machine, s: PortState) {
    match m
    case Ordinary => true
    case SlaveOnly => s in {INITIALIZING, FAULTY, DISABLED, LISTENING, UNCALIBRATED, SLAVE}
    case DesignatedMaster => s in {INITIALIZING, FAULTY, MASTER}
    case DesignatedSlave => s in {INITIALIZING, FAULTY, SLAVE}
  }

  /** The state a port goes on to when it is initialized. */
  function FirstWorking(m: Machine): PortState {
    match m
    case DesignatedMaster => MASTER
    case DesignatedSlave => SLAVE
    case _ => LISTENING
  }

  /**
   * What the life cycle of a port relies on, in all four machines: a port starts working only when its
   * initialization completes; a detected fault never leaves a working port working; and none of the machines leaves
   * its reachable states.
   */
  lemma MachineFacts(m: Machine, s: PortState, e: Event, mdiff: bool)
    ensures !Enabled(s) && Enabled(Next(m, s, e, mdiff)) ==>
              s == INITIALIZING && e == INIT_COMPLETE && Next(m, s, e, mdiff) == FirstWorking(m)
    ensures Next(m, INITIALIZING, INIT_COMPLETE, mdiff) == FirstWorking(m) && Enabled(FirstWorking(m))
    ensures Next(m, INITIALIZING, FAULT_DETECTED, mdiff) == FAULTY
    ensures Next(m, FAULTY, FAULT_CLEARED, mdiff) == INITIALIZING
    ensures Reachable(m, s) && Enabled(s) ==> Next(m, s, FAULT_DETECTED, mdiff) == FAULTY
    ensures Reachable(m, s) ==> Reachable(m, Next(m, s, e, mdiff))
    ensures Next(m, s, e, mdiff) == INITIALIZING <==>
              || e == INITIALIZE || e == POWERUP
              || (s == FAULTY && e == FAULT_CLEARED)
              || (s == DISABLED && e == DESIGNATED_ENABLED && (m == Ordinary || m == SlaveOnly))
              || (s == INITIALIZING && e != FAULT_DETECTED && e != INIT_COMPLETE)
  {
  }

  // ----- the ways into each state

  predicate Restarts(e: Event) { e == INITIALIZE || e == POWERUP }

  /** The machines that a port follows when its role is not given beforehand. */
  predicate Negotiates(m: Machine) { m == Ordinary || m == SlaveOnly }

  /** A port is faulty when a fault is detected, until it is cleared or the port is disabled or restarted. */
  lemma FaultyExactly(m: Machine, s: PortState, e: Event, mdiff: bool)
    ensures Next(m, s, e, mdiff) == FAULTY <==>
              || (e == FAULT_DETECTED && Reachable(m, s) && s != DISABLED)
              || (s == FAULTY && !Restarts(e) && e != FAULT_CLEARED && !(e == DESIGNATED_DISABLED && Negotiates(m)))
  {
    match s
    case INITIALIZING =>
    case FAULTY =>
    case DISABLED =>
    case LISTENING =>
    case UNCALIBRATED =>
    case SLAVE =>
    case _ =>
  }

  /** And it is disabled by the management, until that enables it again. */
  lemma DisabledExactly(m: Machine, s: PortState, e: Event, mdiff: bool)
    ensures Next(m, s, e, mdiff) == DISABLED <==>
              || (e == DESIGNATED_DISABLED && Negotiates(m) && Reachable(m, s) && s != INITIALIZING)
              || (s == DISABLED && !Restarts(e) && !(e == DESIGNATED_ENABLED && Negotiates(m)))
  {
    match s
    case INITIALIZING =>
    case FAULTY =>
    case DISABLED =>
    case LISTENING =>
    case UNCALIBRATED =>
    case SLAVE =>
    case _ =>
  }

  /** The states of a port that may become a master under the ordinary machine. */
  lemma MasterExactly(s: PortState, e: Event, mdiff: bool)
    ensures var open := {LISTENING, PASSIVE, UNCALIBRATED, SLAVE};
            var ends := {INITIALIZE, POWERUP, DESIGNATED_DISABLED, FAULT_DETECTED, RS_SLAVE, RS_PASSIVE};
            var next := Next(Ordinary, s, e, mdiff);
            && (next == PRE_MASTER <==>
                  || (s in open && e == RS_MASTER)
                  || (s == PRE_MASTER && e !in ends && e != QUALIFICATION_TIMEOUT_EXPIRES))
            && (next == MASTER <==>
                  || (s in open && e == ANNOUNCE_RECEIPT_TIMEOUT_EXPIRES)
                  || (s == PRE_MASTER && e == QUALIFICATION_TIMEOUT_EXPIRES)
                  || (s == MASTER && e !in ends))
            && (next == GRAND_MASTER <==>
                  || (s in open && e == RS_GRAND_MASTER)
                  || (s == GRAND_MASTER && e !in ends))
  {
  }

  /** A port is passive when told so in a state that can still be decided, until it is told otherwise. */
  lemma PassiveExactly(s: PortState, e: Event, mdiff: bool)
    ensures Next(Ordinary, s, e, mdiff) == PASSIVE <==>
              || (e == RS_PASSIVE && Enabled(s))
              || (s == PASSIVE && e !in {INITIALIZE, POWERUP, DESIGNATED_DISABLED, FAULT_DETECTED,
                                         ANNOUNCE_RECEIPT_TIMEOUT_EXPIRES, RS_MASTER, RS_GRAND_MASTER, RS_SLAVE})
  {
  }

  /** Under the other machines nothing leads to these states, and from them only a restart leads away. */
  lemma OnlyOrdinary(m: Machine, s: PortState, e: Event, mdiff: bool, target: PortState)
    requires m != Ordinary
    requires target in {PRE_MASTER, GRAND_MASTER, PASSIVE} || (target == MASTER && m != DesignatedMaster)
    ensures Next(m, s, e, mdiff) == target <==> s == target && !Restarts(e)
  {
  }

  /** A port listens once it is initialized; a port that can only be a slave listens again when it loses its master. */
  lemma ListensExactly(m: Machine, s: PortState, e: Event, mdiff: bool)
    ensures var lost := {ANNOUNCE_RECEIPT_TIMEOUT_EXPIRES, RS_MASTER, RS_GRAND_MASTER, RS_PASSIVE};
            Next(m, s, e, mdiff) == LISTENING <==>
              || (Negotiates(m) && s == INITIALIZING && e == INIT_COMPLETE)
              || (m == SlaveOnly && (s == UNCALIBRATED || s == SLAVE) && e in lost)
              || (s == LISTENING && !Restarts(e)
                  && !(Negotiates(m) && e in {DESIGNATED_DISABLED, FAULT_DETECTED, RS_SLAVE})
                  && !(m == Ordinary && e in lost))
  {
  }

  /**
   * A port is uncalibrated when it is to become a slave, or when a slave is out of synchronization or gets another
   * master, until it has calibrated itself or loses its master.
   */
  lemma UncalibratedExactly(m: Machine, s: PortState, e: Event, mdiff: bool)
    ensures var lost := {ANNOUNCE_RECEIPT_TIMEOUT_EXPIRES, RS_MASTER, RS_GRAND_MASTER, RS_PASSIVE};
            Next(m, s, e, mdiff) == UNCALIBRATED <==>
              || (e == RS_SLAVE && m == Ordinary && Enabled(s) && s != SLAVE)
              || (e == RS_SLAVE && m == SlaveOnly && s == LISTENING)
              || (Negotiates(m) && s == SLAVE && (e == SYNCHRONIZATION_FAULT || (e == RS_SLAVE && mdiff)))
              || (s == UNCALIBRATED && !Restarts(e)
                  && !(Negotiates(m) && (e in {DESIGNATED_DISABLED, FAULT_DETECTED, MASTER_CLOCK_SELECTED} || e in lost)))
  {
    match s
    case INITIALIZING =>
    case FAULTY =>
    case DISABLED =>
    case LISTENING =>
    case UNCALIBRATED =>
    case SLAVE =>
    case _ =>
  }

  /** A port is a slave once it has calibrated itself, or if it is designated one, until one of these events. */
  lemma SlaveExactly(m: Machine, s: PortState, e: Event, mdiff: bool)
    ensures var lost := {ANNOUNCE_RECEIPT_TIMEOUT_EXPIRES, RS_MASTER, RS_GRAND_MASTER, RS_PASSIVE};
            Next(m, s, e, mdiff) == SLAVE <==>
              || (Negotiates(m) && s == UNCALIBRATED && e == MASTER_CLOCK_SELECTED)
              || (m == DesignatedSlave && s == INITIALIZING && e == INIT_COMPLETE)
              || (s == SLAVE && !Restarts(e)
                  && !(m == DesignatedSlave && e == FAULT_DETECTED)
                  && !(Negotiates(m) && (e in {DESIGNATED_DISABLED, FAULT_DETECTED, SYNCHRONIZATION_FAULT} || e in lost
                                         || (e == RS_SLAVE && mdiff))))
  {
  }

  lemma DesignatedMasterExactly(s: PortState, e: Event, mdiff: bool)
    ensures Next(DesignatedMaster, s, e, mdiff) == MASTER <==>
              || (s == INITIALIZING && e == INIT_COMPLETE)
              || (s == MASTER && !Restarts(e) && e != FAULT_DETECTED)
  {
  }
}
