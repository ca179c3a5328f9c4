/**
 * The servo state shared between processes (servo.c): exclusive creation, publication by a magic number, and
 * updates and reads under a semaphore. Every step of a process is one access to something shared; memory is
 * sequentially consistent.
 */
module ServoShm {
  import opened ServoTypes

  /** 5000 ms in polls of 1 ms. */
  const MAX_POLLS := 5000

  /** The mapped structure; the semaphore means nothing before it is initialised. */
  datatype Memory = Memory(magic: bool, semReady: bool, sem: nat, initialized: bool, state: ServoState, domain: int)

  const ZEROED := Memory(false, false, 0, false, Unlocked, 0)

  /** Where a process is; in Attached and all that follows it has got a mapping from create. */
  datatype Pc =
    | Idle
    | Opening | OpeningExclusive | Reopening
    | Sizing | Mapping(creator: bool) | Clearing | Filling | InitSem | Publishing
    | Polling(polls: nat) | LastLook
    | Faulted
    | Attached
    | WaitUpdate(newState: ServoState, newDomain: int)
    | WriteState(newState: ServoState, newDomain: int)
    | WriteDomain(newState: ServoState, newDomain: int)
    | WriteInitialized(newState: ServoState, newDomain: int)
    | PostUpdate(newState: ServoState, newDomain: int)
    | WaitRead(wanted: int)
    | Check(wanted: int)
    | Fetch(wanted: int)
    | PostRead(wanted: int, got: ServoState)
    | PostRefused

  /** An update that returned success. */
  datatype Update = Update(state: ServoState, domain: int)

  /** A read that returned success, and how many updates had done so by then. */
  datatype Read = Read(wanted: int, got: ServoState, updates: nat)

  datatype System = System(
    present: bool,
    sized: bool,
    mem: Memory,
    pcs: map<nat, Pc>,
    creators: seq<nat>,
    updates: seq<Update>,
    results: seq<Read>)

  const START := System(false, false, ZEROED, map[], [], [], [])

  /** What happens next: a process begins an operation, or goes on; ok tells if the system call it makes succeeds. */
  datatype Move = CallCreate | CallUpdate(state: ServoState, domain: int) | CallRead(domain: int) | Go(ok: bool)

  function PcOf(s: System, p: nat): Pc { if p in s.pcs then s.pcs[p] else Idle }

  function At(s: System, p: nat, pc: Pc): System { s.(pcs := s.pcs[p := pc]) }

  // ----- the steps

  function Step(s: System, p: nat, m: Move): System {
    var pc := PcOf(s, p);
    match m
    case CallCreate => if pc == Idle then At(s, p, Opening) else s
    case CallUpdate(state, domain) => if pc == Attached then At(s, p, WaitUpdate(state, domain)) else s
    case CallRead(domain) => if pc == Attached then At(s, p, WaitRead(domain)) else s
    case Go(ok) =>
      if pc.Idle? || pc.Faulted? || pc.Attached? then s
      else if Opens(pc) then OpenStep(s, p, ok)
      else if Creates(pc) then CreatorStep(s, p, ok)
      else if Polls(pc) then PollStep(s, p)
      else if Updates(pc) then UpdateStep(s, p, ok)
      else ReadStep(s, p, ok)
  }

  predicate Opens(pc: Pc) { pc.Opening? || pc.OpeningExclusive? || pc.Reopening? || pc == Mapping(false) }

  predicate Creates(pc: Pc) {
    pc.Sizing? || pc == Mapping(true) || pc.Clearing? || pc.Filling? || pc.InitSem? || pc.Publishing?
  }

  predicate Polls(pc: Pc) { pc.Polling? || pc.LastLook? }

  predicate Updates(pc: Pc) {
    pc.WaitUpdate? || pc.WriteState? || pc.WriteDomain? || pc.WriteInitialized? || pc.PostUpdate?
  }

  predicate Reads(pc: Pc) { pc.WaitRead? || pc.Check? || pc.Fetch? || pc.PostRead? || pc.PostRefused? }

  predicate HasMapping(pc: Pc) { pc.Attached? || Updates(pc) || Reads(pc) }

  /** Between sem_wait and sem_post. */
  predicate Critical(pc: Pc) { (Updates(pc) && !pc.WaitUpdate?) || (Reads(pc) && !pc.WaitRead?) }

  /** Open what is there, or else create it exclusively, or else open what another process has created since. */
  function OpenStep(s: System, p: nat, ok: bool): System
    requires Opens(PcOf(s, p))
  {
    if !ok then At(s, p, Idle)
    else
      match PcOf(s, p)
      case Opening => At(s, p, if s.present then Mapping(false) else OpeningExclusive)
      case OpeningExclusive =>
        if s.present then At(s, p, Reopening)
        else At(s, p, Sizing).(present := true, creators := s.creators + [p])
      case Reopening => At(s, p, Mapping(false))
      case Mapping(_) => At(s, p, Polling(0))
  }

  function CreatorStep(s: System, p: nat, ok: bool): System
    requires Creates(PcOf(s, p))
  {
    match PcOf(s, p)
    case Sizing => if ok then At(s, p, Mapping(true)).(sized := true) else At(s, p, Idle)
    case Mapping(_) => At(s, p, if ok then Clearing else Idle)
    case Clearing => At(s, p, Filling).(mem := ZEROED)
    case Filling =>
      At(s, p, InitSem).(mem := s.mem.(magic := false, initialized := false, state := Unlocked, domain := -1))
    case InitSem => if ok then At(s, p, Publishing).(mem := s.mem.(semReady := true, sem := 1)) else At(s, p, Idle)
    case Publishing => At(s, p, Attached).(mem := s.mem.(magic := true))
  }

  /** Waiting for the magic number; looking at an object that has no size yet is a bus error. */
  function PollStep(s: System, p: nat): System
    requires Polls(PcOf(s, p))
  {
    if !s.sized then At(s, p, Faulted)
    else if s.mem.magic then At(s, p, Attached)
    else
      match PcOf(s, p)
      case Polling(polls) => At(s, p, if polls < MAX_POLLS then Polling(polls + 1) else LastLook)
      case LastLook => At(s, p, Idle)
  }

  /** sem_wait: fails, or blocks, or goes on. */
  function Wait(s: System, p: nat, ok: bool, next: Pc): System {
    if !ok then At(s, p, Attached)
    else if s.mem.sem == 0 then s
    else At(s, p, next).(mem := s.mem.(sem := s.mem.sem - 1))
  }

  /** sem_post: if it fails, the semaphore stays taken although the process goes on. */
  function Post(s: System, p: nat, ok: bool): System {
    At(s, p, Attached).(mem := if ok then s.mem.(sem := s.mem.sem + 1) else s.mem)
  }

  function UpdateStep(s: System, p: nat, ok: bool): System
    requires Updates(PcOf(s, p))
  {
    match PcOf(s, p)
    case WaitUpdate(state, domain) => Wait(s, p, ok, WriteState(state, domain))
    case WriteState(state, domain) => At(s, p, WriteDomain(state, domain)).(mem := s.mem.(state := state))
    case WriteDomain(state, domain) => At(s, p, WriteInitialized(state, domain)).(mem := s.mem.(domain := domain))
    case WriteInitialized(state, domain) => At(s, p, PostUpdate(state, domain)).(mem := s.mem.(initialized := true))
    case PostUpdate(state, domain) =>
      Post(s, p, ok).(updates := if ok then s.updates + [Update(state, domain)] else s.updates)
  }

  function ReadStep(s: System, p: nat, ok: bool): System
    requires Reads(PcOf(s, p))
  {
    match PcOf(s, p)
    case WaitRead(wanted) => Wait(s, p, ok, Check(wanted))
    case Check(wanted) => At(s, p, if !s.mem.initialized || s.mem.domain != wanted then PostRefused else Fetch(wanted))
    case Fetch(wanted) => At(s, p, PostRead(wanted, s.mem.state))
    case PostRead(wanted, got) =>
      Post(s, p, ok).(results := if ok then s.results + [Read(wanted, got, |s.updates|)] else s.results)
    case PostRefused => Post(s, p, ok)
  }

  function Run(s: System, moves: seq<(nat, Move)>): System
    decreases |moves|
  {
    if moves == [] then s else Run(Step(s, moves[0].0, moves[0].1), moves[1..])
  }

  // ----- what is safe

  /** A successful read got what the latest completed update wrote, and that update was for the wanted domain. */
  ghost predicate ReadIsLatest(r: Read, updates: seq<Update>) {
    0 < r.updates <= |updates| && updates[r.updates - 1] == Update(r.got, r.wanted)
  }

  ghost predicate Safe(s: System) {
    && |s.creators| <= 1
    && (forall p: nat :: HasMapping(PcOf(s, p)) ==> s.mem.semReady)
    && (forall p: nat, q: nat :: Critical(PcOf(s, p)) && Critical(PcOf(s, q)) ==> p == q)
    && (forall r :: r in s.results ==> ReadIsLatest(r, s.updates))
  }

  // ----- why

  /** The one creator, and how far it is. */
  ghost predicate Creation(s: System) {
    && |s.creators| == (if s.present then 1 else 0)
    && (s.sized ==> s.present)
    && (s.mem.semReady ==> s.sized)
    && (s.mem.magic ==> s.mem.semReady)
    && (forall p: nat :: Creates(PcOf(s, p)) ==>
          && s.creators != [] && s.creators[0] == p && !s.mem.magic
          && (PcOf(s, p).Publishing? <==> s.mem.semReady)
          && (PcOf(s, p).Sizing? <==> !s.sized))
    && (forall p: nat :: PcOf(s, p).Reopening? || PcOf(s, p) == Mapping(false) || Polls(PcOf(s, p)) ==> s.present)
    && (forall p: nat :: HasMapping(PcOf(s, p)) ==> s.mem.magic)
  }

  /** One process at most holds the semaphore. */
  ghost predicate Exclusion(s: System) {
    && s.mem.sem <= 1
    && (forall p: nat :: Critical(PcOf(s, p)) ==> s.mem.sem == 0)
    && (forall p: nat, q: nat :: Critical(PcOf(s, p)) && Critical(PcOf(s, q)) ==> p == q)
  }

  ghost predicate Holds(mem: Memory, updates: seq<Update>) {
    if updates == [] then !mem.initialized
    else mem.initialized && Update(mem.state, mem.domain) == updates[|updates| - 1]
  }

  /** While nobody is writing the memory holds the latest completed update; a writer has written what it has passed. */
  ghost predicate Contents(s: System) {
    && (!s.mem.magic ==> s.updates == [])
    && (s.mem.semReady && s.mem.sem == 1 ==> Holds(s.mem, s.updates))
    && (forall p: nat ::
          match PcOf(s, p)
          case InitSem => Holds(s.mem, s.updates)
          case Publishing => s.mem.sem == 1
          case WriteDomain(state, domain) => s.mem.state == state
          case WriteInitialized(state, domain) => s.mem.state == state && s.mem.domain == domain
          case PostUpdate(state, domain) => s.mem.state == state && s.mem.domain == domain && s.mem.initialized
          case Check(wanted) => Holds(s.mem, s.updates)
          case Fetch(wanted) => Holds(s.mem, s.updates) && s.mem.initialized && s.mem.domain == wanted
          case PostRead(wanted, got) =>
            Holds(s.mem, s.updates) && s.mem.initialized && s.mem.domain == wanted && s.mem.state == got
          case PostRefused => Holds(s.mem, s.updates)
          case _ => true)
    && (forall r :: r in s.results ==> ReadIsLatest(r, s.updates))
  }

  ghost predicate Inv(s: System) { Creation(s) && Exclusion(s) && Contents(s) }

  /** A step of p leaves all other processes where they are. */
  lemma OthersStay(s: System, p: nat, s': System)
    requires s'.pcs == s.pcs || (p in s'.pcs && s'.pcs == s.pcs[p := s'.pcs[p]])
    ensures forall q: nat :: q != p ==> PcOf(s', q) == PcOf(s, q)
    ensures s'.pcs == s.pcs ==> PcOf(s', p) == PcOf(s, p)
    ensures p in s'.pcs ==> PcOf(s', p) == s'.pcs[p]
  {
  }

  /** While the creator is at work no other process is beyond polling. */
  lemma NobodyElse(s: System, p: nat)
    requires Creation(s) && Creates(PcOf(s, p))
    ensures forall q: nat :: q != p ==> !Creates(PcOf(s, q)) && !HasMapping(PcOf(s, q))
  {
  }

  lemma NobodyYet(s: System)
    requires Creation(s) && !s.present
    ensures forall q: nat :: !Creates(PcOf(s, q)) && !HasMapping(PcOf(s, q))
  {
  }

  lemma CallKeepsCreation(s: System, p: nat, m: Move)
    requires Creation(s) && !m.Go?
    ensures Creation(Step(s, p, m))
  {
    OthersStay(s, p, Step(s, p, m));
    hide PcOf;
  }

  lemma CallKeepsExclusion(s: System, p: nat, m: Move)
    requires Creation(s) && Exclusion(s) && !m.Go?
    ensures Exclusion(Step(s, p, m))
  {
    OthersStay(s, p, Step(s, p, m));
    hide PcOf;
  }

  lemma CallKeepsContents(s: System, p: nat, m: Move)
    requires Inv(s) && !m.Go?
    ensures Contents(Step(s, p, m))
  {
    OthersStay(s, p, Step(s, p, m));
    hide PcOf;
  }

  lemma CallKeeps(s: System, p: nat, m: Move)
    requires Inv(s) && !m.Go?
    ensures Inv(Step(s, p, m))
  {
    hide Creation, Exclusion, Contents;
    CallKeepsCreation(s, p, m);
    CallKeepsExclusion(s, p, m);
    CallKeepsContents(s, p, m);
  }

  lemma OpenKeepsCreation(s: System, p: nat, ok: bool)
    requires Creation(s) && Opens(PcOf(s, p))
    ensures Creation(OpenStep(s, p, ok))
  {
    OthersStay(s, p, OpenStep(s, p, ok));
    if !s.present {
      NobodyYet(s);
      assert s.creators + [p] == [p];
    }
    hide PcOf;
  }

  lemma OpenKeepsExclusion(s: System, p: nat, ok: bool)
    requires Creation(s) && Exclusion(s) && Opens(PcOf(s, p))
    ensures Exclusion(OpenStep(s, p, ok))
  {
    OthersStay(s, p, OpenStep(s, p, ok));
    hide PcOf;
  }

  lemma OpenKeepsContents(s: System, p: nat, ok: bool)
    requires Inv(s) && Opens(PcOf(s, p))
    ensures Contents(OpenStep(s, p, ok))
  {
    OthersStay(s, p, OpenStep(s, p, ok));
    hide PcOf;
  }

  lemma OpenKeeps(s: System, p: nat, ok: bool)
    requires Inv(s) && Opens(PcOf(s, p))
    ensures Inv(OpenStep(s, p, ok))
  {
    hide Creation, Exclusion, Contents;
    OpenKeepsCreation(s, p, ok);
    OpenKeepsExclusion(s, p, ok);
    OpenKeepsContents(s, p, ok);
  }

  lemma CreatorKeepsCreation(s: System, p: nat, ok: bool)
    requires Creation(s) && Creates(PcOf(s, p))
    ensures Creation(CreatorStep(s, p, ok))
  {
    OthersStay(s, p, CreatorStep(s, p, ok));
    NobodyElse(s, p);
    hide PcOf;
  }

  lemma CreatorKeepsExclusion(s: System, p: nat, ok: bool)
    requires Creation(s) && Exclusion(s) && Creates(PcOf(s, p))
    ensures Exclusion(CreatorStep(s, p, ok))
  {
    OthersStay(s, p, CreatorStep(s, p, ok));
    NobodyElse(s, p);
    hide PcOf;
  }

  lemma CreatorKeepsContents(s: System, p: nat, ok: bool)
    requires Inv(s) && Creates(PcOf(s, p))
    ensures Contents(CreatorStep(s, p, ok))
  {
    OthersStay(s, p, CreatorStep(s, p, ok));
    NobodyElse(s, p);
    hide PcOf;
  }

  lemma CreatorKeeps(s: System, p: nat, ok: bool)
    requires Inv(s) && Creates(PcOf(s, p))
    ensures Inv(CreatorStep(s, p, ok))
  {
    hide Creation, Exclusion, Contents;
    CreatorKeepsCreation(s, p, ok);
    CreatorKeepsExclusion(s, p, ok);
    CreatorKeepsContents(s, p, ok);
  }

  lemma PollKeepsCreation(s: System, p: nat)
    requires Creation(s) && Polls(PcOf(s, p))
    ensures Creation(PollStep(s, p))
  {
    OthersStay(s, p, PollStep(s, p));
    hide PcOf;
  }

  lemma PollKeepsExclusion(s: System, p: nat)
    requires Creation(s) && Exclusion(s) && Polls(PcOf(s, p))
    ensures Exclusion(PollStep(s, p))
  {
    OthersStay(s, p, PollStep(s, p));
    hide PcOf;
  }

  lemma PollKeepsContents(s: System, p: nat)
    requires Inv(s) && Polls(PcOf(s, p))
    ensures Contents(PollStep(s, p))
  {
    OthersStay(s, p, PollStep(s, p));
    hide PcOf;
  }

  lemma PollKeeps(s: System, p: nat)
    requires Inv(s) && Polls(PcOf(s, p))
    ensures Inv(PollStep(s, p))
  {
    hide Creation, Exclusion, Contents;
    PollKeepsCreation(s, p);
    PollKeepsExclusion(s, p);
    PollKeepsContents(s, p);
  }

  lemma UpdateKeepsCreation(s: System, p: nat, ok: bool)
    requires Creation(s) && Updates(PcOf(s, p))
    ensures Creation(UpdateStep(s, p, ok))
  {
    OthersStay(s, p, UpdateStep(s, p, ok));
    hide PcOf;
  }

  lemma UpdateKeepsExclusion(s: System, p: nat, ok: bool)
    requires Creation(s) && Exclusion(s) && Updates(PcOf(s, p))
    ensures Exclusion(UpdateStep(s, p, ok))
  {
    OthersStay(s, p, UpdateStep(s, p, ok));
    hide PcOf;
  }

  lemma UpdateKeepsContents(s: System, p: nat, ok: bool)
    requires Inv(s) && Updates(PcOf(s, p))
    ensures Contents(UpdateStep(s, p, ok))
  {
    OthersStay(s, p, UpdateStep(s, p, ok));
    hide PcOf;
  }

  lemma UpdateKeeps(s: System, p: nat, ok: bool)
    requires Inv(s) && Updates(PcOf(s, p))
    ensures Inv(UpdateStep(s, p, ok))
  {
    hide Creation, Exclusion, Contents;
    UpdateKeepsCreation(s, p, ok);
    UpdateKeepsExclusion(s, p, ok);
    UpdateKeepsContents(s, p, ok);
  }

  lemma ReadKeepsCreation(s: System, p: nat, ok: bool)
    requires Creation(s) && Reads(PcOf(s, p))
    ensures Creation(ReadStep(s, p, ok))
  {
    OthersStay(s, p, ReadStep(s, p, ok));
    hide PcOf;
  }

  lemma ReadKeepsExclusion(s: System, p: nat, ok: bool)
    requires Creation(s) && Exclusion(s) && Reads(PcOf(s, p))
    ensures Exclusion(ReadStep(s, p, ok))
  {
    OthersStay(s, p, ReadStep(s, p, ok));
    hide PcOf;
  }

  lemma ReadKeepsContents(s: System, p: nat, ok: bool)
    requires Inv(s) && Reads(PcOf(s, p))
    ensures Contents(ReadStep(s, p, ok))
  {
    OthersStay(s, p, ReadStep(s, p, ok));
    hide PcOf;
  }

  lemma ReadKeeps(s: System, p: nat, ok: bool)
    requires Inv(s) && Reads(PcOf(s, p))
    ensures Inv(ReadStep(s, p, ok))
  {
    hide Creation, Exclusion, Contents;
    ReadKeepsCreation(s, p, ok);
    ReadKeepsExclusion(s, p, ok);
    ReadKeepsContents(s, p, ok);
  }

  lemma StepKeeps(s: System, p: nat, m: Move)
    requires Inv(s)
    ensures Inv(Step(s, p, m))
  {
    hide Inv;
    var pc := PcOf(s, p);
    if !m.Go? {
      CallKeeps(s, p, m);
    } else if pc.Idle? || pc.Faulted? || pc.Attached? {
    } else if Opens(pc) {
      OpenKeeps(s, p, m.ok);
    } else if Creates(pc) {
      CreatorKeeps(s, p, m.ok);
    } else if Polls(pc) {
      PollKeeps(s, p);
    } else if Updates(pc) {
      UpdateKeeps(s, p, m.ok);
    } else {
      ReadKeeps(s, p, m.ok);
    }
  }

  lemma {:induction false} RunKeeps(s: System, moves: seq<(nat, Move)>)
    requires Inv(s)
    ensures Inv(Run(s, moves))
    decreases |moves|
  {
    hide Inv, Step;
    if moves != [] {
      StepKeeps(s, moves[0].0, moves[0].1);
      RunKeeps(Step(s, moves[0].0, moves[0].1), moves[1..]);
    }
  }

  /** In every interleaving of any number of processes, with any failures of their system calls. */
  lemma EveryRunIsSafe(moves: seq<(nat, Move)>)
    ensures Safe(Run(START, moves))
  {
    RunKeeps(START, moves);
  }

  /**
   * What create does not protect from: a process that finds the object before its creator has given it a size gets
   * a bus error when it looks for the magic number.
   */
  lemma EarlyLookFaults()
    ensures PcOf(Run(START, CreateMoves(0) + LookMoves(1)), 1) == Faulted
  {
    FirstCreates(START, 0);
    SecondLooks(Run(START, CreateMoves(0)), 1);
    RunBoth(START, CreateMoves(0), LookMoves(1));
  }

  /** A process finds no object and creates it, without getting any further. */
  function CreateMoves(p: nat): seq<(nat, Move)> { [(p, CallCreate), (p, Go(true)), (p, Go(true))] }

  /** A process opens the object, maps it and looks. */
  function LookMoves(p: nat): seq<(nat, Move)> { [(p, CallCreate), (p, Go(true)), (p, Go(true)), (p, Go(true))] }

  lemma FirstCreates(s: System, p: nat)
    requires !s.present && PcOf(s, p) == Idle
    ensures var s' := Run(s, CreateMoves(p));
            s'.present && s'.sized == s.sized && forall q: nat :: q != p ==> PcOf(s', q) == PcOf(s, q)
  {
    hide Run, Step;
    var goes := [(p, Go(true)), (p, Go(true))];
    var s1 := At(s, p, Opening);
    var s2 := At(s1, p, OpeningExclusive);
    var s3 := At(s2, p, Sizing).(present := true, creators := s2.creators + [p]);
    CreateSteps(s, p, s1, s2, s3);
    RunOne(s, p, CallCreate, goes);
    RunOne(s1, p, Go(true), goes[1..]);
    RunLast(s2, p, Go(true));
    assert CreateMoves(p) == [(p, CallCreate)] + goes && goes == [(p, Go(true))] + goes[1..];
  }

  lemma CreateSteps(s: System, p: nat, s1: System, s2: System, s3: System)
    requires !s.present && PcOf(s, p) == Idle
    requires s1 == At(s, p, Opening) && s2 == At(s1, p, OpeningExclusive)
    requires s3 == At(s2, p, Sizing).(present := true, creators := s2.creators + [p])
    ensures Step(s, p, CallCreate) == s1 && Step(s1, p, Go(true)) == s2 && Step(s2, p, Go(true)) == s3
  {
    hide CreatorStep, UpdateStep, ReadStep, PollStep;
  }

  lemma SecondLooks(s: System, p: nat)
    requires s.present && !s.sized && PcOf(s, p) == Idle
    ensures PcOf(Run(s, LookMoves(p)), p) == Faulted
  {
    hide Run, Step;
    var looks := [(p, Go(true)), (p, Go(true)), (p, Go(true))];
    var s1 := At(s, p, Opening);
    var s2 := At(s1, p, Mapping(false));
    var s3 := At(s2, p, Polling(0));
    LookSteps(s, p, s1, s2, s3);
    RunOne(s, p, CallCreate, looks);
    RunOne(s1, p, Go(true), looks[1..]);
    RunOne(s2, p, Go(true), looks[2..]);
    RunLast(s3, p, Go(true));
    assert LookMoves(p) == [(p, CallCreate)] + looks;
    assert looks == [(p, Go(true))] + looks[1..] && looks[1..] == [(p, Go(true))] + looks[2..];
    assert looks[2..] == [(p, Go(true))];
  }

  lemma LookSteps(s: System, p: nat, s1: System, s2: System, s3: System)
    requires s.present && !s.sized && PcOf(s, p) == Idle
    requires s1 == At(s, p, Opening) && s2 == At(s1, p, Mapping(false)) && s3 == At(s2, p, Polling(0))
    ensures Step(s, p, CallCreate) == s1 && Step(s1, p, Go(true)) == s2 && Step(s2, p, Go(true)) == s3
    ensures PcOf(Step(s3, p, Go(true)), p) == Faulted
  {
    hide CreatorStep, UpdateStep, ReadStep;
  }

  lemma RunOne(s: System, p: nat, m: Move, rest: seq<(nat, Move)>)
    ensures Run(s, [(p, m)] + rest) == Run(Step(s, p, m), rest)
  {
  }

  lemma RunLast(s: System, p: nat, m: Move)
    ensures Run(s, [(p, m)]) == Step(s, p, m)
  {
  }

  lemma {:induction false} RunBoth(s: System, first: seq<(nat, Move)>, after: seq<(nat, Move)>)
    ensures Run(s, first + after) == Run(Run(s, first), after)
    decreases |first|
  {
    hide Step;
    if first == [] {
      assert first + after == after;
    } else {
      RunBoth(Step(s, first[0].0, first[0].1), first[1..], after);
      assert (first + after)[1..] == first[1..] + after;
    }
  }

  /** Nobody faults on a run on which, whenever a process looks for the magic number, the object has its size. */
  ghost predicate LooksInTime(s: System, moves: seq<(nat, Move)>)
    decreases |moves|
  {
    moves == [] || (&& (Polls(PcOf(s, moves[0].0)) && moves[0].1.Go? ==> s.sized)
                    && LooksInTime(Step(s, moves[0].0, moves[0].1), moves[1..]))
  }

  ghost predicate NobodyFaulted(s: System) { forall p: nat :: !PcOf(s, p).Faulted? }

  ghost predicate OthersKept(s: System, p: nat, s': System) {
    forall q: nat :: q != p ==> PcOf(s', q) == PcOf(s, q)
  }

  lemma UpdateStepKeepsOthers(s: System, p: nat, ok: bool)
    requires Updates(PcOf(s, p))
    ensures OthersKept(s, p, UpdateStep(s, p, ok))
  {
  }

  lemma ReadStepKeepsOthers(s: System, p: nat, ok: bool)
    requires Reads(PcOf(s, p))
    ensures OthersKept(s, p, ReadStep(s, p, ok))
  {
  }

  lemma OpenStepKeepsOthers(s: System, p: nat, ok: bool)
    requires Opens(PcOf(s, p))
    ensures OthersKept(s, p, OpenStep(s, p, ok))
  {
  }

  lemma CreatorStepKeepsOthers(s: System, p: nat, ok: bool)
    requires Creates(PcOf(s, p))
    ensures OthersKept(s, p, CreatorStep(s, p, ok))
  {
  }

  /** A step moves no process but its own. */
  lemma StepMovesOne(s: System, p: nat, m: Move)
    ensures OthersKept(s, p, Step(s, p, m))
  {
    hide UpdateStep, ReadStep, OpenStep, CreatorStep;
    var pc := PcOf(s, p);
    if m.Go? && Opens(pc) {
      OpenStepKeepsOthers(s, p, m.ok);
    } else if m.Go? && Creates(pc) {
      CreatorStepKeepsOthers(s, p, m.ok);
    } else if m.Go? && Updates(pc) {
      UpdateStepKeepsOthers(s, p, m.ok);
    } else if m.Go? && Reads(pc) {
      ReadStepKeepsOthers(s, p, m.ok);
    }
  }

  lemma StepFaults(s: System, p: nat, m: Move)
    ensures PcOf(Step(s, p, m), p).Faulted?
            <==> PcOf(s, p).Faulted? || (Polls(PcOf(s, p)) && m.Go? && !s.sized)
  {
    hide UpdateStep, ReadStep, OpenStep, CreatorStep;
    var pc := PcOf(s, p);
    if m.Go? && Opens(pc) {
      OpenNeverFaults(s, p, m.ok);
    } else if m.Go? && Creates(pc) {
      CreatorNeverFaults(s, p, m.ok);
    } else if m.Go? && Updates(pc) {
      UpdateNeverFaults(s, p, m.ok);
    } else if m.Go? && Reads(pc) {
      ReadNeverFaults(s, p, m.ok);
    }
  }

  lemma OpenNeverFaults(s: System, p: nat, ok: bool)
    requires Opens(PcOf(s, p))
    ensures !PcOf(OpenStep(s, p, ok), p).Faulted?
  {
  }

  lemma CreatorNeverFaults(s: System, p: nat, ok: bool)
    requires Creates(PcOf(s, p))
    ensures !PcOf(CreatorStep(s, p, ok), p).Faulted?
  {
  }

  lemma UpdateNeverFaults(s: System, p: nat, ok: bool)
    requires Updates(PcOf(s, p))
    ensures !PcOf(UpdateStep(s, p, ok), p).Faulted?
  {
  }

  lemma ReadNeverFaults(s: System, p: nat, ok: bool)
    requires Reads(PcOf(s, p))
    ensures !PcOf(ReadStep(s, p, ok), p).Faulted?
  {
  }

  lemma FaultStep(s: System, p: nat, m: Move)
    ensures NobodyFaulted(s) && !(Polls(PcOf(s, p)) && m.Go? && !s.sized) ==> NobodyFaulted(Step(s, p, m))
    ensures Polls(PcOf(s, p)) && m.Go? && !s.sized ==> PcOf(Step(s, p, m), p) == Faulted
    ensures forall q: nat :: PcOf(s, q) == Faulted ==> PcOf(Step(s, p, m), q) == Faulted
  {
    hide Step;
    StepMovesOne(s, p, m);
    StepFaults(s, p, m);
  }

  lemma {:induction false} FaultStays(s: System, moves: seq<(nat, Move)>, q: nat)
    requires PcOf(s, q) == Faulted
    ensures PcOf(Run(s, moves), q) == Faulted
    decreases |moves|
  {
    hide Step;
    if moves != [] {
      FaultStep(s, moves[0].0, moves[0].1);
      FaultStays(Step(s, moves[0].0, moves[0].1), moves[1..], q);
    }
  }

  /** And only on such a run. */
  lemma {:induction false} FaultsExactly(s: System, moves: seq<(nat, Move)>)
    requires NobodyFaulted(s)
    ensures NobodyFaulted(Run(s, moves)) <==> LooksInTime(s, moves)
    decreases |moves|
  {
    hide Step, NobodyFaulted;
    if moves != [] {
      var p, m := moves[0].0, moves[0].1;
      FaultStep(s, p, m);
      if Polls(PcOf(s, p)) && m.Go? && !s.sized {
        FaultStays(Step(s, p, m), moves[1..], p);
        Somebody(Run(s, moves), p);
      } else {
        FaultsExactly(Step(s, p, m), moves[1..]);
      }
    }
  }

  lemma Somebody(s: System, p: nat)
    requires PcOf(s, p) == Faulted
    ensures !NobodyFaulted(s)
  {
  }

  lemma SizeStays(s: System, p: nat, m: Move)
    ensures s.sized ==> Step(s, p, m).sized
  {
  }

  /** Once the object has its size nobody faults any more, whatever happens. */
  lemma {:induction false} SizedNeverFaults(s: System, moves: seq<(nat, Move)>)
    requires s.sized && NobodyFaulted(s)
    ensures NobodyFaulted(Run(s, moves))
    decreases |moves|
  {
    hide Step, NobodyFaulted;
    if moves != [] {
      SizeStays(s, moves[0].0, moves[0].1);
      FaultStep(s, moves[0].0, moves[0].1);
      SizedNeverFaults(Step(s, moves[0].0, moves[0].1), moves[1..]);
    }
  }

  lemma {:induction false} Newcomer(ps: set<nat>) returns (n: nat)
    ensures forall p :: p in ps ==> p < n
  {
    if ps == {} {
      n := 0;
    } else {
      var p :| p in ps;
      var m := Newcomer(ps - {p});
      n := if p < m then m else p + 1;
      assert forall x :: x in ps ==> x == p || x in ps - {p};
    }
  }

  /** While the object has no size, some way of going on makes a process fault. */
  lemma UnsizedCanFault(s: System) returns (moves: seq<(nat, Move)>)
    requires !s.sized
    ensures !NobodyFaulted(Run(s, moves))
  {
    hide Run, NobodyFaulted;
    var p := Newcomer(s.pcs.Keys);
    assert PcOf(s, p) == Idle && PcOf(s, p + 1) == Idle;
    if s.present {
      moves := LookMoves(p);
      SecondLooks(s, p);
      Somebody(Run(s, moves), p);
    } else {
      moves := CreateMoves(p) + LookMoves(p + 1);
      FirstCreates(s, p);
      SecondLooks(Run(s, CreateMoves(p)), p + 1);
      RunBoth(s, CreateMoves(p), LookMoves(p + 1));
      Somebody(Run(s, moves), p + 1);
    }
  }

  /** So the size is exactly what makes it safe to go on, whatever the processes do. */
  lemma SafeToLookExactly(s: System)
    requires NobodyFaulted(s)
    ensures (forall moves: seq<(nat, Move)> :: NobodyFaulted(Run(s, moves))) <==> s.sized
  {
    hide Run, NobodyFaulted;
    if s.sized {
      forall moves: seq<(nat, Move)>
        ensures NobodyFaulted(Run(s, moves))
      {
        SizedNeverFaults(s, moves);
      }
    } else {
      var moves := UnsizedCanFault(s);
    }
  }
}
