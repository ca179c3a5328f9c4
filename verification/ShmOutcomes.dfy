/**
 * What the operations on the shared servo state achieve (servo.c), whatever other processes do in between: an update
 * that gets the semaphore becomes the latest one, a read returns the latest update or is refused, and create attaches.
 */
module ShmOutcomes {
  import opened ServoTypes
  import opened ServoShm

  /** How many of the moves are made by p. */
  function Own(p: nat, moves: seq<(nat, Move)>): nat {
    if moves == [] then 0 else (if moves[0].0 == p then 1 else 0) + Own(p, moves[1..])
  }

  /** The moves of p go on, and its system calls succeed; those of the others are arbitrary. The last one is by p. */
  ghost predicate GoesOn(p: nat, moves: seq<(nat, Move)>) {
    && moves != [] && moves[|moves| - 1].0 == p
    && forall i :: 0 <= i < |moves| && moves[i].0 == p ==> moves[i].1 == Go(true)
  }

  lemma GoesOnTail(p: nat, moves: seq<(nat, Move)>)
    requires GoesOn(p, moves)
    ensures |moves| > 1 ==> GoesOn(p, moves[1..])
    ensures moves[0].0 == p ==> moves[0].1 == Go(true)
    ensures moves[0].0 != p ==> |moves| > 1
  {
    if |moves| > 1 {
      assert moves[1..][|moves| - 2].0 == p;
    }
  }

  lemma {:induction false} OwnPositive(p: nat, moves: seq<(nat, Move)>)
    requires GoesOn(p, moves)
    ensures Own(p, moves) >= 1
    decreases |moves|
  {
    GoesOnTail(p, moves);
    if |moves| > 1 {
      OwnPositive(p, moves[1..]);
    }
  }

  lemma OwnMoreThanOne(p: nat, moves: seq<(nat, Move)>)
    requires GoesOn(p, moves) && Own(p, moves) > 1
    ensures |moves| > 1
  {
    OwnBounded(p, moves);
  }

  lemma {:induction false} OwnBounded(p: nat, moves: seq<(nat, Move)>)
    ensures Own(p, moves) <= |moves|
    decreases |moves|
  {
    if moves != [] {
      OwnBounded(p, moves[1..]);
    }
  }

  lemma OwnIsOne(p: nat, moves: seq<(nat, Move)>)
    requires GoesOn(p, moves) && Own(p, moves) == 1 && moves[0].0 == p
    ensures moves[1..] == []
  {
    if |moves| > 1 {
      GoesOnTail(p, moves);
      OwnPositive(p, moves[1..]);
    }
  }

  // ----- inside the semaphore

  /** A read finds no completed update, or the latest one is for another domain. */
  predicate Refused(updates: seq<Update>, wanted: int) {
    updates == [] || updates[|updates| - 1].domain != wanted
  }

  /** How many moves a process is away from the end of its operation. */
  function MovesLeft(s: System, p: nat): nat
    requires Critical(PcOf(s, p))
  {
    match PcOf(s, p)
    case WriteState(_, _) => 4
    case WriteDomain(_, _) => 3
    case WriteInitialized(_, _) => 2
    case PostUpdate(_, _) => 1
    case Check(wanted) => if Refused(s.updates, wanted) then 2 else 3
    case Fetch(_) => 2
    case PostRead(_, _) => 1
    case PostRefused => 1
  }

  function UpdatesAfter(s: System, p: nat): seq<Update>
    requires Critical(PcOf(s, p))
  {
    match PcOf(s, p)
    case WriteState(state, domain) => s.updates + [Update(state, domain)]
    case WriteDomain(state, domain) => s.updates + [Update(state, domain)]
    case WriteInitialized(state, domain) => s.updates + [Update(state, domain)]
    case PostUpdate(state, domain) => s.updates + [Update(state, domain)]
    case _ => s.updates
  }

  function Latest(updates: seq<Update>, wanted: int): seq<Read> {
    if Refused(updates, wanted) then [] else [Read(wanted, updates[|updates| - 1].state, |updates|)]
  }

  function ResultsAfter(s: System, p: nat): seq<Read>
    requires Critical(PcOf(s, p))
  {
    match PcOf(s, p)
    case Check(wanted) => s.results + Latest(s.updates, wanted)
    case Fetch(wanted) => s.results + Latest(s.updates, wanted)
    case PostRead(wanted, got) => s.results + [Read(wanted, got, |s.updates|)]
    case _ => s.results
  }

  /** Nobody else touches the memory while a process is between sem_wait and sem_post. */
  lemma OthersWait(s: System, p: nat, q: nat, m: Move)
    requires Inv(s) && Critical(PcOf(s, p)) && q != p
    ensures var s' := Step(s, q, m);
            && s'.mem == s.mem && s'.updates == s.updates && s'.results == s.results
            && PcOf(s', p) == PcOf(s, p)
  {
    StepMovesOne(s, q, m);
    hide PcOf;
  }

  lemma OwnStep(s: System, p: nat)
    requires Inv(s) && Critical(PcOf(s, p)) && MovesLeft(s, p) > 1
    ensures var s' := Step(s, p, Go(true));
            && Critical(PcOf(s', p)) && MovesLeft(s', p) == MovesLeft(s, p) - 1
            && UpdatesAfter(s', p) == UpdatesAfter(s, p) && ResultsAfter(s', p) == ResultsAfter(s, p)
  {
    if Updates(PcOf(s, p)) {
      OwnUpdateStep(s, p);
    } else {
      OwnReadStep(s, p);
    }
  }

  lemma OwnUpdateStep(s: System, p: nat)
    requires Updates(PcOf(s, p)) && Critical(PcOf(s, p)) && MovesLeft(s, p) > 1
    ensures var s' := Step(s, p, Go(true));
            && Critical(PcOf(s', p)) && MovesLeft(s', p) == MovesLeft(s, p) - 1
            && UpdatesAfter(s', p) == UpdatesAfter(s, p) && ResultsAfter(s', p) == ResultsAfter(s, p)
  {
    hide ReadStep, OpenStep, CreatorStep, PollStep;
  }

  lemma OwnReadStep(s: System, p: nat)
    requires Contents(s) && Reads(PcOf(s, p)) && Critical(PcOf(s, p)) && MovesLeft(s, p) > 1
    ensures var s' := Step(s, p, Go(true));
            && Critical(PcOf(s', p)) && MovesLeft(s', p) == MovesLeft(s, p) - 1
            && UpdatesAfter(s', p) == UpdatesAfter(s, p) && ResultsAfter(s', p) == ResultsAfter(s, p)
  {
    hide UpdateStep, OpenStep, CreatorStep, PollStep;
  }

  lemma LastStep(s: System, p: nat)
    requires Inv(s) && Critical(PcOf(s, p)) && MovesLeft(s, p) == 1
    ensures var s' := Step(s, p, Go(true));
            && PcOf(s', p) == Attached && s'.mem.sem == 1
            && s'.updates == UpdatesAfter(s, p) && s'.results == ResultsAfter(s, p)
  {
    hide Creation, Contents;
  }

  /** A process that has the semaphore gets to the end of its operation, and releases it. */
  lemma {:induction false} CriticalCompletes(s: System, p: nat, moves: seq<(nat, Move)>)
    requires Inv(s) && Critical(PcOf(s, p)) && GoesOn(p, moves) && Own(p, moves) == MovesLeft(s, p)
    ensures var s' := Run(s, moves);
            && PcOf(s', p) == Attached && s'.mem.sem == 1
            && s'.updates == UpdatesAfter(s, p) && s'.results == ResultsAfter(s, p)
    decreases |moves|
  {
    hide Step, Inv, Critical, PcOf;
    var q, m := moves[0].0, moves[0].1;
    GoesOnTail(p, moves);
    StepKeeps(s, q, m);
    if q != p {
      OthersWait(s, p, q, m);
      CriticalCompletes(Step(s, q, m), p, moves[1..]);
    } else if MovesLeft(s, p) > 1 {
      OwnStep(s, p);
      OwnMoreThanOne(p, moves);
      CriticalCompletes(Step(s, q, m), p, moves[1..]);
    } else {
      LastStep(s, p);
      OwnIsOne(p, moves);
    }
  }

  lemma CallAndWait(s: System, p: nat, m: Move)
    requires PcOf(s, p) == Attached && s.mem.sem == 1 && (m.CallRead? || m.CallUpdate?)
    ensures var s' := Step(Step(s, p, m), p, Go(true));
            && s'.updates == s.updates && s'.results == s.results
            && PcOf(s', p) == if m.CallRead? then Check(m.domain) else WriteState(m.state, m.domain)
  {
    hide OpenStep, CreatorStep, PollStep;
  }

  lemma RunTwo(s: System, a: (nat, Move), b: (nat, Move), moves: seq<(nat, Move)>)
    ensures Run(s, [a, b] + moves) == Run(Step(Step(s, a.0, a.1), b.0, b.1), moves)
  {
    hide Step;
    assert ([a, b] + moves)[1..] == [b] + moves && ([b] + moves)[1..] == moves;
  }

  /**
   * A read that finds the semaphore free, in any state that is ever reached and with any moves of others in between:
   * it is refused exactly if there is no completed update or the latest one is for another domain, and otherwise
   * returns the state of the latest one.
   */
  lemma ReadOutcome(before: seq<(nat, Move)>, p: nat, wanted: int, moves: seq<(nat, Move)>)
    requires var s := Run(START, before);
             && PcOf(s, p) == Attached && s.mem.sem == 1 && GoesOn(p, moves)
             && Own(p, moves) == if s.updates == [] || s.updates[|s.updates| - 1].domain != wanted then 2 else 3
    ensures var s := Run(START, before);
            var s', n := Run(s, [(p, CallRead(wanted)), (p, Go(true))] + moves), |s.updates|;
            && PcOf(s', p) == Attached && s'.mem.sem == 1 && s'.updates == s.updates
            && s'.results == (if n == 0 || s.updates[n - 1].domain != wanted then s.results
                              else s.results + [Read(wanted, s.updates[n - 1].state, n)])
  {
    hide Run, Step, Inv, PcOf;
    var s := Run(START, before);
    AlwaysInv(before);
    CallAndWait(s, p, CallRead(wanted));
    RunTwo(s, (p, CallRead(wanted)), (p, Go(true)), moves);
    StepKeeps(s, p, CallRead(wanted));
    StepKeeps(Step(s, p, CallRead(wanted)), p, Go(true));
    CriticalCompletes(Step(Step(s, p, CallRead(wanted)), p, Go(true)), p, moves);
  }

  /** An update that finds the semaphore free becomes the latest one. */
  lemma UpdateOutcome(before: seq<(nat, Move)>, p: nat, state: ServoState, domain: int, moves: seq<(nat, Move)>)
    requires var s := Run(START, before);
             PcOf(s, p) == Attached && s.mem.sem == 1 && GoesOn(p, moves) && Own(p, moves) == 4
    ensures var s := Run(START, before);
            var s' := Run(s, [(p, CallUpdate(state, domain)), (p, Go(true))] + moves);
            && PcOf(s', p) == Attached && s'.mem.sem == 1
            && s'.updates == s.updates + [Update(state, domain)] && s'.results == s.results
  {
    hide Run, Step, Inv, PcOf;
    var s := Run(START, before);
    AlwaysInv(before);
    CallAndWait(s, p, CallUpdate(state, domain));
    RunTwo(s, (p, CallUpdate(state, domain)), (p, Go(true)), moves);
    StepKeeps(s, p, CallUpdate(state, domain));
    StepKeeps(Step(s, p, CallUpdate(state, domain)), p, Go(true));
    CriticalCompletes(Step(Step(s, p, CallUpdate(state, domain)), p, Go(true)), p, moves);
  }

  lemma AlwaysInv(before: seq<(nat, Move)>)
    ensures Inv(Run(START, before))
  {
    RunKeeps(START, before);
  }

  // ----- create

  function StepsToPublish(pc: Pc): nat
    requires Creates(pc)
  {
    match pc
    case Sizing => 6
    case Mapping(_) => 5
    case Clearing => 4
    case Filling => 3
    case InitSem => 2
    case Publishing => 1
  }

  ghost predicate FilledIn(s: System, p: nat) {
    PcOf(s, p).InitSem? || PcOf(s, p).Publishing? ==>
      !s.mem.initialized && s.mem.state == Unlocked && s.mem.domain == -1
  }

  /** While an object is being set up the others can at most look whether it is published. */
  lemma OthersLook(s: System, p: nat, q: nat, m: Move)
    requires Inv(s) && Creates(PcOf(s, p)) && q != p
    ensures var s' := Step(s, q, m);
            s'.mem == s.mem && s'.creators == s.creators && s'.updates == s.updates && PcOf(s', p) == PcOf(s, p)
  {
    StepMovesOne(s, q, m);
    NobodyElse(s, p);
    hide PcOf, UpdateStep, ReadStep, Exclusion, Contents;
  }

  lemma OwnCreateStep(s: System, p: nat)
    requires Inv(s) && Creates(PcOf(s, p)) && FilledIn(s, p)
    ensures var s' := Step(s, p, Go(true));
            && s'.creators == s.creators && s'.updates == s.updates
            && if StepsToPublish(PcOf(s, p)) > 1 then
                 && Creates(PcOf(s', p)) && FilledIn(s', p)
                 && StepsToPublish(PcOf(s', p)) == StepsToPublish(PcOf(s, p)) - 1
               else
                 && PcOf(s', p) == Attached && s'.mem.magic && s'.mem.sem == 1
                 && !s'.mem.initialized && s'.mem.state == Unlocked && s'.mem.domain == -1
  {
    hide Creation, Exclusion;
  }

  lemma {:induction false} CreationCompletes(s: System, p: nat, moves: seq<(nat, Move)>)
    requires Inv(s) && Creates(PcOf(s, p)) && FilledIn(s, p)
    requires GoesOn(p, moves) && Own(p, moves) == StepsToPublish(PcOf(s, p))
    ensures var s' := Run(s, moves);
            && PcOf(s', p) == Attached && s'.mem.magic && s'.mem.sem == 1
            && !s'.mem.initialized && s'.mem.state == Unlocked && s'.mem.domain == -1
            && s'.creators == s.creators && s'.updates == s.updates
    decreases |moves|
  {
    hide Step, Inv, Creates, PcOf;
    var q, m := moves[0].0, moves[0].1;
    GoesOnTail(p, moves);
    StepKeeps(s, q, m);
    if q != p {
      OthersLook(s, p, q, m);
      CreationCompletes(Step(s, q, m), p, moves[1..]);
    } else if StepsToPublish(PcOf(s, p)) > 1 {
      OwnCreateStep(s, p);
      OwnMoreThanOne(p, moves);
      CreationCompletes(Step(s, q, m), p, moves[1..]);
    } else {
      OwnCreateStep(s, p);
      OwnIsOne(p, moves);
    }
  }

  /**
   * A process that finds no object and creates it gets attached, with any moves of others in between: the semaphore
   * is free, the object published, and without a state until the first update.
   */
  lemma CreateOutcome(before: seq<(nat, Move)>, p: nat, moves: seq<(nat, Move)>)
    requires var s := Run(START, before);
             !s.present && PcOf(s, p) == Idle && GoesOn(p, moves) && Own(p, moves) == 6
    ensures var s := Run(START, before);
            var s' := Run(Run(s, CreateMoves(p)), moves);
            && PcOf(s', p) == Attached && s'.mem.magic && s'.mem.sem == 1 && !s'.mem.initialized
            && s'.mem.state == Unlocked && s'.mem.domain == -1 && s'.creators == [p] && s'.updates == []
  {
    hide Run, Step, Inv;
    var s := Run(START, before);
    AlwaysInv(before);
    NothingYet(s);
    RunKeeps(s, CreateMoves(p));
    Created(s, p);
    CreationCompletes(Run(s, CreateMoves(p)), p, moves);
  }

  lemma NothingYet(s: System)
    requires Inv(s) && !s.present
    ensures s.creators == [] && s.updates == []
  {
  }

  lemma Created(s: System, p: nat)
    requires !s.present && PcOf(s, p) == Idle
    ensures var s' := Run(s, CreateMoves(p));
            PcOf(s', p) == Sizing && s'.creators == s.creators + [p] && s'.updates == s.updates
  {
    hide Run, Step;
    var s1 := At(s, p, Opening);
    var s2 := At(s1, p, OpeningExclusive);
    var s3 := At(s2, p, Sizing).(present := true, creators := s2.creators + [p]);
    CreateSteps(s, p, s1, s2, s3);
    RunTwo(s, (p, CallCreate), (p, Go(true)), [(p, Go(true))]);
    RunLast(s2, p, Go(true));
    assert CreateMoves(p) == [(p, CallCreate), (p, Go(true))] + [(p, Go(true))];
  }

  function StepsToAttach(pc: Pc): nat
    requires Joins(pc)
  {
    if pc.Opening? then 3 else if pc.Mapping? then 2 else 1
  }

  predicate Joins(pc: Pc) { pc.Opening? || pc == Mapping(false) || Polls(pc) }

  lemma PublishedStays(s: System, q: nat, m: Move)
    requires Inv(s) && s.mem.magic
    ensures Step(s, q, m).mem.magic
  {
    hide Exclusion, Contents;
  }

  lemma OwnJoinStep(s: System, p: nat)
    requires Inv(s) && s.mem.magic && Joins(PcOf(s, p))
    ensures var s' := Step(s, p, Go(true));
            if StepsToAttach(PcOf(s, p)) > 1 then
              Joins(PcOf(s', p)) && StepsToAttach(PcOf(s', p)) == StepsToAttach(PcOf(s, p)) - 1
            else PcOf(s', p) == Attached
  {
    hide Exclusion, Contents, UpdateStep, ReadStep, CreatorStep;
  }

  lemma {:induction false} JoinCompletes(s: System, p: nat, moves: seq<(nat, Move)>)
    requires Inv(s) && s.mem.magic && Joins(PcOf(s, p))
    requires GoesOn(p, moves) && Own(p, moves) == StepsToAttach(PcOf(s, p))
    ensures PcOf(Run(s, moves), p) == Attached && Run(s, moves).mem.magic
    decreases |moves|
  {
    hide Step, Inv, PcOf;
    var q, m := moves[0].0, moves[0].1;
    GoesOnTail(p, moves);
    StepKeeps(s, q, m);
    PublishedStays(s, q, m);
    if q != p {
      StepMovesOne(s, q, m);
      JoinCompletes(Step(s, q, m), p, moves[1..]);
    } else {
      OwnJoinStep(s, p);
      if StepsToAttach(PcOf(s, p)) > 1 {
        OwnMoreThanOne(p, moves);
        JoinCompletes(Step(s, q, m), p, moves[1..]);
      } else {
        OwnIsOne(p, moves);
      }
    }
  }

  /** Once the object is published, every process that calls create gets attached: it opens, maps, and looks once. */
  lemma JoinOutcome(before: seq<(nat, Move)>, p: nat, moves: seq<(nat, Move)>)
    requires var s := Run(START, before);
             s.mem.magic && PcOf(s, p) == Idle && GoesOn(p, moves) && Own(p, moves) == 3
    ensures PcOf(Run(Step(Run(START, before), p, CallCreate), moves), p) == Attached
  {
    hide Run, Inv;
    var s := Run(START, before);
    AlwaysInv(before);
    StepKeeps(s, p, CallCreate);
    JoinCompletes(Step(s, p, CallCreate), p, moves);
  }

  // ----- one process alone

  function Goes(p: nat, n: nat): (moves: seq<(nat, Move)>)
    ensures |moves| == n && forall i :: 0 <= i < n ==> moves[i] == (p, Go(true))
  {
    seq(n, _ => (p, Go(true)))
  }

  lemma {:induction false} OwnGoes(p: nat, n: nat)
    ensures Own(p, Goes(p, n)) == n
  {
    if n > 0 {
      OwnGoes(p, n - 1);
      assert Goes(p, n)[1..] == Goes(p, n - 1);
    }
  }

  /** Creating, updating and reading, one after the other. */
  function AloneMoves(p: nat, state: ServoState, domain: int, wanted: int): seq<(nat, Move)> {
    CreateMoves(p) + Goes(p, 6)
    + ([(p, CallUpdate(state, domain)), (p, Go(true))] + Goes(p, 4))
    + ([(p, CallRead(wanted)), (p, Go(true))] + Goes(p, if domain == wanted then 3 else 2))
  }

  /** A process that is alone reads what it wrote, for the domain it wrote it for and no other. */
  lemma ReadsOwnUpdate(p: nat, state: ServoState, domain: int, wanted: int)
    ensures Run(START, AloneMoves(p, state, domain, wanted)).results
            == if domain == wanted then [Read(domain, state, 1)] else []
  {
    hide Run, Goes, CreateMoves;
    var creates := CreateMoves(p) + Goes(p, 6);
    var updates := [(p, CallUpdate(state, domain)), (p, Go(true))] + Goes(p, 4);
    var n := if domain == wanted then 3 else 2;
    OwnGoes(p, 6);
    OwnGoes(p, 4);
    OwnGoes(p, n);
    RunNone(START);
    CreateOutcome([], p, Goes(p, 6));
    RunBoth(START, CreateMoves(p), Goes(p, 6));
    EveryRunIsSafe(creates);
    NothingRead(Run(START, creates));
    UpdateOutcome(creates, p, state, domain, Goes(p, 4));
    RunBoth(START, creates, updates);
    ReadOutcome(creates + updates, p, wanted, Goes(p, n));
    RunBoth(START, creates + updates, [(p, CallRead(wanted)), (p, Go(true))] + Goes(p, n));
  }

  lemma NothingRead(s: System)
    requires Safe(s) && s.updates == []
    ensures s.results == []
  {
    if s.results != [] {
      SomeResult(s.results);
    }
  }

  lemma SomeResult(results: seq<Read>)
    requires results != []
    ensures exists r :: r in results
  {
    assert results[0] in results;
  }

  lemma RunNone(s: System)
    ensures Run(s, []) == s
  {
  }
}
