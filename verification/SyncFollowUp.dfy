/**
 * How a port puts Sync and Follow_Up messages together (port.c), with check_fup_sync off. The messages are those that
 * pass the checks of state and source; clock time is taken as the servo sees it.
 */
module SyncFollowUp {
  import opened Tmv

  /** A Sync with its receive time stamp, or a Follow_Up; origin is the time stamp in the body. */
  datatype Message =
    | Sync(seqid: int, ingress: int, origin: HostTimestamp, correction: int, interval: int, oneStep: bool)
    | FollowUp(seqid: int, origin: HostTimestamp, correction: int, interval: int)

  /** The arguments of port_synchronize. */
  datatype Call = Call(seqid: int, ingress: int, origin: HostTimestamp, correction1: int, correction2: int, interval: int)

  /** SF_EMPTY, SF_HAVE_SYNC or SF_HAVE_FUP with the message stored. */
  datatype Stored = Empty | HaveSync(m: Message) | HaveFup(m: Message)

  // ----- what belongs together

  predicate Matches(a: Message, b: Message) {
    && a.seqid == b.seqid
    && ((a.Sync? && !a.oneStep && b.FollowUp?) || (a.FollowUp? && b.Sync? && !b.oneStep))
  }

  /** The call for a pair of which b came second. */
  function PairCall(a: Message, b: Message): Call
    requires Matches(a, b)
  {
    var sync, fup := if a.Sync? then a else b, if a.Sync? then b else a;
    Call(sync.seqid, sync.ingress, fup.origin, sync.correction, fup.correction, b.interval)
  }

  function OneStepCall(m: Message): Call
    requires m.Sync? && m.oneStep
  {
    Call(m.seqid, m.ingress, m.origin, m.correction, 0, m.interval)
  }

  /** A Sync as process_sync stores it. */
  function Adjusted(m: Message, asymmetry: int): Message
    requires m.Sync?
  {
    m.(correction := ToI64(m.correction + asymmetry))
  }

  /** What reaches the pairing: a message, with asymmetry added to a Sync, or a flush on a change of state. */
  datatype Event = Got(m: Message) | Flush

  datatype Result = Result(stored: Stored, calls: seq<Call>, mismatches: nat)

  function Store(m: Message): Stored {
    if m.Sync? then HaveSync(m) else HaveFup(m)
  }

  /** One event: either it completes the stored message, or it displaces it. */
  function Step(s: Stored, e: Event): Result {
    match e
    case Flush => Result(Empty, [], 0)
    case Got(m) =>
      if m.Sync? && m.oneStep then Result(Empty, [OneStepCall(m)], 0)
      else if !s.Empty? && Matches(s.m, m) then Result(Empty, [PairCall(s.m, m)], 0)
      else Result(Store(m), [], if s.Empty? then 0 else 1)
  }

  function Run(s: Stored, es: seq<Event>): Result
    decreases |es|
  {
    if es == [] then Result(s, [], 0)
    else
      var r := Step(s, es[0]);
      var rest := Run(r.stored, es[1..]);
      Result(rest.stored, r.calls + rest.calls, r.mismatches + rest.mismatches)
  }

  class SyncPort {
    var syfu: Stored
    var asymmetry: int
    var syncMismatch: nat
    var followupMismatch: nat
    /** All calls of port_synchronize so far. */
    ghost var calls: seq<Call>

    ghost predicate Valid()
      reads this
    {
      (syfu.HaveSync? ==> syfu.m.Sync? && !syfu.m.oneStep) && (syfu.HaveFup? ==> syfu.m.FollowUp?)
    }

    constructor (delayAsymmetry: int)
      ensures Valid() && syfu == Empty && asymmetry == delayAsymmetry && calls == []
      ensures syncMismatch == 0 && followupMismatch == 0
    {
      syfu, asymmetry, syncMismatch, followupMismatch := Empty, delayAsymmetry, 0, 0;
      calls := [];
    }

    /** The result of an event, as far as it shows in this object. */
    ghost predicate Did(before: Stored, callsBefore: seq<Call>, mismatchesBefore: nat, e: Event)
      reads this
    {
      var r := Step(before, e);
      syfu == r.stored && calls == callsBefore + r.calls && syncMismatch + followupMismatch == mismatchesBefore + r.mismatches
    }

    method Synchronize(seqid: int, ingress: int, origin: HostTimestamp, c1: int, c2: int, interval: int)
      modifies this`calls
      ensures calls == old(calls) + [Call(seqid, ingress, origin, c1, c2, interval)]
    {
      calls := calls + [Call(seqid, ingress, origin, c1, c2, interval)];
    }

    /** flush_last_sync. */
    method FlushLastSync()
      requires Valid()
      modifies this
      ensures Valid() && asymmetry == old(asymmetry)
      ensures Did(old(syfu), old(calls), old(syncMismatch + followupMismatch), Flush)
    {
      syfu := Empty;
    }

    /** process_sync, from the point where the message is accepted. */
    method ProcessSync(m: Message)
      requires Valid() && m.Sync?
      modifies this
      ensures Valid() && asymmetry == old(asymmetry)
      ensures Did(old(syfu), old(calls), old(syncMismatch + followupMismatch), Got(Adjusted(m, asymmetry)))
      ensures var c, before := ToI64(m.correction + asymmetry), old(syfu);
              if m.oneStep then
                syfu == Empty && calls == old(calls) + [Call(m.seqid, m.ingress, m.origin, c, 0, m.interval)]
              else if before.HaveFup? && before.m.seqid == m.seqid then
                && syfu == Empty
                && calls == old(calls)
                            + [Call(m.seqid, m.ingress, before.m.origin, c, before.m.correction, m.interval)]
              else calls == old(calls) && syfu == HaveSync(m.(correction := c))
    {
      var sync := m.(correction := ToI64(m.correction + asymmetry));
      if sync.oneStep {
        Synchronize(sync.seqid, sync.ingress, sync.origin, sync.correction, 0, sync.interval);
        FlushLastSync();
        return;
      }
      if syfu.HaveFup? && syfu.m.seqid == sync.seqid {
        Synchronize(syfu.m.seqid, sync.ingress, syfu.m.origin, sync.correction, syfu.m.correction, sync.interval);
        syfu := Empty;
      } else {
        if !syfu.Empty? {
          syncMismatch := syncMismatch + 1;
        }
        syfu := HaveSync(sync);
      }
    }

    /** process_follow_up, from the point where the message is accepted. */
    method ProcessFollowUp(m: Message)
      requires Valid() && m.FollowUp?
      modifies this
      ensures Valid() && asymmetry == old(asymmetry)
      ensures Did(old(syfu), old(calls), old(syncMismatch + followupMismatch), Got(m))
      ensures var before := old(syfu);
              if before.HaveSync? && before.m.seqid == m.seqid then
                && syfu == Empty
                && calls == old(calls) + [Call(m.seqid, before.m.ingress, m.origin, before.m.correction, m.correction,
                                               m.interval)]
              else calls == old(calls) && syfu == HaveFup(m)
    {
      if syfu.HaveSync? && syfu.m.seqid == m.seqid {
        Synchronize(syfu.m.seqid, syfu.m.ingress, m.origin, syfu.m.correction, m.correction, m.interval);
        syfu := Empty;
      } else {
        if !syfu.Empty? {
          followupMismatch := followupMismatch + 1;
        }
        syfu := HaveFup(m);
      }
    }
  }

  // ----- whole streams

  /** The stream cut up from the left: neighbours that match are a pair, a one-step Sync stands alone. */
  function Greedy(es: seq<Event>): seq<Call>
    decreases |es|
  {
    if es == [] then []
    else if es[0].Got? && es[0].m.Sync? && es[0].m.oneStep then [OneStepCall(es[0].m)] + Greedy(es[1..])
    else if |es| > 1 && es[0].Got? && es[1].Got? && Matches(es[0].m, es[1].m) then
      [PairCall(es[0].m, es[1].m)] + Greedy(es[2..])
    else Greedy(es[1..])
  }

  /** The machine with one message of memory calls for just the pairs of matching neighbours, and for one-step Syncs. */
  lemma {:induction false} RunIsGreedy(s: Stored, es: seq<Event>)
    requires s.Empty? || (s == Store(s.m) && !(s.m.Sync? && s.m.oneStep))
    ensures Run(s, es).calls == Greedy(if s.Empty? then es else [Got(s.m)] + es)
    decreases |es|
  {
    var all := if s.Empty? then es else [Got(s.m)] + es;
    if es == [] {
      assert !s.Empty? ==> all[1..] == [];
    } else {
      var r := Step(s, es[0]);
      RunIsGreedy(r.stored, es[1..]);
      if !s.Empty? {
        assert all[1..] == es && all[2..] == es[1..];
      }
      if r.stored.Empty? {
      } else {
        assert [Got(r.stored.m)] + es[1..] == es;
      }
    }
  }

  /** Where in a stream the calls come from: one index, or two neighbouring ones. */
  datatype Source = Single(at: nat) | Pair(first: nat)

  function End(x: Source): nat { if x.Single? then x.at + 1 else x.first + 2 }

  function Begin(x: Source): nat { if x.Single? then x.at else x.first }

  function Sources(es: seq<Event>, base: nat): seq<Source>
    decreases |es|
  {
    if es == [] then []
    else if es[0].Got? && es[0].m.Sync? && es[0].m.oneStep then [Single(base)] + Sources(es[1..], base + 1)
    else if |es| > 1 && es[0].Got? && es[1].Got? && Matches(es[0].m, es[1].m) then
      [Pair(base)] + Sources(es[2..], base + 2)
    else Sources(es[1..], base + 1)
  }

  ghost predicate ComesFrom(c: Call, x: Source, es: seq<Event>) {
    && End(x) <= |es|
    && match x {
         case Single(i) => es[i].Got? && es[i].m.Sync? && es[i].m.oneStep && c == OneStepCall(es[i].m)
         case Pair(i) => es[i].Got? && es[i + 1].Got? && Matches(es[i].m, es[i + 1].m) && c == PairCall(es[i].m, es[i + 1].m)
       }
  }

  /** How many events the first piece of a stream takes, and the call and source it comes to, if any. */
  function Width(es: seq<Event>): (n: nat)
    requires es != []
    ensures 0 < n <= |es|
  {
    if es[0].Got? && es[0].m.Sync? && es[0].m.oneStep then 1
    else if |es| > 1 && es[0].Got? && es[1].Got? && Matches(es[0].m, es[1].m) then 2 else 1
  }

  lemma FirstPiece(all: seq<Event>, base: nat)
    requires base < |all|
    ensures var es, n := all[base..], Width(all[base..]);
            var calls, xs := Greedy(all[base + n..]), Sources(all[base + n..], base + n);
            || (Greedy(es) == calls && Sources(es, base) == xs)
            || exists c: Call, x: Source :: && Greedy(es) == [c] + calls && Sources(es, base) == [x] + xs
                                            && Begin(x) == base && End(x) == base + n && ComesFrom(c, x, all)
  {
    var es, n := all[base..], Width(all[base..]);
    assert es[1..] == all[base + 1..];
    if es[0].Got? && es[0].m.Sync? && es[0].m.oneStep {
      assert ComesFrom(OneStepCall(es[0].m), Single(base), all);
    } else if n == 2 {
      assert es[2..] == all[base + 2..];
      assert ComesFrom(PairCall(es[0].m, es[1].m), Pair(base), all);
    }
  }

  /** The calls and their sources from some point of a stream on. */
  ghost predicate OnceEach(calls: seq<Call>, xs: seq<Source>, all: seq<Event>, base: nat) {
    && |calls| == |xs|
    && (forall k :: 0 <= k < |xs| ==> base <= Begin(xs[k]) && ComesFrom(calls[k], xs[k], all))
    && (forall j, k :: 0 <= j < k < |xs| ==> End(xs[j]) <= Begin(xs[k]))
  }

  lemma NoneHere(calls: seq<Call>, xs: seq<Source>, all: seq<Event>, base: nat, next: nat)
    requires OnceEach(calls, xs, all, next) && base <= next
    ensures OnceEach(calls, xs, all, base)
  {
  }

  lemma OneMore(c: Call, x: Source, calls: seq<Call>, xs: seq<Source>, all: seq<Event>, base: nat)
    requires OnceEach(calls, xs, all, End(x)) && Begin(x) == base && ComesFrom(c, x, all)
    ensures OnceEach([c] + calls, [x] + xs, all, base)
  {
  }

  /** Every call comes from a one-step Sync or a matching pair, and no message is used by two calls. */
  lemma {:induction false} EachMessageOnce(all: seq<Event>, base: nat)
    requires base <= |all|
    ensures OnceEach(Greedy(all[base..]), Sources(all[base..], base), all, base)
    decreases |all| - base
  {
    if base < |all| {
      hide Greedy, Sources, ComesFrom, OnceEach;
      var n := Width(all[base..]);
      EachMessageOnce(all, base + n);
      FirstPiece(all, base);
      var calls, xs := Greedy(all[base + n..]), Sources(all[base + n..], base + n);
      if Greedy(all[base..]) == calls && Sources(all[base..], base) == xs {
        NoneHere(calls, xs, all, base, base + n);
      } else {
        var c, x :| && Greedy(all[base..]) == [c] + calls && Sources(all[base..], base) == [x] + xs
                    && Begin(x) == base && End(x) == base + n && ComesFrom(c, x, all);
        OneMore(c, x, calls, xs, all, base);
      }
    }
  }

  /** The origin time with both corrections, as the servo gets it. */
  function CorrectedOrigin(c: Call): int
    requires IsI64(c.correction1) && IsI64(c.correction2)
  {
    Add(FromTimestamp(c.origin), Add(FromCorrection(c.correction1), FromCorrection(c.correction2)))
  }

  /**
   * A Sync and its Follow_Up synchronize alike in both orders: same number, times and corrections. The sync interval
   * is that of the message that came second, so it is the same exactly if both messages tell the same one.
   */
  lemma BothOrders(s: Stored, sync: Message, fup: Message)
    requires sync.Sync? && !sync.oneStep && fup.FollowUp? && sync.seqid == fup.seqid
    requires s.Empty? || (!Matches(s.m, sync) && !Matches(s.m, fup))
    ensures var one, two := Run(s, [Got(sync), Got(fup)]), Run(s, [Got(fup), Got(sync)]);
            && one.stored == Empty == two.stored && |one.calls| == 1 == |two.calls|
            && one.calls[0] == Call(sync.seqid, sync.ingress, fup.origin, sync.correction, fup.correction, fup.interval)
            && two.calls[0] == one.calls[0].(interval := sync.interval)
            && (one == two <==> sync.interval == fup.interval)
            && (IsI64(sync.correction) && IsI64(fup.correction) ==>
                  CorrectedOrigin(one.calls[0]) == CorrectedOrigin(two.calls[0])
                  == Add(FromTimestamp(fup.origin), Add(FromCorrection(sync.correction), FromCorrection(fup.correction))))
  {
    TwoSteps(s, sync, fup);
    TwoSteps(s, fup, sync);
  }

  /** A Sync every second and a Follow_Up that tells eight a second: the order decides which interval is passed on. */
  lemma IntervalsDiffer()
    ensures var origin := HostTimestamp(1, 0);
            var sync, fup := Sync(1, 0, origin, 0, 0, false), FollowUp(1, origin, 0, -3);
            && Run(Empty, [Got(sync), Got(fup)]).calls == [Call(1, 0, origin, 0, 0, -3)]
            && Run(Empty, [Got(fup), Got(sync)]).calls == [Call(1, 0, origin, 0, 0, 0)]
  {
    var origin := HostTimestamp(1, 0);
    BothOrders(Empty, Sync(1, 0, origin, 0, 0, false), FollowUp(1, origin, 0, -3));
  }

  lemma TwoSteps(s: Stored, a: Message, b: Message)
    requires Matches(a, b) && (s.Empty? || !Matches(s.m, a))
    ensures Run(s, [Got(a), Got(b)]) == Result(Empty, [PairCall(a, b)], if s.Empty? then 0 else 1)
  {
    assert [Got(a), Got(b)][1..] == [Got(b)];
    LastStep(Store(a), Got(b));
  }

  lemma LastStep(s: Stored, e: Event)
    ensures Run(s, [e]) == Step(s, e)
  {
  }

  // ----- conservation

  function TwoStepMessages(es: seq<Event>): nat
    decreases |es|
  {
    if es == [] then 0
    else TwoStepMessages(es[1..]) + if es[0].Got? && !(es[0].m.Sync? && es[0].m.oneStep) then 1 else 0
  }

  /** Messages lost to a flush or to a one-step Sync, which no counter shows. */
  function Flushed(s: Stored, es: seq<Event>): nat
    decreases |es|
  {
    if es == [] then 0
    else
      Flushed(Step(s, es[0]).stored, es[1..])
      + if !s.Empty? && (es[0].Flush? || (es[0].m.Sync? && es[0].m.oneStep)) then 1 else 0
  }

  function OneSteps(es: seq<Event>): nat
    decreases |es|
  {
    if es == [] then 0 else OneSteps(es[1..]) + if es[0].Got? && es[0].m.Sync? && es[0].m.oneStep then 1 else 0
  }

  /** Every two-step message is one half of a pair, or counted as a mismatch, or flushed, or still stored. */
  lemma {:induction false} MessagesAddUp(s: Stored, es: seq<Event>)
    ensures var r := Run(s, es);
            TwoStepMessages(es) + (if s.Empty? then 0 else 1)
            == 2 * (|r.calls| - OneSteps(es)) + r.mismatches + Flushed(s, es) + if r.stored.Empty? then 0 else 1
    decreases |es|
  {
    if es != [] {
      MessagesAddUp(Step(s, es[0]).stored, es[1..]);
    }
  }
}
