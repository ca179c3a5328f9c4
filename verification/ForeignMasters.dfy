/** Foreign masters: qualification by recent announcements, and the choice of the best one (port.c, foreign.h). */
module ForeignMasters {
  import opened Tmv

  const FOREIGN_MASTER_THRESHOLD := 2

  /** The announced fields whose change matters. */
  datatype Info = Info(priority1: int, quality: int, priority2: int, identity: int, stepsRemoved: int)

  /** What clocks are compared by; the receiver and the local priority are those of the port. */
  datatype Dataset = Dataset(info: Info, sender: int)

  /** Whether the first dataset is the better one. */
  type Comparison = (Dataset, Dataset) -> bool

  /** An Announce message with the host's time of receipt, in nanoseconds. */
  datatype Announce = Announce(sender: int, interval: int, host: int, info: Info)

  function Power2(n: nat): (p: nat)
    ensures p > 0
  {
    if n == 0 then 1 else 2 * Power2(n - 1)
  }

  /** How long an announcement counts: four of its intervals. */
  function Lifetime(interval: int): int {
    if interval <= -31 then 0
    else if interval >= 31 then TWO_63 - 1
    else if interval < 0 then 4 * NS_PER_SEC / Power2(-interval)
    else 4 * Power2(interval) * NS_PER_SEC
  }

  /** So 4 s for an interval of 2^0 s, twice as long for each step up, and half as long, rounded down, for one down. */
  lemma LifetimeIsFour(interval: int)
    ensures Lifetime(0) == 4_000_000_000
    ensures 0 <= interval < 30 ==> Lifetime(interval + 1) == 2 * Lifetime(interval)
    ensures -30 < interval <= 0 ==> Lifetime(interval - 1) == Lifetime(interval) / 2
  {
    if -30 < interval <= 0 {
      HalfOfQuotient(4 * NS_PER_SEC, Power2(-interval));
    }
  }

  lemma HalfOfQuotient(a: nat, d: nat)
    requires d > 0
    ensures a / (2 * d) == a / d / 2
  {
    var q, r := a / d, a % d;
    var h := q / 2;
    Halved(d, q, h);
    QuotientIs(a, 2 * d, h, r + if q % 2 == 0 then 0 else d);
  }

  lemma Halved(d: nat, q: nat, h: nat)
    requires h == q / 2
    ensures d * q == 2 * d * h + if q % 2 == 0 then 0 else d
  {
    assert q == 2 * h || q == 2 * h + 1;
  }

  lemma QuotientIs(a: nat, e: nat, h: nat, r: nat)
    requires e > 0 && a == e * h + r && r < e
    ensures a / e == h
  {
    var x := a / e;
    assert a == e * x + a % e;
    assert e * (x - h) == e * x - e * h;
    if x != h {
      Apart(e, x - h);
    }
  }

  lemma Apart(d: int, x: int)
    requires d > 0 && x != 0
    ensures d * x >= d || d * x <= -d
  {
    if x > 0 {
      Multiple(d, x);
    } else {
      Multiple(d, -x);
      assert d * -x == -(d * x);
    }
  }

  lemma {:induction false} Multiple(d: int, x: int)
    requires d > 0 && x > 0
    ensures d * x >= d
    decreases x
  {
    if x > 1 {
      Multiple(d, x - 1);
      assert d * x == d * (x - 1) + d;
    }
  }

  /** msg_current. */
  predicate Current(m: Announce, now: int) { now - m.host < Lifetime(m.interval) }

  /** The list, newest first, once all but the newest two are dropped and then what is out of date at its end. */
  function Pruned(ms: seq<Announce>, now: int): (r: seq<Announce>)
    ensures |r| <= FOREIGN_MASTER_THRESHOLD && r <= ms
  {
    CurrentEnd(if |ms| > FOREIGN_MASTER_THRESHOLD then ms[..FOREIGN_MASTER_THRESHOLD] else ms, now)
  }

  function CurrentEnd(ms: seq<Announce>, now: int): (r: seq<Announce>)
    ensures |r| <= |ms| && r <= ms
    ensures r != [] ==> Current(r[|r| - 1], now)
    decreases |ms|
  {
    if ms == [] || Current(ms[|ms| - 1], now) then ms else CurrentEnd(ms[..|ms| - 1], now)
  }

  /** What is left of the list are those of the newest two announcements that are not out of date. */
  ghost predicate PruningIsExact(ms: seq<Announce>, now: int) {
    forall i :: 0 <= i < |ms| ==> (i < |Pruned(ms, now)| <==> i < FOREIGN_MASTER_THRESHOLD && Current(ms[i], now))
  }

  /** It is so exactly unless the second newest announcement is in date and the newest one is not. */
  lemma PrunedExactly(ms: seq<Announce>, now: int)
    ensures PruningIsExact(ms, now) <==> !(|ms| >= 2 && Current(ms[1], now) && !Current(ms[0], now))
  {
    var newest := if |ms| > FOREIGN_MASTER_THRESHOLD then ms[..FOREIGN_MASTER_THRESHOLD] else ms;
    assert Pruned(ms, now) == CurrentEnd(newest, now);
    assert |newest| >= 1 ==> newest[..|newest| - 1] == ms[..|newest| - 1];
    assert |newest| == 2 ==> newest[1] == ms[1] && newest[..1][..0] == [];
    assert |newest| >= 1 ==> newest[0] == ms[0];
  }

  ghost predicate NewestFirst(ms: seq<Announce>) {
    forall i, j :: 0 <= i < j < |ms| ==> ms[i].host >= ms[j].host && ms[i].interval == ms[j].interval
  }

  /** So it is while the announce interval stays the same. */
  lemma SteadyIntervalIsExact(ms: seq<Announce>, now: int)
    requires NewestFirst(ms)
    ensures PruningIsExact(ms, now)
  {
    PrunedExactly(ms, now);
  }

  /** A shorter announce interval can leave an announcement that is out of date in front of one that is not. */
  lemma OutOfDateInFront()
    ensures var info, now := Info(0, 0, 0, 0, 0), 30 * NS_PER_SEC;
            var ms := [Announce(1, -2, 20 * NS_PER_SEC, info), Announce(1, 4, 10 * NS_PER_SEC, info)];
            Pruned(ms, now) == ms && !Current(ms[0], now) && !PruningIsExact(ms, now)
  {
    assert Power2(2) == 4 && Power2(4) == 16;
    var info, now := Info(0, 0, 0, 0, 0), 30 * NS_PER_SEC;
    var ms := [Announce(1, -2, 20 * NS_PER_SEC, info), Announce(1, 4, 10 * NS_PER_SEC, info)];
    PrunedExactly(ms, now);
  }

  /** Enough announcements left for a clock to be considered. */
  predicate Qualified(ms: seq<Announce>, now: int) { |Pruned(ms, now)| >= FOREIGN_MASTER_THRESHOLD }

  predicate ThreeSenders(a: Dataset, b: Dataset, c: Dataset) {
    a.sender != b.sender && b.sender != c.sender && c.sender != a.sender
  }

  /** A strict order of clocks with different senders, as the result of the dataset comparison being positive. */
  ghost predicate StrictOrder(beats: Comparison) {
    && (forall a: Dataset, b: Dataset :: a.sender != b.sender && beats(a, b) ==> !beats(b, a))
    && (forall a: Dataset, b: Dataset, c: Dataset ::
          ThreeSenders(a, b, c) && beats(a, b) && beats(b, c) ==> beats(a, c))
  }

  class ForeignClock {
    const sender: int
    var messages: seq<Announce>
    var nMessages: nat
    /** What the clock announced when the best one was last computed. */
    var dataset: Dataset

    ghost predicate Valid()
      reads this
    {
      nMessages == |messages| <= FOREIGN_MASTER_THRESHOLD + 1 && forall m :: m in messages ==> m.sender == sender
    }

    constructor (id: int)
      ensures Valid() && sender == id && messages == []
    {
      sender, messages, nMessages, dataset := id, [], 0, Dataset(Info(0, 0, 0, 0, 0), id);
    }

    /** fc_clear. */
    method Clear()
      requires Valid()
      modifies this`messages, this`nMessages
      ensures Valid() && messages == []
    {
      while nMessages > 0
        invariant nMessages == |messages|
      {
        messages := messages[..|messages| - 1];
        nMessages := nMessages - 1;
      }
    }

    /** fc_prune. */
    method Prune(now: int)
      requires Valid()
      modifies this`messages, this`nMessages
      ensures Valid() && messages == Pruned(old(messages), now)
    {
      ghost var all := messages;
      while nMessages > FOREIGN_MASTER_THRESHOLD
        invariant nMessages == |messages| <= |all| && messages == all[..nMessages]
        invariant nMessages >= FOREIGN_MASTER_THRESHOLD || messages == all
      {
        messages := messages[..|messages| - 1];
        nMessages := nMessages - 1;
      }
      while messages != [] && !Current(messages[|messages| - 1], now)
        invariant nMessages == |messages| <= FOREIGN_MASTER_THRESHOLD && messages <= all
        invariant CurrentEnd(messages, now) == Pruned(all, now)
        decreases |messages|
      {
        messages := messages[..|messages| - 1];
        nMessages := nMessages - 1;
      }
    }

    method Add(m: Announce)
      requires Valid() && nMessages <= FOREIGN_MASTER_THRESHOLD && m.sender == sender
      modifies this`messages, this`nMessages
      ensures Valid() && messages == [m] + old(messages)
    {
      nMessages := nMessages + 1;
      messages := [m] + messages;
    }
  }

  class Port {
    var foreignMasters: seq<ForeignClock>
    var best: ForeignClock?
    const masterOnly: bool
    const beats: Comparison

    ghost predicate Valid()
      reads this, foreignMasters
    {
      && (forall fc :: fc in foreignMasters ==> fc.Valid())
      && (forall i, j :: 0 <= i < j < |foreignMasters| ==> foreignMasters[i].sender != foreignMasters[j].sender)
      && (best != null ==> best in foreignMasters)
    }

    constructor (masterOnlyPort: bool, comparison: Comparison)
      ensures Valid() && foreignMasters == [] && best == null
      ensures masterOnly == masterOnlyPort && beats == comparison
    {
      foreignMasters, best, masterOnly, beats := [], null, masterOnlyPort, comparison;
    }

    /**
     * add_foreign_master: the first announcement of a new clock is not counted; a later one is added in front, and
     * matters if it makes the clock qualify or if it differs from the one before.
     */
    method AddForeignMaster(m: Announce, now: int, admitted: bool) returns (matters: bool)
      requires Valid()
      modifies this`foreignMasters, foreignMasters
      ensures Valid() && best == old(best)
      ensures forall fc :: fc in old(foreignMasters) && fc.sender != m.sender ==> fc.messages == old(fc.messages)
      ensures (forall fc :: fc in old(foreignMasters) ==> fc.sender != m.sender) ==>
                && !matters
                && (!admitted ==> foreignMasters == old(foreignMasters))
                && (admitted ==> && |foreignMasters| == 1 + |old(foreignMasters)|
                                 && foreignMasters[1..] == old(foreignMasters)
                                 && foreignMasters[0].sender == m.sender && foreignMasters[0].messages == [])
      ensures forall fc :: fc in old(foreignMasters) && fc.sender == m.sender ==>
                var kept := Pruned(old(fc.messages), now);
                && foreignMasters == old(foreignMasters)
                && fc.messages == [m] + kept
                && matters == (|kept| == FOREIGN_MASTER_THRESHOLD - 1 || (kept != [] && m.info != kept[0].info))
    {
      var i := 0;
      while i < |foreignMasters| && foreignMasters[i].sender != m.sender
        invariant 0 <= i <= |foreignMasters|
        invariant forall k :: 0 <= k < i ==> foreignMasters[k].sender != m.sender
      {
        i := i + 1;
      }
      if i == |foreignMasters| {
        if admitted {
          var fc := new ForeignClock(m.sender);
          foreignMasters := [fc] + foreignMasters;
        }
        return false;
      }
      matters := AddTo(foreignMasters[i], m, now);
    }

    /** Prunes the clock's announcements and adds one more in front. */
    method AddTo(fc: ForeignClock, m: Announce, now: int) returns (matters: bool)
      requires fc.Valid() && fc.sender == m.sender
      modifies fc`messages, fc`nMessages
      ensures fc.Valid()
      ensures var kept := Pruned(old(fc.messages), now);
              && fc.messages == [m] + kept
              && matters == (|kept| == FOREIGN_MASTER_THRESHOLD - 1 || (kept != [] && m.info != kept[0].info))
    {
      fc.Prune(now);
      var brokeThreshold := FOREIGN_MASTER_THRESHOLD - 1 == fc.nMessages;
      fc.Add(m);
      var diff := false;
      if fc.nMessages > 1 {
        diff := m.info != fc.messages[1].info;
      }
      matters := brokeThreshold || diff;
    }

    /** update_current_master: for an announcement of the best clock only a change matters. */
    method UpdateCurrentMaster(m: Announce, now: int, admitted: bool) returns (matters: bool)
      requires Valid()
      modifies this`foreignMasters, foreignMasters
      ensures Valid() && best == old(best)
      ensures best != null && best.sender == m.sender ==>
                var kept := Pruned(old(best.messages), now);
                && foreignMasters == old(foreignMasters)
                && best.messages == [m] + kept && matters == (kept != [] && m.info != kept[0].info)
    {
      if best == null || best.sender != m.sender {
        matters := AddForeignMaster(m, now, admitted);
        return;
      }
      best.Prune(now);
      best.Add(m);
      matters := best.nMessages > 1 && m.info != best.messages[1].info;
    }

    /** What the scan of port_compute_best looks at next. */
    method Consider(fc: ForeignClock, now: int) returns (qualified: bool)
      requires fc.Valid()
      modifies fc
      ensures fc.Valid() && qualified == Qualified(old(fc.messages), now)
      ensures fc.messages == Pruned(old(fc.messages), now)
      ensures qualified ==> fc.dataset == Dataset(old(fc.messages)[0].info, fc.sender)
    {
      if fc.messages == [] {
        return false;
      }
      fc.dataset := Dataset(fc.messages[0].info, fc.messages[0].sender);
      fc.Prune(now);
      qualified := fc.nMessages >= FOREIGN_MASTER_THRESHOLD;
    }

    /** What the scan is going to find: each clock's latest announcement, and whether it qualifies at its turn. */
    ghost function Candidates(nows: seq<int>): (cs: seq<Candidate>)
      requires Valid() && |nows| == |foreignMasters|
      reads this, foreignMasters
      ensures |cs| == |nows| && DistinctSenders(cs)
      ensures forall i :: 0 <= i < |nows| ==>
                cs[i] == CandidateOf(foreignMasters[i].sender, foreignMasters[i].messages, nows[i])
    {
      Snapshot(foreignMasters, nows)
    }

    /**
     * port_compute_best: a qualified clock that no other qualified one beats, although losers lose their
     * announcements while the scan goes on; the best clock keeps those that are left after pruning.
     */
    method ComputeBest(nows: seq<int>) returns (fc: ForeignClock?)
      requires Valid() && |nows| == |foreignMasters|
      modifies this`best, foreignMasters
      ensures Valid() && fc == best
      ensures masterOnly ==> best == null && forall c :: c in foreignMasters ==> c.messages == old(c.messages)
      ensures !masterOnly ==>
                var cs := old(Candidates(nows));
                var b := BestOf(cs, |cs|, beats);
                if b < 0 then best == null
                else && best == foreignMasters[b] && best.dataset == cs[b].dataset
                     && best.messages == Pruned(old(foreignMasters[b].messages), nows[b])
      ensures !masterOnly ==>
                var cs := old(Candidates(nows));
                forall j :: 0 <= j < |cs| ==>
                  foreignMasters[j].messages == Left(cs, old(foreignMasters[j].messages), nows, j, beats)
      ensures !masterOnly && StrictOrder(beats) ==>
                var cs := old(Candidates(nows));
                Unbeaten(cs, beats) && (best == null <==> forall j :: 0 <= j < |cs| ==> !cs[j].qualified)
    {
      hide BestOf, Pruned, CandidateOf, StrictOrder, Unbeaten;
      best := null;
      if !masterOnly {
        ghost var cs := Candidates(nows);
        ghost var before := Lists(foreignMasters);
        Scan(nows, cs, before);
        if StrictOrder(beats) {
          BestIsUnbeaten(cs, |cs|, beats);
          assert Unbeaten(cs, beats) by { UnbeatenExactly(beats); }
        }
      }
      fc := best;
    }

    /** The loop of port_compute_best. */
    method Scan(nows: seq<int>, ghost cs: seq<Candidate>, ghost before: seq<seq<Announce>>)
      requires Valid() && |nows| == |foreignMasters| == |cs| == |before| && best == null
      requires forall i :: 0 <= i < |nows| ==> foreignMasters[i].messages == before[i]
      requires forall i :: 0 <= i < |nows| ==> cs[i] == CandidateOf(foreignMasters[i].sender, before[i], nows[i])
      modifies this`best, foreignMasters
      ensures Valid()
      ensures BestIs(BestOf(cs, |cs|, beats), cs, before, nows)
      ensures forall j :: 0 <= j < |cs| ==> foreignMasters[j].messages == Left(cs, before[j], nows, j, beats)
    {
      hide BestOf, Pruned, CandidateOf, Qualified;
      ghost var b := -1;
      BestOfNone(cs, beats);
      var i := 0;
      while i < |foreignMasters|
        invariant 0 <= i <= |foreignMasters|
        invariant forall c :: c in foreignMasters ==> c.Valid()
        invariant forall j :: i <= j < |foreignMasters| ==> foreignMasters[j].messages == before[j]
        invariant b == BestOf(cs, i, beats) && -1 <= b < i
        invariant BestIs(b, cs, before, nows)
        invariant forall j :: 0 <= j < i ==> foreignMasters[j].messages == Left(cs, before[j], nows, j, beats)
      {
        CandidateIs(foreignMasters[i].sender, before[i], nows[i]);
        BestOfNext(cs, i, beats);
        b := if cs[i].qualified && (b < 0 || beats(cs[i].dataset, cs[b].dataset)) then i else b;
        Turn(foreignMasters[i], nows[i]);
        i := i + 1;
      }
    }

    ghost predicate BestIs(b: int, cs: seq<Candidate>, before: seq<seq<Announce>>, nows: seq<int>)
      requires |nows| == |foreignMasters| == |cs| == |before| && -1 <= b < |cs|
      reads this, foreignMasters
    {
      if b < 0 then best == null
      else && best == foreignMasters[b] && best.dataset == cs[b].dataset
           && best.messages == Pruned(before[b], nows[b])
    }

    /** One turn of the scan. */
    method Turn(c: ForeignClock, now: int)
      requires c.Valid() && best != c
      modifies this`best, c
      ensures c.Valid()
      ensures var ms := old(c.messages);
              if Qualified(ms, now)
                 && (old(best) == null || beats(Dataset(ms[0].info, c.sender), old(best.dataset))) then
                best == c && c.dataset == Dataset(ms[0].info, c.sender) && c.messages == Pruned(ms, now)
              else best == old(best) && c.messages == if Qualified(ms, now) then [] else Pruned(ms, now)
    {
      hide Pruned;
      var qualified := Consider(c, now);
      if qualified {
        if best == null {
          best := c;
        } else if beats(c.dataset, best.dataset) {
          best := c;
        } else {
          c.Clear();
        }
      }
    }
  }

  ghost function Lists(fcs: seq<ForeignClock>): (l: seq<seq<Announce>>)
    reads fcs
    ensures |l| == |fcs| && forall i :: 0 <= i < |fcs| ==> l[i] == fcs[i].messages
  {
    if fcs == [] then [] else [fcs[0].messages] + Lists(fcs[1..])
  }

  // ----- the choice

  datatype Candidate = Candidate(dataset: Dataset, qualified: bool)

  function CandidateOf(sender: int, ms: seq<Announce>, now: int): (c: Candidate)
    ensures c.dataset.sender == sender
  {
    Candidate(Dataset(if ms == [] then Info(0, 0, 0, 0, 0) else ms[0].info, sender), Qualified(ms, now))
  }

  lemma CandidateIs(sender: int, ms: seq<Announce>, now: int)
    ensures CandidateOf(sender, ms, now).qualified == Qualified(ms, now)
    ensures Qualified(ms, now) ==> ms != [] && CandidateOf(sender, ms, now).dataset == Dataset(ms[0].info, sender)
  {
  }

  ghost predicate DistinctSenders(cs: seq<Candidate>) {
    forall i, j :: 0 <= i < j < |cs| ==> cs[i].dataset.sender != cs[j].dataset.sender
  }

  ghost function Snapshot(fcs: seq<ForeignClock>, nows: seq<int>): (cs: seq<Candidate>)
    requires |nows| == |fcs|
    reads fcs
    ensures |cs| == |fcs|
    ensures forall i :: 0 <= i < |fcs| ==> cs[i] == CandidateOf(fcs[i].sender, fcs[i].messages, nows[i])
  {
    if fcs == [] then [] else [CandidateOf(fcs[0].sender, fcs[0].messages, nows[0])] + Snapshot(fcs[1..], nows[1..])
  }

  /** The scan over the first n candidates: each qualified one replaces the best so far if it beats it. */
  function BestOf(cs: seq<Candidate>, n: nat, beats: Comparison): (b: int)
    requires n <= |cs|
    ensures -1 <= b < n
  {
    if n == 0 then -1
    else
      var b := BestOf(cs, n - 1, beats);
      if cs[n - 1].qualified && (b < 0 || beats(cs[n - 1].dataset, cs[b].dataset)) then n - 1 else b
  }

  /** What the scan leaves of a clock's announcements: none if it qualified but did not beat the best one so far. */
  function Left(cs: seq<Candidate>, ms: seq<Announce>, nows: seq<int>, j: nat, beats: Comparison): seq<Announce>
    requires j < |cs| == |nows|
  {
    if cs[j].qualified && BestOf(cs, j + 1, beats) != j then [] else Pruned(ms, nows[j])
  }

  lemma BestOfNone(cs: seq<Candidate>, beats: Comparison)
    ensures BestOf(cs, 0, beats) == -1
  {
  }

  lemma BestOfNext(cs: seq<Candidate>, n: nat, beats: Comparison)
    requires n < |cs|
    ensures var b := BestOf(cs, n, beats);
            BestOf(cs, n + 1, beats)
            == if cs[n].qualified && (b < 0 || beats(cs[n].dataset, cs[b].dataset)) then n else b
  {
  }

  /** Of the first n candidates none that qualifies beats the one chosen. */
  ghost predicate UnbeatenBy(cs: seq<Candidate>, n: nat, b: int, beats: Comparison)
    requires b < n <= |cs|
  {
    b >= 0 ==>
      && cs[b].qualified
      && forall j :: 0 <= j < n && j != b && cs[j].qualified ==> !beats(cs[j].dataset, cs[b].dataset)
  }

  /** With a strict order, the scan ends with a qualified candidate that none beats, if there is any qualified one. */
  lemma {:induction false} BestIsUnbeaten(cs: seq<Candidate>, n: nat, beats: Comparison)
    requires n <= |cs| && DistinctSenders(cs) && StrictOrder(beats)
    ensures var b := BestOf(cs, n, beats);
            (b < 0 <==> forall j :: 0 <= j < n ==> !cs[j].qualified) && UnbeatenBy(cs, n, b, beats)
  {
    if n > 0 {
      BestIsUnbeaten(cs, n - 1, beats);
      var b, b' := BestOf(cs, n - 1, beats), BestOf(cs, n, beats);
      if b >= 0 && b' == n - 1 {
        forall j | 0 <= j < n - 1 && cs[j].qualified
          ensures !beats(cs[j].dataset, cs[b'].dataset)
        {
          assert j != b ==> !beats(cs[j].dataset, cs[b].dataset);
        }
      }
    }
  }

  /** The clock chosen, if any, is qualified and no other qualified one beats it. */
  ghost predicate Unbeaten(cs: seq<Candidate>, beats: Comparison) {
    UnbeatenBy(cs, |cs|, BestOf(cs, |cs|, beats), beats)
  }

  /** The scan makes such a choice among any clocks of a port, if and only if the comparison is a strict order. */
  lemma UnbeatenExactly(beats: Comparison)
    ensures (forall cs: seq<Candidate> :: DistinctSenders(cs) ==> Unbeaten(cs, beats)) <==> StrictOrder(beats)
  {
    if StrictOrder(beats) {
      forall cs: seq<Candidate> | DistinctSenders(cs)
        ensures Unbeaten(cs, beats)
      {
        BestIsUnbeaten(cs, |cs|, beats);
      }
    }
    if forall cs: seq<Candidate> :: DistinctSenders(cs) ==> Unbeaten(cs, beats) {
      forall a: Dataset, b: Dataset | a.sender != b.sender && beats(a, b)
        ensures !beats(b, a)
      {
        BeatenBack(a, b, beats);
        assert Unbeaten([Candidate(b, true), Candidate(a, true)], beats);
      }
      forall a: Dataset, b: Dataset, c: Dataset | ThreeSenders(a, b, c) && beats(a, b) && beats(b, c)
        ensures beats(a, c)
      {
        BeatenInTurn(a, b, c, beats);
        assert Unbeaten([Candidate(c, true), Candidate(a, true), Candidate(b, true)], beats);
      }
    }
  }

  /** Of two clocks that beat each other the second is chosen, and beaten by the first. */
  lemma BeatenBack(a: Dataset, b: Dataset, beats: Comparison)
    requires beats(a, b)
    ensures Unbeaten([Candidate(b, true), Candidate(a, true)], beats) ==> !beats(b, a)
  {
    var cs := [Candidate(b, true), Candidate(a, true)];
    assert BestOf(cs, 1, beats) == 0;
    assert BestOf(cs, 2, beats) == 1;
    assert cs[0].qualified && cs[0].dataset == b;
  }

  /** A clock that does not beat the first one, but the second that does, is left behind. */
  lemma BeatenInTurn(a: Dataset, b: Dataset, c: Dataset, beats: Comparison)
    requires beats(a, b) && beats(b, c)
    ensures Unbeaten([Candidate(c, true), Candidate(a, true), Candidate(b, true)], beats) ==> beats(a, c)
  {
    var cs := [Candidate(c, true), Candidate(a, true), Candidate(b, true)];
    assert BestOf(cs, 1, beats) == 0;
    if !beats(a, c) {
      assert BestOf(cs, 2, beats) == 0;
      assert BestOf(cs, 3, beats) == 2;
      assert cs[1].qualified && beats(cs[1].dataset, cs[2].dataset);
    }
  }

  /**
   * A comparison that is not transitive does harm: among three clocks that beat each other in a circle the one chosen
   * is beaten. The comparison of datasets itself is a parameter here, and may never go round in a circle.
   */
  lemma CircleIsBeaten()
    ensures exists cs: seq<Candidate>, beats: Comparison ::
              && DistinctSenders(cs)
              && (forall a: Dataset, b: Dataset :: beats(a, b) ==> !beats(b, a))
              && !Unbeaten(cs, beats)
  {
    var x, y, z := Dataset(Info(0, 0, 0, 0, 0), 0), Dataset(Info(0, 0, 0, 0, 0), 1), Dataset(Info(0, 0, 0, 0, 0), 2);
    var beats := (a: Dataset, b: Dataset) => (a == y && b == x) || (a == z && b == y) || (a == x && b == z);
    var cs := [Candidate(x, true), Candidate(y, true), Candidate(z, true)];
    assert BestOf(cs, 1, beats) == 0;
    assert BestOf(cs, 2, beats) == 1;
    assert BestOf(cs, 3, beats) == 2;
    assert cs[0].qualified && beats(cs[0].dataset, cs[2].dataset);
    assert !Unbeaten(cs, beats) && DistinctSenders(cs);
  }
}
