/** What the transparent clock's bookkeeping (tc.c) amounts to over whole runs of messages. */
module TcPairing {
  import opened Basics
  import opened Tmv
  import opened TransparentClock

  // ----- nothing kept belongs together

  ghost predicate NoPairs(w: seq<Entry>) {
    forall i, j :: 0 <= i < |w| && 0 <= j < |w| ==> !Pairs(w[i].ingress, w[i].header, w[j])
  }

  /** All that happens to the list of an egress port. */
  datatype Change =
    | Complete(q: Ingress, h: Header, residence: int)
    | Respond(number: int, h: Header)
    | Prune(now: int)
    | Flush

  function Apply(e: Egress, c: Change): Egress {
    match c
    case Complete(q, h, residence) => AfterComplete(e, q, h, residence)
    case Respond(number, h) =>
      var k := FirstAnswered(e.waiting, number, h);
      if k == |e.waiting| then e else e.(waiting := Without(e.waiting, k))
    case Prune(now) => e.(waiting := Pruned(e.waiting, now))
    case Flush => e.(waiting := [])
  }

  function Run(e: Egress, cs: seq<Change>): Egress
    decreases |cs|
  {
    if cs == [] then e else Run(Apply(e, cs[0]), cs[1..])
  }

  lemma WithoutNoPairs(w: seq<Entry>, k: nat)
    requires NoPairs(w) && k < |w|
    ensures NoPairs(Without(w, k))
  {
  }

  lemma KeptNoPairs(w: seq<Entry>, x: Entry)
    requires NoPairs(w) && forall j :: 0 <= j < |w| ==> !Pairs(x.ingress, x.header, w[j])
    ensures NoPairs(w + [x])
  {
  }

  lemma {:induction false} PrunedNoPairs(w: seq<Entry>, now: int)
    requires NoPairs(w)
    ensures NoPairs(Pruned(w, now))
  {
    if w != [] && !Current(w[0].header, now) {
      WithoutNoPairs(w, 0);
      assert Without(w, 0) == w[1..];
      PrunedNoPairs(w[1..], now);
    }
  }

  lemma ApplyNoPairs(e: Egress, c: Change)
    requires NoPairs(e.waiting)
    ensures NoPairs(Apply(e, c).waiting)
  {
    hide Pairs, Without, NoPairs;
    match c
    case Complete(q, h, residence) =>
      var k := FirstPair(e.waiting, q.number, h);
      if h.kind == DelayReq {
        RequestPairsNothing(e.waiting, q.number, h, residence);
        KeptNoPairs(e.waiting, Entry(h, residence, q.number));
      } else if k < |e.waiting| {
        WithoutNoPairs(e.waiting, k);
      } else {
        KeptNoPairs(e.waiting, Entry(h, residence, q.number));
      }
    case Respond(number, h) =>
      var k := FirstAnswered(e.waiting, number, h);
      if k < |e.waiting| {
        WithoutNoPairs(e.waiting, k);
      }
    case Prune(now) =>
      PrunedNoPairs(e.waiting, now);
    case Flush =>
      NothingNoPairs();
  }

  lemma RequestPairsNothing(w: seq<Entry>, number: int, h: Header, residence: int)
    requires h.kind == DelayReq
    ensures forall j :: 0 <= j < |w| ==> !Pairs(number, h, w[j])
  {
  }

  lemma NothingNoPairs()
    ensures NoPairs([])
  {
  }

  /** No reachable list holds a Sync and its Follow_Up: the second of them is never kept. */
  lemma {:induction false} NeverBothKept(e: Egress, cs: seq<Change>)
    requires NoPairs(e.waiting)
    ensures NoPairs(Run(e, cs).waiting)
    decreases |cs|
  {
    hide NoPairs, Apply;
    if cs != [] {
      ApplyNoPairs(e, cs[0]);
      NeverBothKept(Apply(e, cs[0]), cs[1..]);
    }
  }

  ghost predicate OldestFirst(w: seq<Entry>) {
    forall i, j :: 0 <= i < j < |w| ==> w[i].header.host <= w[j].header.host
  }

  /** As messages are kept in the order they are forwarded in, pruning drops exactly those out of date. */
  lemma {:induction false} PrunedExactly(w: seq<Entry>, now: int)
    requires OldestFirst(w)
    ensures forall x :: x in w ==> (x in Pruned(w, now) <==> Current(x.header, now))
    ensures forall x :: x in Pruned(w, now) ==> x in w
  {
    if w == [] {
    } else if Current(w[0].header, now) {
      forall x | x in w
        ensures Current(x.header, now)
      {
        var i :| 0 <= i < |w| && w[i] == x;
        assert i > 0 ==> w[0].header.host <= w[i].header.host;
      }
    } else {
      PrunedExactly(w[1..], now);
    }
  }

  /**
   * The residence of an event message: from its receive stamp to its transmit stamp with the port's offset, stretched
   * by the rate ratio and rounded towards zero, where no value exceeds its range.
   */
  lemma ResidenceExactly(stamp: int, offset: int, ingress: int, rateRatio: real)
    requires IsI64(stamp + offset) && IsI64(stamp + offset - ingress)
    ensures var elapsed, r := (stamp + offset - ingress) as real, Residence(Add(stamp, offset), ingress, rateRatio);
            && (rateRatio == 1.0 ==> r as real == elapsed)
            && (rateRatio != 1.0 && elapsed * rateRatio >= 0.0 ==>
                  r as real <= elapsed * rateRatio < r as real + 1.0)
            && (rateRatio != 1.0 && elapsed * rateRatio <= 0.0 ==>
                  r as real - 1.0 < elapsed * rateRatio <= r as real)
  {
  }

  // ----- both orders

  ghost predicate IsPair(sync: Header, fup: Header) {
    sync.kind == Sync && fup.kind == FollowUp && sync.seqid == fup.seqid && sync.source == fup.source
  }

  /**
   * Where no value exceeds its range, what the Follow_Up carries on top of its correction and the asymmetry is the
   * residence of the Sync and the delay of the ingress link, in units of 2^-16 ns.
   */
  lemma ResidenceIsAdded(fup: Header, residence: int, q: Ingress)
    requires MIN_INTERVAL_NS <= residence <= MAX_INTERVAL_NS && MIN_INTERVAL_NS <= q.peerDelay <= MAX_INTERVAL_NS
    requires IsI64(fup.correction + (residence + q.peerDelay) * 65536 + q.asymmetry)
    ensures SyncCorrection(fup, residence, q) - fup.correction - q.asymmetry == (residence + q.peerDelay) * 65536
  {
  }

  /**
   * Whichever half comes first, the Follow_Up leaves once, with the residence of the Sync, the delay and the asymmetry
   * of the ingress link added to its correction, and nothing is kept.
   */
  lemma EitherOrder(e: Egress, q: Ingress, sync: Header, fup: Header, residence: int)
    requires IsPair(sync, fup)
    requires forall j :: 0 <= j < |e.waiting| ==>
               !Pairs(q.number, sync, e.waiting[j]) && !Pairs(q.number, fup, e.waiting[j])
    ensures var correction :=
              ToI64(fup.correction + ToTimeInterval(residence) + ToTimeInterval(q.peerDelay) + q.asymmetry);
            var sent := e.sent + [Sent(fup, correction)];
            && AfterSyfup(AfterSyfup(e, q, sync, residence), q, fup, 0) == Egress(e.waiting, sent)
            && AfterSyfup(AfterSyfup(e, q, fup, 0), q, sync, residence) == Egress(e.waiting, sent)
  {
    SecondHalf(e.waiting, q, sync, residence, fup);
    SecondHalf(e.waiting, q, fup, 0, sync);
  }

  lemma SecondHalf(w: seq<Entry>, q: Ingress, first: Header, residence: int, second: Header)
    requires IsPair(first, second) || IsPair(second, first)
    requires forall j :: 0 <= j < |w| ==> !Pairs(q.number, first, w[j]) && !Pairs(q.number, second, w[j])
    ensures FirstPair(w, q.number, first) == |w|
    ensures var w' := w + [Entry(first, residence, q.number)];
            FirstPair(w', q.number, second) == |w| && Without(w', |w|) == w
  {
    var w' := w + [Entry(first, residence, q.number)];
    assert Pairs(q.number, second, w'[|w|]);
    assert FirstPair(w', q.number, second) <= |w|;
  }

  // ----- any order

  /** A Sync or Follow_Up reaching an egress port; the residence of a Follow_Up is not used. */
  datatype Arrival = Arrival(q: Ingress, h: Header, residence: int)

  datatype Key = Key(number: int, seqid: int, source: int, kind: Kind)

  function KeyOf(x: Entry): Key { Key(x.ingress, x.header.seqid, x.header.source, x.header.kind) }

  function AsEntry(a: Arrival): Entry { Entry(a.h, a.residence, a.q.number) }

  function Opposite(k: Key): Key { k.(kind := if k.kind == Sync then FollowUp else Sync) }

  /** The other half of the same pair. */
  predicate Partners(a: Arrival, b: Arrival) { KeyOf(AsEntry(b)) == Opposite(KeyOf(AsEntry(a))) }

  /** The Follow_Up of a pair, as it is sent: with the residence of the Sync, and the link's delay and asymmetry. */
  function SentFor(a: Arrival, b: Arrival): Sent {
    var fup, sync := if b.h.kind == FollowUp then b else a, if b.h.kind == FollowUp then a else b;
    Sent(fup.h, ToI64(fup.h.correction + ToTimeInterval(sync.residence) + ToTimeInterval(b.q.peerDelay)
                      + b.q.asymmetry))
  }

  /** No message comes twice, and the delays of an ingress port stay the same. */
  ghost predicate Proper(s: set<Arrival>) {
    && (forall a :: a in s ==> a.h.kind == Sync || a.h.kind == FollowUp)
    && (forall a, b :: a in s && b in s && KeyOf(AsEntry(a)) == KeyOf(AsEntry(b)) ==> a == b)
    && (forall a, b :: a in s && b in s && a.q.number == b.q.number ==> a.q == b.q)
  }

  function Arrive(es: seq<Arrival>): Egress
    decreases |es|
  {
    if es == [] then Egress([], [])
    else
      var last := es[|es| - 1];
      AfterSyfup(Arrive(es[..|es| - 1]), last.q, last.h, last.residence)
  }

  ghost predicate Alone(a: Arrival, s: set<Arrival>) { forall b :: b in s ==> !Partners(a, b) }

  /** What is kept is what has no partner yet, each once. */
  ghost predicate Waits(w: seq<Entry>, s: set<Arrival>) {
    && (forall a :: a in s ==> (AsEntry(a) in w <==> Alone(a, s)))
    && (forall x :: x in w ==> exists a :: a in s && x == AsEntry(a))
    && (forall i, j :: 0 <= i < j < |w| ==> w[i] != w[j])
  }

  /** Follow_Up f and its Sync are both there, and f is to be sent as x. */
  ghost predicate Completes(f: Arrival, s: set<Arrival>, x: Sent) {
    f.h.kind == FollowUp && exists c :: c in s && Partners(f, c) && SentFor(c, f) == x
  }

  ghost function Completed(s: set<Arrival>, x: Sent): set<Arrival> { set f | f in s && Completes(f, s, x) }

  /** What was sent, and how often: once for every Follow_Up whose Sync is there too. */
  ghost predicate Sends(sent: seq<Sent>, s: set<Arrival>) {
    forall x: Sent :: multiset(sent)[x] == |Completed(s, x)|
  }

  lemma PairsIsPartners(a: Arrival, x: Entry)
    requires a.h.kind == Sync || a.h.kind == FollowUp
    requires x.header.kind == Sync || x.header.kind == FollowUp
    ensures Pairs(a.q.number, a.h, x) <==> KeyOf(x) == Opposite(KeyOf(AsEntry(a)))
  {
  }

  /** The only arrival that can go with a is still waiting. */
  lemma PartnerWaits(w: seq<Entry>, s: set<Arrival>, a: Arrival, b: Arrival)
    requires Waits(w, s) && Proper(s + {a}) && a !in s && b in s && Partners(a, b)
    ensures AsEntry(b) in w && forall c :: c in s && Partners(a, c) ==> c == b
  {
  }

  /** Without a match the new arrival has no partner, and is kept. */
  lemma FirstHalfWaits(w: seq<Entry>, s: set<Arrival>, a: Arrival)
    requires Waits(w, s) && Proper(s + {a}) && a !in s && forall b :: b in s ==> !Partners(a, b) && !Partners(b, a)
    ensures Waits(w + [AsEntry(a)], s + {a})
  {
    var w', s' := w + [AsEntry(a)], s + {a};
    assert !Partners(a, a);
    forall c | c in s'
      ensures AsEntry(c) in w' <==> Alone(c, s')
    {
      assert a in s';
      if c == a {
        assert w'[|w|] == AsEntry(a);
      } else {
        assert AsEntry(c) != AsEntry(a);
      }
    }
    forall x | x in w'
      ensures exists c :: c in s' && x == AsEntry(c)
    {
      if x in w {
        var c :| c in s && x == AsEntry(c);
        assert c in s';
      } else {
        assert a in s';
      }
    }
    assert AsEntry(a) !in w;
  }

  lemma FirstHalfSends(sent: seq<Sent>, s: set<Arrival>, a: Arrival)
    requires Sends(sent, s) && forall b :: b in s ==> !Partners(a, b) && !Partners(b, a)
    ensures Sends(sent, s + {a})
  {
    hide SentFor, Partners;
    assert !Partners(a, a) by { NotItsOwn(a); }
    forall x: Sent
      ensures Completed(s + {a}, x) == Completed(s, x)
    {
      forall f
        ensures f in Completed(s + {a}, x) <==> f in Completed(s, x)
      {
        if f in s + {a} && Completes(f, s + {a}, x) {
          var c :| c in s + {a} && Partners(f, c) && SentFor(c, f) == x;
          assert c != a && f != a;
        }
        if f in s && Completes(f, s, x) {
          var c :| c in s && Partners(f, c) && SentFor(c, f) == x;
          assert c in s + {a};
        }
      }
    }
  }

  lemma NotItsOwn(a: Arrival)
    ensures !Partners(a, a)
  {
  }

  /** With a match the partner is forgotten. */
  lemma SecondHalfWaits(w: seq<Entry>, s: set<Arrival>, a: Arrival, b: Arrival, k: nat)
    requires Waits(w, s) && Proper(s + {a}) && a !in s && b in s && Partners(a, b) && k < |w| && w[k] == AsEntry(b)
    ensures Waits(Without(w, k), s + {a})
  {
    var w', s' := Without(w, k), s + {a};
    PartnerWaits(w, s, a, b);
    WithoutOnly(w, k);
    forall c | c in s'
      ensures AsEntry(c) in w' <==> Alone(c, s')
    {
      assert a in s' && b in s';
      if c == a {
        assert Partners(a, b);
        assert AsEntry(a) !in w;
      } else if c == b {
        assert Partners(b, a);
      } else {
        assert Partners(c, a) ==> Partners(a, c);
        assert AsEntry(c) != AsEntry(b);
        assert Alone(c, s) <==> Alone(c, s');
      }
    }
    forall x | x in w'
      ensures exists c :: c in s' && x == AsEntry(c)
    {
      var c :| c in s && x == AsEntry(c);
      assert c in s';
    }
  }

  lemma WithoutOnly<T>(w: seq<T>, k: nat)
    requires k < |w| && forall i, j :: 0 <= i < j < |w| ==> w[i] != w[j]
    ensures forall x :: x in Without(w, k) <==> x in w && x != w[k]
    ensures var r := Without(w, k); forall i, j :: 0 <= i < j < |r| ==> r[i] != r[j]
  {
  }

  lemma SecondHalfSends(sent: seq<Sent>, s: set<Arrival>, a: Arrival, b: Arrival)
    requires Sends(sent, s) && Proper(s + {a}) && a !in s && b in s && Partners(a, b)
    requires forall c :: c in s && Partners(a, c) ==> c == b
    ensures Sends(sent + [SentFor(b, a)], s + {a})
  {
    var y := SentFor(b, a);
    forall x: Sent
      ensures multiset(sent + [y])[x] == |Completed(s + {a}, x)|
    {
      var f := if a.h.kind == FollowUp then a else b;
      OneMoreCompleted(s, a, b, x);
      if x == y {
        assert |Completed(s, x) + {f}| == |Completed(s, x)| + 1;
      }
      assert multiset(sent + [y])[x] == multiset(sent)[x] + if x == y then 1 else 0;
    }
  }

  /** The second half of a pair completes one Follow_Up more, and no other is concerned. */
  lemma OneMoreCompleted(s: set<Arrival>, a: Arrival, b: Arrival, x: Sent)
    requires Proper(s + {a}) && a !in s && b in s && Partners(a, b)
    requires forall c :: c in s && Partners(a, c) ==> c == b
    ensures var f := if a.h.kind == FollowUp then a else b;
            && f !in Completed(s, x)
            && Completed(s + {a}, x) == Completed(s, x) + if x == SentFor(b, a) then {f} else {}
  {
    var f := if a.h.kind == FollowUp then a else b;
    assert a in s + {a} && b in s + {a};
    forall g
      ensures g in Completed(s + {a}, x) <==> g in Completed(s, x) || (g == f && x == SentFor(b, a))
    {
      CompletedOrNot(s, a, b, x, g);
    }
    assert forall c :: c in s ==> c in s + {a};
  }

  lemma CompletedOrNot(s: set<Arrival>, a: Arrival, b: Arrival, x: Sent, g: Arrival)
    requires Proper(s + {a}) && a !in s && b in s && Partners(a, b)
    requires forall c :: c in s && Partners(a, c) ==> c == b
    ensures var f := if a.h.kind == FollowUp then a else b;
            g in Completed(s + {a}, x) <==> g in Completed(s, x) || (g == f && x == SentFor(b, a))
  {
    var s', f := s + {a}, if a.h.kind == FollowUp then a else b;
    assert a in s' && b in s';
    assert Partners(b, a);
    if g in s' && Completes(g, s', x) {
      var c :| c in s' && Partners(g, c) && SentFor(c, g) == x;
      if c == a {
        assert Partners(a, g) && g == b;
      } else if g == a {
        assert c == b;
      }
    }
    if g in s && Completes(g, s, x) {
      var c :| c in s && Partners(g, c) && SentFor(c, g) == x;
      assert c in s';
    }
    if g == f && x == SentFor(b, a) {
      var other := if f == a then b else a;
      assert other in s' && Partners(f, other) && SentFor(other, f) == x;
    }
  }

  ghost function Arrived(es: seq<Arrival>): set<Arrival> { set a | a in es }

  ghost predicate NoneTwice(es: seq<Arrival>) { forall i, j :: 0 <= i < j < |es| ==> es[i] != es[j] }

  /** What an arrival in a proper run finds: its partner, if that has arrived, and nothing else. */
  lemma MatchIsPartner(e: Egress, s: set<Arrival>, a: Arrival)
    requires Waits(e.waiting, s) && Proper(s + {a}) && a !in s
    ensures var k := FirstPair(e.waiting, a.q.number, a.h);
            if k == |e.waiting| then forall b :: b in s ==> !Partners(a, b) && !Partners(b, a)
            else exists b :: b in s && Partners(a, b) && e.waiting[k] == AsEntry(b)
  {
    hide Pairs;
    var w, k := e.waiting, FirstPair(e.waiting, a.q.number, a.h);
    assert a in s + {a} && forall b :: b in s ==> b in s + {a};
    if k == |w| {
      forall b | b in s
        ensures !Partners(a, b)
      {
        if Partners(a, b) {
          PartnerWaits(w, s, a, b);
          PairsIsPartners(a, AsEntry(b));
        }
      }
      assert forall b :: b in s && Partners(b, a) ==> Partners(a, b);
    } else {
      assert w[k] in w;
      var b :| b in s && w[k] == AsEntry(b);
      PairsIsPartners(a, w[k]);
    }
  }

  lemma ArrivalStep(e: Egress, s: set<Arrival>, a: Arrival)
    requires Waits(e.waiting, s) && Sends(e.sent, s) && Proper(s + {a}) && a !in s
    ensures var e' := AfterSyfup(e, a.q, a.h, a.residence);
            && Waits(e'.waiting, s + {a}) && Sends(e'.sent, s + {a})
            && 2 * |e'.sent| + |e'.waiting| == 2 * |e.sent| + |e.waiting| + 1
  {
    hide Waits, Sends, Pairs, Alone, Without;
    MatchIsPartner(e, s, a);
    var k := FirstPair(e.waiting, a.q.number, a.h);
    if k == |e.waiting| {
      FirstHalfWaits(e.waiting, s, a);
      FirstHalfSends(e.sent, s, a);
    } else {
      var b :| b in s && Partners(a, b) && e.waiting[k] == AsEntry(b);
      PartnerWaits(e.waiting, s, a, b);
      SecondHalfWaits(e.waiting, s, a, b, k);
      SecondHalfSends(e.sent, s, a, b);
      assert a in s + {a} && b in s + {a};
      assert a.q == b.q;
    }
  }

  /**
   * After any run without repeated messages, in any order: each Follow_Up whose Sync came too has left exactly once,
   * with the residence of that Sync, and nothing else has left; the other halves are kept.
   */
  lemma {:induction false} RunOutcome(es: seq<Arrival>)
    requires Proper(Arrived(es)) && NoneTwice(es)
    ensures Waits(Arrive(es).waiting, Arrived(es)) && Sends(Arrive(es).sent, Arrived(es))
    ensures 2 * |Arrive(es).sent| + |Arrive(es).waiting| == |es|
    decreases |es|
  {
    hide Waits, Sends, AfterSyfup, Proper;
    if es == [] {
      NothingArrived();
    } else {
      var init, last := es[..|es| - 1], es[|es| - 1];
      assert Arrived(es) == Arrived(init) + {last};
      ProperSubset(Arrived(init), Arrived(es));
      RunOutcome(init);
      ArrivalStep(Arrive(init), Arrived(init), last);
    }
  }

  lemma NothingArrived()
    ensures Waits([], {}) && Sends([], {}) && Arrived([]) == {}
  {
    forall x: Sent
      ensures |Completed({}, x)| == 0
    {
      assert Completed({}, x) == {};
    }
  }

  lemma ProperSubset(s: set<Arrival>, t: set<Arrival>)
    requires Proper(t) && s <= t
    ensures Proper(s)
  {
  }

  /** A Follow_Up with its Sync, and how it leaves: residence, link delay and asymmetry are added to its correction. */
  ghost predicate LeavesAs(f: Arrival, c: Arrival, x: Sent) {
    && IsPair(c.h, f.h) && c.q.number == f.q.number && x.header == f.h
    && x.correction == ToI64(f.h.correction + ToTimeInterval(c.residence) + ToTimeInterval(f.q.peerDelay)
                             + f.q.asymmetry)
  }

  lemma LeavesAsSent(f: Arrival, c: Arrival, x: Sent)
    ensures LeavesAs(f, c, x) <==> f.h.kind == FollowUp && Partners(f, c) && x == SentFor(c, f)
  {
  }

  /** In particular exactly the Follow_Ups of pairs have left. */
  lemma PairsAreSent(es: seq<Arrival>, x: Sent)
    requires Proper(Arrived(es)) && NoneTwice(es)
    ensures x in Arrive(es).sent <==> exists f, c :: f in Arrived(es) && c in Arrived(es) && LeavesAs(f, c, x)
  {
    hide Partners, SentFor, Arrive, Proper, LeavesAs;
    RunOutcome(es);
    var s := Arrived(es);
    if x in Arrive(es).sent {
      assert multiset(Arrive(es).sent)[x] > 0;
      assert Completed(s, x) != {};
      var f :| f in Completed(s, x);
      var c :| c in s && Partners(f, c) && SentFor(c, f) == x;
      LeavesAsSent(f, c, x);
    }
    if f, c :| f in s && c in s && LeavesAs(f, c, x) {
      LeavesAsSent(f, c, x);
      assert f in Completed(s, x);
      assert |Completed(s, x)| > 0;
      assert x in multiset(Arrive(es).sent);
    }
  }

  /** So the order in which messages arrive at an egress port does not matter for what leaves and what is kept. */
  lemma OrderDoesNotMatter(es: seq<Arrival>, fs: seq<Arrival>)
    requires Proper(Arrived(es)) && NoneTwice(es) && NoneTwice(fs) && Arrived(es) == Arrived(fs)
    ensures multiset(Arrive(es).sent) == multiset(Arrive(fs).sent)
    ensures multiset(Arrive(es).waiting) == multiset(Arrive(fs).waiting)
  {
    hide Waits, Sends, Proper;
    RunOutcome(es);
    RunOutcome(fs);
    SameSends(Arrive(es).sent, Arrive(fs).sent, Arrived(es));
    SameWaits(Arrive(es).waiting, Arrive(fs).waiting, Arrived(es));
  }

  lemma SameSends(sent: seq<Sent>, other: seq<Sent>, s: set<Arrival>)
    requires Sends(sent, s) && Sends(other, s)
    ensures multiset(sent) == multiset(other)
  {
  }

  lemma SameWaits(w: seq<Entry>, v: seq<Entry>, s: set<Arrival>)
    requires Waits(w, s) && Waits(v, s)
    ensures multiset(w) == multiset(v)
  {
    SameMembers(w, v, s);
    SameMembers(v, w, s);
    OnceEach(w);
    OnceEach(v);
  }

  lemma SameMembers(w: seq<Entry>, v: seq<Entry>, s: set<Arrival>)
    requires Waits(w, s) && Waits(v, s)
    ensures forall x :: x in w ==> x in v
  {
  }

  lemma {:induction false} OnceEach<T>(w: seq<T>)
    requires forall i, j :: 0 <= i < j < |w| ==> w[i] != w[j]
    ensures forall x :: multiset(w)[x] == if x in w then 1 else 0
    decreases |w|
  {
    if w != [] {
      var init, last := w[..|w| - 1], w[|w| - 1];
      OnceEach(init);
      assert w == init + [last];
    }
  }

  // ----- responses

  /** Taking out a request that came in elsewhere does not change what a response finds for a port. */
  lemma {:induction false} OtherPortsRequest(w: seq<Entry>, k: nat, number: int, h: Header)
    requires k < |w| && w[k].ingress != number
    ensures var i, j := FirstAnswered(w, number, h), FirstAnswered(Without(w, k), number, h);
            if i == |w| then j == |w| - 1 else j < |w| - 1 && Without(w, k)[j] == w[i]
  {
    var r := Without(w, k);
    var i, j := FirstAnswered(w, number, h), FirstAnswered(r, number, h);
    if i < |w| {
      assert i != k && r[if i < k then i else i - 1] == w[i];
      assert j <= if i < k then i else i - 1;
    }
    if j < |r| {
      assert r[j] == w[if j < k then j else j + 1];
    }
  }

  ghost predicate NumbersDistinct(ports: seq<Port>) {
    forall i, j :: 0 <= i < j < |ports| ==> ports[i].number != ports[j].number
  }

  /** What leaves through a port depends on the requests that came in there alone, not on the ports served before. */
  lemma {:induction false} AnswersIndependent(q: Port, ports: seq<Port>, n: nat, i: nat, domain: int, h: Header, w: seq<Entry>)
    requires NumbersDistinct(ports) && n <= i < |ports|
    ensures Answer(q, ports[i], domain, h, Lefts(q, ports, n, domain, h, w)[n]) == Answer(q, ports[i], domain, h, w)
    decreases n
  {
    hide IsBlocked, FirstAnswered, Without;
    if n > 0 {
      AnswersIndependent(q, ports, n - 1, i, domain, h, w);
      var left := Lefts(q, ports, n - 1, domain, h, w)[n - 1];
      var k := FirstAnswered(left, ports[n - 1].number, h);
      if k < |left| {
        OtherPortsRequest(left, k, ports[i].number, h);
      }
    }
  }

  /**
   * A response leaves through a port exactly if the port is not blocked and a request is kept that came in there,
   * from the requester and with the number the response is for; it carries the residence of the first such request.
   */
  lemma AnswerExactly(q: Port, p: Port, domain: int, h: Header, w: seq<Entry>)
    ensures Answer(q, p, domain, h, w) != [] <==>
              && !IsBlocked(q, p, domain, h) && h.kind == DelayResp
              && exists x :: x in w && x.header.kind == DelayReq && x.ingress == p.number
                             && x.header.source == h.requester && x.header.seqid == h.seqid
    ensures Answer(q, p, domain, h, w) != [] ==>
              var k := FirstAnswered(w, p.number, h);
              && k < |w| && Answers(p.number, h, w[k])
              && Answer(q, p, domain, h, w) == [Sent(h, ToI64(h.correction + ToTimeInterval(w[k].residence)))]
              && multiset(w) == multiset(Left(q, p, domain, h, w)) + multiset{w[k]}
    ensures Answer(q, p, domain, h, w) == [] ==> Left(q, p, domain, h, w) == w
  {
    hide IsBlocked, Without;
    var k := FirstAnswered(w, p.number, h);
    if k < |w| {
      assert w[k] in w && Answers(p.number, h, w[k]);
      WithoutMultiset(w, k);
    } else {
      forall x | x in w
        ensures !Answers(p.number, h, x)
      {
      }
    }
  }

  // ----- requests, each used once

  /** The requests an egress port has taken in, and what became of them. */
  datatype Ledger = Ledger(stored: multiset<Entry>, answered: multiset<Entry>, dropped: multiset<Entry>)

  ghost function Requests(w: seq<Entry>): (m: multiset<Entry>)
    decreases |w|
  {
    if w == [] then multiset{}
    else Requests(w[1..]) + if w[0].header.kind == DelayReq then multiset{w[0]} else multiset{}
  }

  ghost function Book(l: Ledger, e: Egress, c: Change): Ledger {
    match c
    case Complete(q, h, residence) =>
      if h.kind == DelayReq then l.(stored := l.stored + multiset{Entry(h, residence, q.number)}) else l
    case Respond(number, h) =>
      var k := FirstAnswered(e.waiting, number, h);
      if k == |e.waiting| then l else l.(answered := l.answered + multiset{e.waiting[k]})
    case Prune(now) => l.(dropped := l.dropped + (Requests(e.waiting) - Requests(Pruned(e.waiting, now))))
    case Flush => l.(dropped := l.dropped + Requests(e.waiting))
  }

  ghost function BookAll(l: Ledger, e: Egress, cs: seq<Change>): Ledger
    decreases |cs|
  {
    if cs == [] then l else BookAll(Book(l, e, cs[0]), Apply(e, cs[0]), cs[1..])
  }

  ghost predicate Balanced(l: Ledger, e: Egress) { l.stored == l.answered + l.dropped + Requests(e.waiting) }

  lemma {:induction false} RequestsAppend(w: seq<Entry>, x: Entry)
    ensures Requests(w + [x]) == Requests(w) + if x.header.kind == DelayReq then multiset{x} else multiset{}
    decreases |w|
  {
    if w == [] {
      assert w + [x] == [x];
    } else {
      RequestsAppend(w[1..], x);
      assert (w + [x])[1..] == w[1..] + [x];
    }
  }

  lemma {:induction false} RequestsWithout(w: seq<Entry>, k: nat)
    requires k < |w|
    ensures Requests(w) == Requests(Without(w, k)) + if w[k].header.kind == DelayReq then multiset{w[k]} else multiset{}
    decreases |w|
  {
    if k == 0 {
      assert Without(w, k) == w[1..];
    } else {
      RequestsWithout(w[1..], k - 1);
      assert Without(w, k)[1..] == Without(w[1..], k - 1);
    }
  }

  lemma {:induction false} RequestsPruned(w: seq<Entry>, now: int)
    ensures Requests(Pruned(w, now)) <= Requests(w)
  {
    if w != [] && !Current(w[0].header, now) {
      RequestsPruned(w[1..], now);
    }
  }

  lemma CompleteBalances(l: Ledger, e: Egress, q: Ingress, h: Header, residence: int)
    requires Balanced(l, e)
    ensures Balanced(Book(l, e, Complete(q, h, residence)), AfterComplete(e, q, h, residence))
  {
    hide Requests, Without, Pairs;
    RequestsAppend(e.waiting, Entry(h, residence, q.number));
    var k := FirstPair(e.waiting, q.number, h);
    if h.kind != DelayReq && k < |e.waiting| {
      NotARequest(e.waiting[k], q.number, h);
      RequestsWithout(e.waiting, k);
    }
  }

  lemma NotARequest(x: Entry, number: int, h: Header)
    requires Pairs(number, h, x)
    ensures x.header.kind != DelayReq
  {
  }

  lemma BookBalances(l: Ledger, e: Egress, c: Change)
    requires Balanced(l, e)
    ensures Balanced(Book(l, e, c), Apply(e, c))
  {
    hide Requests, Without, AfterComplete;
    match c
    case Complete(q, h, residence) =>
      CompleteBalances(l, e, q, h, residence);
    case Respond(number, h) =>
      var k := FirstAnswered(e.waiting, number, h);
      if k < |e.waiting| {
        RequestsWithout(e.waiting, k);
      }
    case Prune(now) =>
      RequestsPruned(e.waiting, now);
    case Flush =>
      NoRequests();
  }

  lemma NoRequests()
    ensures Requests([]) == multiset{}
  {
  }

  /** On every run each stored request is answered once, or dropped, or still kept. */
  lemma {:induction false} EachRequestOnce(l: Ledger, e: Egress, cs: seq<Change>)
    requires Balanced(l, e)
    ensures Balanced(BookAll(l, e, cs), Run(e, cs))
    decreases |cs|
  {
    hide Balanced, Book, Apply;
    if cs != [] {
      BookBalances(l, e, cs[0]);
      EachRequestOnce(Book(l, e, cs[0]), Apply(e, cs[0]), cs[1..]);
    }
  }
}
