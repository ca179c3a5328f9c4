/** What a transparent clock keeps between related messages, and what it adds to their corrections (tc.c). */
module TransparentClock {
  import opened Basics
  import opened PortFsm
  import opened Tmv

  datatype Kind = Sync | FollowUp | DelayReq | DelayResp | OtherKind

  /** What a message says, as it came in. The time it is forwarded at, in nanoseconds, is that of the host. */
  datatype Header = Header(kind: Kind, seqid: int, source: int, requester: int, domain: int, correction: int, host: int)

  /** A message kept at an egress port, with its residence time there and the number of its ingress port. */
  datatype Entry = Entry(header: Header, residence: int, ingress: int)

  datatype Sent = Sent(header: Header, correction: int)

  /** An egress port: what it keeps, and the general messages that left through it with a new correction. */
  datatype Egress = Egress(waiting: seq<Entry>, sent: seq<Sent>)

  datatype Ingress = Ingress(number: int, peerDelay: int, asymmetry: int)

  // ----- matching

  /** tc_match_syfup: one is the Sync and the other the Follow_Up. */
  predicate Pairs(number: int, h: Header, e: Entry) {
    && e.ingress == number && e.header.seqid == h.seqid && e.header.source == h.source
    && ((e.header.kind == Sync && h.kind == FollowUp) || (e.header.kind == FollowUp && h.kind == Sync))
  }

  /** tc_match_delay: the request came in where the response is to go out, and the response is for its sender. */
  predicate Answers(number: int, h: Header, e: Entry) {
    && e.ingress == number && e.header.seqid == h.seqid && e.header.source == h.requester
    && e.header.kind == DelayReq && h.kind == DelayResp
  }

  function FirstPair(w: seq<Entry>, number: int, h: Header): (k: nat)
    ensures k <= |w| && (k < |w| ==> Pairs(number, h, w[k]))
    ensures forall j :: 0 <= j < k ==> !Pairs(number, h, w[j])
  {
    if w == [] || Pairs(number, h, w[0]) then 0 else 1 + FirstPair(w[1..], number, h)
  }

  function FirstAnswered(w: seq<Entry>, number: int, h: Header): (k: nat)
    ensures k <= |w| && (k < |w| ==> Answers(number, h, w[k]))
    ensures forall j :: 0 <= j < k ==> !Answers(number, h, w[j])
  {
    if w == [] || Answers(number, h, w[0]) then 0 else 1 + FirstAnswered(w[1..], number, h)
  }

  // ----- completion

  /** The correction a Follow_Up leaves with. */
  function SyncCorrection(fup: Header, residence: int, q: Ingress): int {
    ToI64(fup.correction + ToTimeInterval(residence) + ToTimeInterval(q.peerDelay) + q.asymmetry)
  }

  function ResponseCorrection(resp: Header, residence: int): int {
    ToI64(resp.correction + ToTimeInterval(residence))
  }

  /** tc_complete_syfup: the first half is kept, the second sends the Follow_Up and forgets the first. */
  function AfterSyfup(e: Egress, q: Ingress, h: Header, residence: int): Egress {
    var k := FirstPair(e.waiting, q.number, h);
    if k == |e.waiting| then e.(waiting := e.waiting + [Entry(h, residence, q.number)])
    else
      var other := e.waiting[k];
      var fup, stay := if h.kind == FollowUp then h else other.header,
                       if h.kind == FollowUp then other.residence else residence;
      Egress(Without(e.waiting, k), e.sent + [Sent(fup, SyncCorrection(fup, stay, q))])
  }

  class PtpMessage {
    const header: Header
    var correction: int

    constructor (h: Header)
      ensures header == h && Restored()
    {
      header, correction := h, h.correction;
    }

    /** The correction is the one the message came in with. */
    ghost predicate Restored()
      reads this
    {
      correction == header.correction
    }
  }

  datatype Txd = Txd(msg: PtpMessage, residence: int, ingress: int)

  function Entries(l: seq<Txd>): (w: seq<Entry>)
    ensures |w| == |l| && forall k :: 0 <= k < |l| ==> w[k] == Entry(l[k].msg.header, l[k].residence, l[k].ingress)
  {
    seq(|l|, k requires 0 <= k < |l| => Entry(l[k].msg.header, l[k].residence, l[k].ingress))
  }

  class Port {
    const number: int
    var state: PortState
    var spanningTree: bool
    var peerDelay: int
    var asymmetry: int
    var txTimestampOffset: int
    var transmitted: seq<Txd>
    ghost var sent: seq<Sent>
    /** The event messages that left through the port. */
    ghost var events: seq<Header>

    constructor (portNumber: int)
      ensures number == portNumber && transmitted == [] && sent == []
    {
      number, state, spanningTree := portNumber, INITIALIZING, false;
      peerDelay, asymmetry, txTimestampOffset := 0, 0, 0;
      transmitted, sent, events := [], [], [];
    }

    ghost function AsEgress(): Egress
      reads `transmitted, `sent
    {
      Egress(Entries(transmitted), sent)
    }

    function AsIngress(): Ingress
      reads `peerDelay, `asymmetry
    {
      Ingress(number, peerDelay, asymmetry)
    }

    ghost function Messages(): set<PtpMessage>
      reads `transmitted
    {
      set t | t in transmitted :: t.msg
    }

    /** No kept message is in the middle of being sent. */
    ghost predicate AllRestored()
      reads this, Messages()
    {
      forall m :: m in Messages() ==> m.Restored()
    }

    /** tc_flush. */
    method Flush()
      modifies this`transmitted
      ensures transmitted == []
    {
      while transmitted != [] {
        transmitted := transmitted[1..];
      }
    }

    /** tc_prune: drops what is at the front of the list for a second or more. */
    method Prune(now: int)
      modifies this`transmitted
      ensures Entries(transmitted) == Pruned(old(Entries(transmitted)), now)
    {
      while transmitted != [] && !Current(transmitted[0].msg.header, now)
        invariant Pruned(Entries(transmitted), now) == Pruned(old(Entries(transmitted)), now)
        decreases |transmitted|
      {
        assert Entries(transmitted[1..]) == Entries(transmitted)[1..];
        transmitted := transmitted[1..];
      }
    }

    method Drop(k: nat)
      requires k < |transmitted|
      modifies this`transmitted
      ensures Entries(transmitted) == Without(old(Entries(transmitted)), k)
      ensures Messages() <= old(Messages())
    {
      transmitted := Without(transmitted, k);
    }

    method Keep(msg: PtpMessage, residence: int, ingress: int)
      modifies this`transmitted
      ensures Entries(transmitted) == old(Entries(transmitted)) + [Entry(msg.header, residence, ingress)]
      ensures Messages() == old(Messages()) + {msg}
    {
      transmitted := transmitted + [Txd(msg, residence, ingress)];
    }

    /** transport_send, when it succeeds: the message leaves with the correction it has now. */
    method Send(msg: PtpMessage)
      modifies this`sent
      ensures sent == old(sent) + [Sent(msg.header, msg.correction)]
    {
      sent := sent + [Sent(msg.header, msg.correction)];
    }

    method SendEvent(msg: PtpMessage)
      modifies this`events
      ensures events == old(events) + [msg.header]
    {
      events := events + [msg.header];
    }
  }

  predicate Current(h: Header, now: int) { now - h.host < NS_PER_SEC }

  function Pruned(w: seq<Entry>, now: int): seq<Entry> {
    if w == [] || Current(w[0].header, now) then w else Pruned(w[1..], now)
  }

  /** tc_complete_syfup when the send succeeds. Every message has the correction it came in with afterwards. */
  method CompleteSyfup(q: Port, p: Port, msg: PtpMessage, residence: int)
    requires q != p && p.AllRestored() && msg.Restored()
    modifies p`transmitted, p`sent, msg, p.Messages()
    ensures p.AsEgress() == AfterSyfup(old(p.AsEgress()), q.AsIngress(), msg.header, residence)
    ensures var w, k := old(Entries(p.transmitted)), FirstPair(old(Entries(p.transmitted)), q.number, msg.header);
            k < |w| ==>
              var fup := if msg.header.kind == FollowUp then msg.header else w[k].header;
              var stay := if msg.header.kind == FollowUp then w[k].residence else residence;
              p.sent == old(p.sent) + [Sent(fup, ToI64(fup.correction + ToTimeInterval(stay)
                                                       + ToTimeInterval(q.peerDelay) + q.asymmetry))]
    ensures p.Messages() <= old(p.Messages()) + {msg}
    ensures msg.Restored() && forall m :: m in old(p.Messages()) ==> m.Restored()
  {
    var k := 0;
    while k < |p.transmitted| && !Pairs(q.number, msg.header, Entries(p.transmitted)[k])
      invariant k <= |p.transmitted|
      invariant forall j :: 0 <= j < k ==> !Pairs(q.number, msg.header, Entries(p.transmitted)[j])
    {
      k := k + 1;
    }
    FirstIs(Entries(p.transmitted), q.number, msg.header, k);
    if k == |p.transmitted| {
      p.Keep(msg, residence, q.number);
      return;
    }
    var txd := p.transmitted[k];
    assert txd.msg in p.Messages();
    var fup, stay := msg, txd.residence;
    if msg.header.kind == Sync {
      fup, stay := txd.msg, residence;
    }
    var c1 := fup.correction;
    fup.correction := ToI64(c1 + ToTimeInterval(stay) + ToTimeInterval(q.peerDelay) + q.asymmetry);
    p.Send(fup);
    fup.correction := c1;
    p.Drop(k);
  }

  lemma FirstIs(w: seq<Entry>, number: int, h: Header, k: nat)
    requires k <= |w| && (k < |w| ==> Pairs(number, h, w[k]))
    requires forall j :: 0 <= j < k ==> !Pairs(number, h, w[j])
    ensures FirstPair(w, number, h) == k
  {
  }

  lemma FirstAnsweredIs(w: seq<Entry>, number: int, h: Header, k: nat)
    requires k <= |w| && (k < |w| ==> Answers(number, h, w[k]))
    requires forall j :: 0 <= j < k ==> !Answers(number, h, w[j])
    ensures FirstAnswered(w, number, h) == k
  {
  }

  /** tc_complete_request. */
  method CompleteRequest(q: Port, p: Port, req: PtpMessage, residence: int)
    modifies p`transmitted
    ensures p.AsEgress() == AfterRequest(old(p.AsEgress()), q.number, req.header, residence)
    ensures p.Messages() == old(p.Messages()) + {req}
  {
    p.Keep(req, residence, q.number);
  }

  function AfterRequest(e: Egress, number: int, h: Header, residence: int): Egress {
    e.(waiting := e.waiting + [Entry(h, residence, number)])
  }

  /**
   * tc_complete_response when the send succeeds: the first request that q forwarded, that came in at p and that the
   * response is for, is forgotten; without one the response does not leave through p.
   */
  method CompleteResponse(q: Port, p: Port, resp: PtpMessage)
    requires q != p && resp.Restored()
    modifies q`transmitted, p`sent, resp
    ensures var w, k := old(Entries(q.transmitted)), FirstAnswered(old(Entries(q.transmitted)), p.number, resp.header);
            if k == |w| then q.transmitted == old(q.transmitted) && p.sent == old(p.sent)
            else && Entries(q.transmitted) == Without(w, k)
                 && p.sent == old(p.sent) + [Sent(resp.header, ResponseCorrection(resp.header, w[k].residence))]
    ensures q.Messages() <= old(q.Messages())
    ensures resp.Restored()
  {
    var k := 0;
    while k < |q.transmitted| && !Answers(p.number, resp.header, Entries(q.transmitted)[k])
      invariant k <= |q.transmitted|
      invariant forall j :: 0 <= j < k ==> !Answers(p.number, resp.header, Entries(q.transmitted)[j])
    {
      k := k + 1;
    }
    FirstAnsweredIs(Entries(q.transmitted), p.number, resp.header, k);
    if k < |q.transmitted| {
      var c1 := resp.correction;
      resp.correction := ToI64(c1 + ToTimeInterval(q.transmitted[k].residence));
      p.Send(resp);
      resp.correction := c1;
      q.Drop(k);
    }
  }

  // ----- which way messages flow

  predicate Closed(s: PortState) { s in {INITIALIZING, FAULTY, DISABLED, LISTENING, PRE_MASTER, PASSIVE} }

  predicate TowardsSlaves(s: PortState) { s == MASTER || s == GRAND_MASTER }

  predicate TowardsMaster(s: PortState) { s == UNCALIBRATED || s == SLAVE }

  /** tc_blocked. */
  method Blocked(q: Port, p: Port, domain: int, h: Header) returns (blocked: bool)
    ensures blocked == IsBlocked(q, p, domain, h)
  {
    if q == p || p.number == 0 {
      return true;
    }
    if !q.spanningTree || h.domain != domain {
      return false;
    }
    if Closed(q.state) || (TowardsSlaves(q.state) && h.kind != DelayReq) {
      return true;
    }
    if Closed(p.state) {
      return true;
    }
    if TowardsMaster(p.state) {
      return h.kind != DelayReq;
    }
    return h.kind == DelayReq;
  }

  /**
   * Along a spanning tree a Delay_Req leaves only towards the master, whichever open port it came in by, and
   * anything else only comes from the master's side and leaves away from it.
   */
  predicate IsBlocked(q: Port, p: Port, domain: int, h: Header)
    reads q`state, q`spanningTree, p`state
  {
    || q == p
    || p.number == 0
    || (&& q.spanningTree && h.domain == domain
        && !(if h.kind == DelayReq then (TowardsMaster(q.state) || TowardsSlaves(q.state)) && TowardsMaster(p.state)
             else TowardsMaster(q.state) && TowardsSlaves(p.state)))
  }

  // ----- forwarding through all ports

  ghost predicate Distinct(ports: seq<Port>) { forall i, j :: 0 <= i < j < |ports| ==> ports[i] != ports[j] }

  /** The pool holds all messages kept anywhere, and none of them is in the middle of being sent. */
  ghost predicate Kept(ports: seq<Port>, pool: set<PtpMessage>)
    reads ports, pool
  {
    && (forall i :: 0 <= i < |ports| ==> ports[i].Messages() <= pool)
    && (forall m :: m in pool ==> m.Restored())
  }

  /** What forwarding leaves at one port. */
  function AfterComplete(e: Egress, q: Ingress, h: Header, residence: int): Egress {
    match h.kind
    case Sync => AfterSyfup(e, q, h, residence)
    case FollowUp => AfterSyfup(e, q, h, residence)
    case DelayReq => AfterRequest(e, q.number, h, residence)
    case _ => e
  }

  ghost function AfterForward(q: Port, p: Port, e: Egress, domain: int, h: Header, residence: int): Egress
    reads q`state, q`spanningTree, q`peerDelay, q`asymmetry, p`state
  {
    if IsBlocked(q, p, domain, h) then e else AfterComplete(e, q.AsIngress(), h, residence)
  }

  /** One port of a forwarding loop, for anything but a response. */
  method CompleteUnlessBlocked(q: Port, p: Port, domain: int, msg: PtpMessage, residence: int, ghost pool: set<PtpMessage>)
    requires msg in pool && p.Messages() <= pool && forall m :: m in pool ==> m.Restored()
    modifies p`transmitted, p`sent, pool
    ensures p.AsEgress() == AfterForward(q, p, old(p.AsEgress()), domain, msg.header, residence)
    ensures p.Messages() <= pool && forall m :: m in pool ==> m.Restored()
  {
    hide AfterSyfup, IsBlocked, AfterRequest;
    var blocked := Blocked(q, p, domain, msg.header);
    if !blocked {
      NotSelf(q, domain, msg.header);
      if msg.header.kind == Sync || msg.header.kind == FollowUp {
        CompleteSyfup(q, p, msg, residence);
      } else if msg.header.kind == DelayReq {
        CompleteRequest(q, p, msg, residence);
      }
    }
  }

  lemma NotSelf(q: Port, domain: int, h: Header)
    ensures IsBlocked(q, q, domain, h)
  {
  }

  /** tc_fwd_folup: each port that is not blocked completes the Follow_Up on its own. */
  method FwdFolup(ports: seq<Port>, q: Port, domain: int, msg: PtpMessage, ghost pool: set<PtpMessage>)
    requires Distinct(ports) && Kept(ports, pool) && msg in pool
    modifies ports`transmitted, ports`sent, pool
    ensures forall i :: 0 <= i < |ports| ==>
              ports[i].AsEgress() == AfterForward(q, ports[i], old(ports[i].AsEgress()), domain, msg.header, 0)
    ensures Kept(ports, pool)
  {
    hide AfterForward;
    ghost var before := seq(|ports|, i requires 0 <= i < |ports| => old(ports[i].AsEgress()));
    var i := 0;
    while i < |ports|
      invariant 0 <= i <= |ports|
      invariant forall j :: 0 <= j < i ==>
                  ports[j].AsEgress() == AfterForward(q, ports[j], before[j], domain, msg.header, 0)
      invariant forall j :: i <= j < |ports| ==> ports[j].AsEgress() == before[j]
      invariant Kept(ports, pool)
    {
      CompleteUnlessBlocked(q, ports[i], domain, msg, 0, pool);
      i := i + 1;
    }
  }

  /** The time between two stamps, by the rate of the clock's master; the cast from double drops the fraction. */
  function Residence(egress: int, ingress: int, rateRatio: real): int {
    var residence := Sub(egress, ingress);
    if rateRatio != 1.0 then Truncate(residence as real * rateRatio) else residence
  }

  ghost function AfterEvent(q: Port, p: Port, e: Egress, domain: int, h: Header, stamp: int, ingress: int, rateRatio: real): Egress
    reads q`state, q`spanningTree, q`peerDelay, q`asymmetry, p`state, p`txTimestampOffset
  {
    AfterForward(q, p, e, domain, h, Residence(Add(stamp, p.txTimestampOffset), ingress, rateRatio))
  }

  /**
   * tc_fwd_event when all sends succeed: the message leaves unchanged through every port that is not blocked, and
   * then each of these ports completes it with the residence time up to its own transmit time stamp.
   */
  method FwdEvent(ports: seq<Port>, q: Port, domain: int, msg: PtpMessage, ingress: int, stamps: seq<int>,
                  rateRatio: real, ghost pool: set<PtpMessage>)
    requires Distinct(ports) && Kept(ports, pool) && msg in pool && |stamps| == |ports|
    modifies ports`transmitted, ports`sent, ports`events, pool
    ensures forall i :: 0 <= i < |ports| ==>
              ports[i].AsEgress()
              == AfterEvent(q, ports[i], old(ports[i].AsEgress()), domain, msg.header, stamps[i], ingress, rateRatio)
    ensures forall i :: 0 <= i < |ports| ==>
              ports[i].events == old(ports[i].events) +
                                 if IsBlocked(q, ports[i], domain, msg.header) then [] else [msg.header]
    ensures Kept(ports, pool)
  {
    hide AfterEvent;
    ghost var before := seq(|ports|, i requires 0 <= i < |ports| => old(ports[i].AsEgress()));
    SendEvents(ports, q, domain, msg);
    CompleteEvents(ports, q, domain, msg, ingress, stamps, rateRatio, pool);
  }

  method CompleteEvents(ports: seq<Port>, q: Port, domain: int, msg: PtpMessage, ingress: int, stamps: seq<int>,
                        rateRatio: real, ghost pool: set<PtpMessage>)
    requires Distinct(ports) && Kept(ports, pool) && msg in pool && |stamps| == |ports|
    modifies ports`transmitted, ports`sent, pool
    ensures forall i :: 0 <= i < |ports| ==>
              ports[i].AsEgress()
              == AfterEvent(q, ports[i], old(ports[i].AsEgress()), domain, msg.header, stamps[i], ingress, rateRatio)
    ensures Kept(ports, pool)
  {
    hide AfterEvent;
    ghost var before := seq(|ports|, i requires 0 <= i < |ports| => old(ports[i].AsEgress()));
    var i := 0;
    while i < |ports|
      invariant 0 <= i <= |ports|
      invariant forall j :: 0 <= j < i ==>
                  ports[j].AsEgress()
                  == AfterEvent(q, ports[j], before[j], domain, msg.header, stamps[j], ingress, rateRatio)
      invariant forall j :: i <= j < |ports| ==> ports[j].AsEgress() == before[j]
      invariant Kept(ports, pool)
    {
      CompleteEvent(q, ports[i], domain, msg, ingress, stamps[i], rateRatio, pool);
      i := i + 1;
    }
  }

  method CompleteEvent(q: Port, p: Port, domain: int, msg: PtpMessage, ingress: int, stamp: int, rateRatio: real,
                       ghost pool: set<PtpMessage>)
    requires msg in pool && p.Messages() <= pool && forall m :: m in pool ==> m.Restored()
    modifies p`transmitted, p`sent, pool
    ensures p.AsEgress() == AfterEvent(q, p, old(p.AsEgress()), domain, msg.header, stamp, ingress, rateRatio)
    ensures p.Messages() <= pool && forall m :: m in pool ==> m.Restored()
  {
    hide AfterForward, Residence, Add;
    var egress := Add(stamp, p.txTimestampOffset);
    CompleteUnlessBlocked(q, p, domain, msg, Residence(egress, ingress, rateRatio), pool);
  }

  method SendEvents(ports: seq<Port>, q: Port, domain: int, msg: PtpMessage)
    requires Distinct(ports)
    modifies ports`events
    ensures forall i :: 0 <= i < |ports| ==>
              ports[i].events == old(ports[i].events) +
                                 if IsBlocked(q, ports[i], domain, msg.header) then [] else [msg.header]
  {
    hide IsBlocked;
    var i := 0;
    while i < |ports|
      invariant 0 <= i <= |ports|
      invariant forall j :: 0 <= j < i ==>
                  ports[j].events == old(ports[j].events) +
                                     if IsBlocked(q, ports[j], domain, msg.header) then [] else [msg.header]
      invariant forall j :: i <= j < |ports| ==> ports[j].events == old(ports[j].events)
    {
      var blocked := Blocked(q, ports[i], domain, msg.header);
      if !blocked {
        ports[i].SendEvent(msg);
      }
      i := i + 1;
    }
  }

  // ----- responses

  /** The requests kept at q once port p has been served. */
  ghost function Left(q: Port, p: Port, domain: int, h: Header, w: seq<Entry>): seq<Entry>
    reads q`state, q`spanningTree, p`state
  {
    var k := FirstAnswered(w, p.number, h);
    if IsBlocked(q, p, domain, h) || k == |w| then w else Without(w, k)
  }

  /** What leaves through a port, given the requests kept: the response once, if it answers one that came in there. */
  ghost function Answer(q: Port, p: Port, domain: int, h: Header, w: seq<Entry>): seq<Sent>
    reads q`state, q`spanningTree, p`state
  {
    var k := FirstAnswered(w, p.number, h);
    if IsBlocked(q, p, domain, h) || k == |w| then [] else [Sent(h, ResponseCorrection(h, w[k].residence))]
  }

  /** The requests kept at q, before any port and once each of the first n ports has been served. */
  ghost function Lefts(q: Port, ports: seq<Port>, n: nat, domain: int, h: Header, w: seq<Entry>): (l: seq<seq<Entry>>)
    requires n <= |ports|
    reads q`state, q`spanningTree, ports`state
    ensures |l| == n + 1 && l[0] == w
    ensures forall i :: 0 <= i < n ==> l[i + 1] == Left(q, ports[i], domain, h, l[i])
  {
    if n == 0 then [w]
    else
      var l := Lefts(q, ports, n - 1, domain, h, w);
      l + [Left(q, ports[n - 1], domain, h, l[n - 1])]
  }

  method RespondUnlessBlocked(q: Port, p: Port, domain: int, resp: PtpMessage, ghost pool: set<PtpMessage>)
    requires resp in pool && q.Messages() <= pool && forall m :: m in pool ==> m.Restored()
    modifies q`transmitted, p`sent, pool
    ensures Entries(q.transmitted) == Left(q, p, domain, resp.header, old(Entries(q.transmitted)))
    ensures p.sent == old(p.sent) + Answer(q, p, domain, resp.header, old(Entries(q.transmitted)))
    ensures q.Messages() <= pool && forall m :: m in pool ==> m.Restored()
  {
    hide IsBlocked, FirstAnswered;
    var blocked := Blocked(q, p, domain, resp.header);
    if !blocked {
      NotSelf(q, domain, resp.header);
      CompleteResponse(q, p, resp);
    }
  }

  /** tc_fwd_response when all sends succeed. */
  method FwdResponse(ports: seq<Port>, q: Port, domain: int, resp: PtpMessage, ghost pool: set<PtpMessage>)
    requires Distinct(ports) && Kept(ports, pool) && resp in pool && q in ports
    modifies q`transmitted, ports`sent, pool
    ensures var lefts := Lefts(q, ports, |ports|, domain, resp.header, old(Entries(q.transmitted)));
            && Entries(q.transmitted) == lefts[|ports|]
            && forall i :: 0 <= i < |ports| ==>
                 ports[i].sent == old(ports[i].sent) + Answer(q, ports[i], domain, resp.header, lefts[i])
    ensures Kept(ports, pool)
  {
    hide Left, Answer, Lefts;
    ghost var before := seq(|ports|, i requires 0 <= i < |ports| => old(ports[i].sent));
    ghost var lefts := Lefts(q, ports, |ports|, domain, resp.header, Entries(q.transmitted));
    ServeAll(ports, q, domain, resp, pool, lefts, before);
  }

  method ServeAll(ports: seq<Port>, q: Port, domain: int, resp: PtpMessage, ghost pool: set<PtpMessage>,
                  ghost lefts: seq<seq<Entry>>, ghost before: seq<seq<Sent>>)
    requires Distinct(ports) && Kept(ports, pool) && resp in pool && q in ports
    requires |before| == |ports| && forall i :: 0 <= i < |ports| ==> before[i] == ports[i].sent
    requires |lefts| == |ports| + 1 && lefts[0] == Entries(q.transmitted)
    requires forall i :: 0 <= i < |ports| ==> lefts[i + 1] == Left(q, ports[i], domain, resp.header, lefts[i])
    modifies q`transmitted, ports`sent, pool
    ensures Entries(q.transmitted) == lefts[|ports|]
    ensures forall i :: 0 <= i < |ports| ==>
              ports[i].sent == before[i] + Answer(q, ports[i], domain, resp.header, lefts[i])
    ensures Kept(ports, pool)
  {
    hide Left, Answer;
    var i := 0;
    while i < |ports|
      invariant 0 <= i <= |ports|
      invariant Entries(q.transmitted) == lefts[i]
      invariant forall j :: 0 <= j < i ==>
                  ports[j].sent == before[j] + Answer(q, ports[j], domain, resp.header, lefts[j])
      invariant forall j :: i <= j < |ports| ==> ports[j].sent == before[j]
      invariant Kept(ports, pool)
    {
      assert lefts[i + 1] == Left(q, ports[i], domain, resp.header, lefts[i]);
      RespondUnlessBlocked(q, ports[i], domain, resp, pool);
      i := i + 1;
    }
  }
}
