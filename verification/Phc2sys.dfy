/** How phc2sys selects source and sink clocks after a change of port states (phc2sys.c). */
module Phc2sys {
  import opened Basics
  import opened PortFsm

  predicate SinkState(s: PortState) { s in {FAULTY, DISABLED, LISTENING, PRE_MASTER, MASTER, PASSIVE} }

  predicate SourceState(s: PortState) { s == UNCALIBRATED || s == SLAVE }

  class Clock {
    const realtime: bool
    const destOnly: bool
    var phcIndex: int
    var state: PortState
    var newState: Option<PortState>

    constructor (isRealtime: bool, onlyDestination: bool, index: int)
      ensures realtime == isRealtime && destOnly == onlyDestination && phcIndex == index
    {
      realtime, destOnly, phcIndex, state, newState := isRealtime, onlyDestination, index, INITIALIZING, None;
    }

    /** The state that a reconfiguration goes by. */
    function Settled(): PortState
      reads this
    {
      if newState.Some? then newState.value else state
    }

    /** Takes over a new state; the device may have changed by then, and with it the index. */
    method Settle(currentIndex: int)
      modifies this
      ensures state == old(Settled()) && newState == None
      ensures phcIndex == if old(newState).Some? then currentIndex else old(phcIndex)
    {
      if newState.Some? {
        phcIndex := currentIndex;
        state, newState := newState.value, None;
      }
    }
  }

  class Domain {
    var clocks: seq<Clock>
    var dstClocks: seq<Clock>
    var srcClock: Clock?
    var srcDomain: Domain?
    const srcPriority: int
    const hasRtClock: bool
    var agentSubscribed: bool
    var stateChanged: bool

    constructor (priority: int, rt: bool)
      ensures srcPriority == priority && hasRtClock == rt && clocks == [] && dstClocks == [] && srcClock == null
    {
      srcPriority, hasRtClock := priority, rt;
      clocks, dstClocks, srcClock, srcDomain := [], [], null, null;
      agentSubscribed, stateChanged := false, true;
    }

    ghost predicate Valid()
      reads `clocks
    {
      forall i, j :: 0 <= i < j < |clocks| ==> clocks[i] != clocks[j]
    }

    /** find_dst_clock. */
    method FindDstClock(phcIndex: int) returns (c: Clock?)
      ensures c != null ==> c in dstClocks && c.phcIndex == phcIndex
      ensures c == null ==> forall d :: d in dstClocks ==> d.phcIndex != phcIndex
    {
      var i := 0;
      while i < |dstClocks|
        invariant 0 <= i <= |dstClocks|
        invariant forall k :: 0 <= k < i ==> dstClocks[k].phcIndex != phcIndex
      {
        if dstClocks[i].phcIndex == phcIndex {
          return dstClocks[i];
        }
        i := i + 1;
      }
      return null;
    }

    /** One clock of the scan, put to the sinks or counted as a source. */
    method Classify(c: Clock, ghost seen: seq<Clock>, srcCnt: nat, src: Clock?) returns (srcCnt': nat, src': Clock?)
      requires Sinks(dstClocks, seen) && Sources(srcCnt, src, seen) && c !in seen
      modifies this`dstClocks
      ensures Sinks(dstClocks, seen + [c]) && Sources(srcCnt', src', seen + [c])
    {
      hide Sinks, Sources;
      srcCnt', src' := srcCnt, src;
      if SinkState(c.state) {
        NotASource(srcCnt, src, seen, c);
        AddSink(c, seen);
      } else {
        NotASink(dstClocks, seen, c);
        if c.state == UNCALIBRATED {
          srcCnt' := srcCnt + 1;
          SourceAdded(srcCnt, src, seen, c);
        } else if c.state == SLAVE {
          src', srcCnt' := c, srcCnt + 1;
          SourceAdded(srcCnt, src, seen, c);
        } else {
          NotASource(srcCnt, src, seen, c);
        }
      }
    }

    method AddSink(c: Clock, ghost seen: seq<Clock>)
      requires Sinks(dstClocks, seen) && SinkState(c.state)
      modifies this`dstClocks
      ensures Sinks(dstClocks, seen + [c])
    {
      hide Sinks;
      var dup := FindDstClock(c.phcIndex);
      if dup == null {
        SinkAdded(dstClocks, seen, c);
        dstClocks := [c] + dstClocks;
      } else {
        SinkStandsIn(dstClocks, seen, c, dup);
      }
    }

    /** What a reconfiguration comes to: the domain's own source, and its sinks. */
    ghost predicate Chosen(ok: bool, own: Clock?)
      reads `clocks, `dstClocks, `agentSubscribed, set x | x in clocks
    {
      && (forall d :: d in dstClocks ==> d in clocks)
      && (own != null ==> own in clocks)
      && (!ok ==> own == null)
      && (!hasRtClock && !agentSubscribed ==> ok && own == null && dstClocks == [])
      && (hasRtClock || agentSubscribed ==>
            var r := RealtimeAt(clocks);
            if r < |clocks| then
              && ok && dstClocks != [] && dstClocks[0] == clocks[r] && Sinks(dstClocks[1..], clocks[..r])
              && own == if clocks[r].destOnly then null else clocks[r]
            else
              && Sinks(dstClocks, clocks) && AllSettled(clocks)
              && (own != null ==> own.state == SLAVE && OnlySource(own, clocks))
              && (ok && own == null ==> NoSource(clocks) && dstClocks != [])
              && (!ok ==> !(exists c :: c in clocks && c.state == SLAVE && OnlySource(c, clocks))
                          && (NoSource(clocks) ==> dstClocks == [])))
    }

    /**
     * reconfigure_domain; indices tells the index each clock's device has by now. The domain's own source is the one
     * clock that can be a source, and only if it is a slave; anything less clear postpones the reconfiguration. A
     * realtime clock ends the scan: it is always a sink, and the source unless it is a destination only.
     */
    method Reconfigure(indices: seq<int>) returns (ok: bool)
      requires Valid() && |indices| == |clocks|
      modifies this`dstClocks, this`srcClock, this`srcDomain, this`stateChanged, clocks
      ensures !stateChanged && srcDomain == this && Chosen(ok, srcClock)
      ensures !ok ==> srcClock == null
      ensures forall d :: d in dstClocks ==> d in clocks
    {
      stateChanged := false;
      srcDomain := this;
      dstClocks := [];
      srcClock := null;
      if !hasRtClock && !agentSubscribed {
        return true;
      }
      var src, srcCnt: nat;
      ok, src, srcCnt := Scan(indices);
      if ok {
        SinksAreSeen(dstClocks[1..], clocks[..RealtimeAt(clocks)]);
        assert forall d :: d in dstClocks ==> d == dstClocks[0] || d in dstClocks[1..];
        return;
      }
      SinksAreSeen(dstClocks, clocks);
      Verdict(srcCnt, src, clocks);
      if srcCnt > 1 || (srcCnt > 0 && src == null) || (srcCnt == 0 && |dstClocks| == 0) {
        return false;
      }
      srcClock := src;
      ok := true;
    }

    /** The loop over the clocks; done tells that it has met a realtime clock. */
    method Scan(indices: seq<int>) returns (done: bool, src: Clock?, srcCnt: nat)
      requires Valid() && |indices| == |clocks| && dstClocks == [] && srcClock == null
      modifies this`dstClocks, this`srcClock, clocks
      ensures var r := RealtimeAt(clocks);
              && done == (r < |clocks|)
              && (if done then
                    && dstClocks != [] && dstClocks[0] == clocks[r] && Sinks(dstClocks[1..], clocks[..r])
                    && srcClock == if clocks[r].destOnly then null else clocks[r]
                  else srcClock == null && Sinks(dstClocks, clocks) && Sources(srcCnt, src, clocks) && AllSettled(clocks))
    {
      hide Sinks, Sources;
      done, src, srcCnt := false, null, 0;
      NothingSeen();
      var i := 0;
      while i < |clocks|
        invariant 0 <= i <= |clocks| && srcClock == null
        invariant forall k :: 0 <= k < i ==> !clocks[k].realtime && clocks[k].newState == None
        invariant Sinks(dstClocks, clocks[..i]) && Sources(srcCnt, src, clocks[..i])
      {
        var c := clocks[i];
        if c.realtime {
          RealtimeIs(clocks, i);
          dstClocks := [c] + dstClocks;
          srcClock := if c.destOnly then null else c;
          done := true;
          return;
        }
        NotSeen(clocks, i);
        SinksAreSeen(dstClocks, clocks[..i]);
        c.Settle(indices[i]);
        srcCnt, src := Classify(c, clocks[..i], srcCnt, src);
        assert clocks[..i + 1] == clocks[..i] + [c];
        i := i + 1;
      }
      RealtimeIs(clocks, i);
      assert clocks[..i] == clocks;
    }
  }

  function RealtimeAt(clocks: seq<Clock>): (r: nat)
    ensures r <= |clocks| && (r < |clocks| ==> clocks[r].realtime)
    ensures forall k :: 0 <= k < r ==> !clocks[k].realtime
  {
    if clocks == [] || clocks[0].realtime then 0 else 1 + RealtimeAt(clocks[1..])
  }

  lemma RealtimeIs(clocks: seq<Clock>, i: nat)
    requires i <= |clocks| && (i < |clocks| ==> clocks[i].realtime) && forall k :: 0 <= k < i ==> !clocks[k].realtime
    ensures RealtimeAt(clocks) == i
  {
  }

  lemma NotSeen(clocks: seq<Clock>, i: nat)
    requires i < |clocks| && forall j, k :: 0 <= j < k < |clocks| ==> clocks[j] != clocks[k]
    ensures clocks[i] !in clocks[..i]
  {
  }

  /** The sinks selected from some clocks: in a sink state, with distinct indices, and standing for all such clocks. */
  ghost predicate Sinks(dst: seq<Clock>, clocks: seq<Clock>)
    reads set x | x in clocks
  {
    && (forall d :: d in dst ==> d in clocks && SinkState(d.state))
    && (forall i, j :: 0 <= i < j < |dst| && dst[i] in clocks && dst[j] in clocks ==> dst[i].phcIndex != dst[j].phcIndex)
    && (forall c :: c in clocks && SinkState(c.state) ==> Represented(c.phcIndex, dst, clocks))
  }

  ghost predicate Represented(phcIndex: int, dst: seq<Clock>, clocks: seq<Clock>)
    reads set x | x in clocks
  {
    exists d :: d in dst && d in clocks && d.phcIndex == phcIndex
  }

  /** The one clock that can be a source, if there is only one. */
  ghost predicate OnlySource(src: Clock, clocks: seq<Clock>)
    reads set x | x in clocks
  {
    && src in clocks && SourceState(src.state)
    && forall c :: c in clocks && SourceState(c.state) ==> c == src
  }

  ghost predicate NoSource(clocks: seq<Clock>)
    reads set x | x in clocks
  {
    forall c :: c in clocks ==> !SourceState(c.state)
  }

  ghost predicate AllSettled(clocks: seq<Clock>)
    reads set x | x in clocks
  {
    forall c :: c in clocks ==> c.newState == None
  }

  /** How many clocks can be sources, and the last one of them that is a slave. */
  ghost predicate Sources(cnt: nat, src: Clock?, seen: seq<Clock>)
    reads set x | x in seen
  {
    && (cnt == 0 ==> NoSource(seen))
    && (cnt == 1 ==> exists c :: c in seen && OnlySource(c, seen))
    && (cnt > 1 ==> exists c, d :: c in seen && d in seen && c != d && SourceState(c.state) && SourceState(d.state))
    && (src != null ==> src in seen && src.state == SLAVE)
    && (src == null ==> forall c :: c in seen ==> c.state != SLAVE)
  }

  lemma NothingSeen()
    ensures Sinks([], []) && Sources(0, null, [])
  {
  }

  lemma SinkAdded(dst: seq<Clock>, seen: seq<Clock>, c: Clock)
    requires Sinks(dst, seen) && SinkState(c.state) && forall d :: d in dst ==> d.phcIndex != c.phcIndex
    ensures Sinks([c] + dst, seen + [c])
  {
  }

  lemma SinkStandsIn(dst: seq<Clock>, seen: seq<Clock>, c: Clock, dup: Clock)
    requires Sinks(dst, seen) && dup in dst && dup.phcIndex == c.phcIndex
    ensures Sinks(dst, seen + [c])
  {
  }

  lemma SinksAreSeen(dst: seq<Clock>, seen: seq<Clock>)
    requires Sinks(dst, seen)
    ensures forall d :: d in dst ==> d in seen
  {
  }

  lemma NotASink(dst: seq<Clock>, seen: seq<Clock>, c: Clock)
    requires Sinks(dst, seen) && !SinkState(c.state)
    ensures Sinks(dst, seen + [c])
  {
  }

  lemma NotASource(cnt: nat, src: Clock?, seen: seq<Clock>, c: Clock)
    requires Sources(cnt, src, seen) && !SourceState(c.state)
    ensures Sources(cnt, src, seen + [c])
  {
    if cnt == 1 {
      var d :| d in seen && OnlySource(d, seen);
      assert d in seen + [c] && OnlySource(d, seen + [c]);
    } else if cnt > 1 {
      var d, e :| d in seen && e in seen && d != e && SourceState(d.state) && SourceState(e.state);
      assert d in seen + [c] && e in seen + [c];
    }
  }

  lemma SourceAdded(cnt: nat, src: Clock?, seen: seq<Clock>, c: Clock)
    requires Sources(cnt, src, seen) && SourceState(c.state) && c !in seen
    ensures Sources(cnt + 1, if c.state == SLAVE then c else src, seen + [c])
  {
    assert c in seen + [c];
    if cnt == 0 {
      assert OnlySource(c, seen + [c]);
    } else if cnt == 1 {
      var d :| d in seen && OnlySource(d, seen);
      assert d in seen + [c] && d != c;
    } else {
      var d, e :| d in seen && e in seen && d != e && SourceState(d.state) && SourceState(e.state);
      assert d in seen + [c] && e in seen + [c];
    }
  }

  /** What the count and the slave found say about the clocks. */
  lemma Verdict(cnt: nat, src: Clock?, clocks: seq<Clock>)
    requires Sources(cnt, src, clocks)
    ensures cnt == 1 && src != null ==> OnlySource(src, clocks) && src.state == SLAVE
    ensures cnt != 1 || src == null ==> !(exists c :: c in clocks && c.state == SLAVE && OnlySource(c, clocks))
    ensures cnt == 0 <==> NoSource(clocks)
    ensures cnt == 0 ==> src == null
  {
  }

  // ----- several domains

  datatype View = View(hasSource: bool, priority: int)

  /** compare_domains: positive if b is to be preferred to a; None is no domain at all. */
  function CompareDomains(a: Option<View>, b: Option<View>): int {
    if a.None? || b.None? then
      if a.Some? && a.value.hasSource then -1 else if b.Some? && b.value.hasSource then 1 else 0
    else if a.value.hasSource != b.value.hasSource then
      (if b.value.hasSource then 1 else 0) - (if a.value.hasSource then 1 else 0)
    else b.value.priority - a.value.priority
  }

  /** The scan over the first n domains, for the one to borrow from; -1 if there is none. */
  function Select(vs: seq<View>, n: nat): (s: int)
    requires n <= |vs|
    ensures -1 <= s < n
  {
    if n == 0 then -1
    else
      var s := Select(vs, n - 1);
      if CompareDomains(if s < 0 then None else Some(vs[s]), Some(vs[n - 1])) > 0 then n - 1 else s
  }

  /** It finds the first of those with the greatest priority among the domains that have a source. */
  lemma {:induction false} SelectIsFirstGreatest(vs: seq<View>, n: nat)
    requires n <= |vs|
    ensures var s := Select(vs, n);
            && (s < 0 <==> forall j :: 0 <= j < n ==> !vs[j].hasSource)
            && (s >= 0 ==> && vs[s].hasSource
                           && forall j :: 0 <= j < n && vs[j].hasSource ==>
                                vs[j].priority <= vs[s].priority && (j < s ==> vs[j].priority < vs[s].priority))
  {
    if n > 0 {
      SelectIsFirstGreatest(vs, n - 1);
    }
  }

  lemma SelectNext(vs: seq<View>, n: nat)
    requires n < |vs|
    ensures Select(vs, n + 1) == if CompareDomains(if Select(vs, n) < 0 then None else Some(vs[Select(vs, n)]), Some(vs[n])) > 0
                                 then n else Select(vs, n)
  {
  }

  /** The pool holds all clocks; each belongs to one domain. */
  ghost predicate Separate(domains: seq<Domain>, pool: set<Clock>)
    reads domains`clocks
  {
    && (forall i :: 0 <= i < |domains| ==> domains[i].Valid() && forall c :: c in domains[i].clocks ==> c in pool)
    && (forall i, j :: 0 <= i < j < |domains| ==>
          domains[i] != domains[j] && forall c :: c in domains[i].clocks ==> c !in domains[j].clocks)
  }

  ghost function Views(domains: seq<Domain>, own: seq<Clock?>): (vs: seq<View>)
    requires |own| <= |domains|
    ensures |vs| == |own| && forall i :: 0 <= i < |own| ==> vs[i] == View(own[i] != null, domains[i].srcPriority)
  {
    seq(|own|, i requires 0 <= i < |own| => View(own[i] != null, domains[i].srcPriority))
  }

  /** A domain reconfigured with this source of its own. */
  ghost predicate Ready(d: Domain, own: Clock?)
    reads d`clocks, d`dstClocks, d`agentSubscribed, d`srcClock, d`srcDomain, set x | x in d.clocks
  {
    d.Chosen(true, own) && d.srcClock == own && d.srcDomain == d
  }

  /** Reconfigures one more domain; what it touches is not part of the others. */
  method ReconfigureNext(ghost domains: seq<Domain>, ghost i: nat, d: Domain, indices: seq<int>,
                         ghost own: seq<Clock?>, ghost pool: set<Clock>) returns (ok: bool)
    requires Separate(domains, pool) && i < |domains| && d == domains[i] && |indices| == |d.clocks| && |own| == i
    requires forall j :: 0 <= j < i ==> Ready(domains[j], own[j]) && Within(domains[j])
    modifies d`dstClocks, d`srcClock, d`srcDomain, d`stateChanged, d.clocks
    ensures forall j :: 0 <= j < i ==> Ready(domains[j], own[j]) && Within(domains[j])
    ensures d.Chosen(ok, d.srcClock) && d.srcDomain == d && Within(d)
    ensures !ok ==> d.srcClock == null
  {
    hide Ready, Domain.Chosen;
    forall j | 0 <= j < i
      ensures domains[j] != d && forall c :: c in domains[j].clocks ==> c !in d.clocks
    {
      assert domains[j] != domains[i] && forall c :: c in domains[j].clocks ==> c !in domains[i].clocks;
    }
    ok := d.Reconfigure(indices);
  }

  lemma InPool(domains: seq<Domain>, pool: set<Clock>, i: nat)
    requires Separate(domains, pool) && i < |domains|
    ensures domains[i].Valid() && forall c :: c in domains[i].clocks ==> c in pool
  {
  }

  ghost predicate Within(d: Domain)
    reads d`clocks, d`dstClocks
  {
    forall c :: c in d.dstClocks ==> c in d.clocks
  }

  /** The first loop of reconfigure: domains get sources of their own, and the one to borrow from is found. */
  method ReconfigureEach(domains: seq<Domain>, indices: seq<seq<int>>, ghost pool: set<Clock>)
    returns (completed: bool, src: int, ghost own: seq<Clock?>)
    requires Separate(domains, pool)
    requires |indices| == |domains| && forall i :: 0 <= i < |domains| ==> |indices[i]| == |domains[i].clocks|
    modifies domains`dstClocks, domains`srcClock, domains`srcDomain, domains`stateChanged, pool
    ensures |own| <= |domains| && completed == (|own| == |domains|)
    ensures forall i :: 0 <= i < |own| ==> Ready(domains[i], own[i])
    ensures !completed ==> domains[|own|].Chosen(false, null)
    ensures completed ==> src == Select(Views(domains, own), |domains|)
  {
    hide Select, CompareDomains, Ready, RealtimeAt, Domain.Chosen, Separate, Within;
    src, own := -1, [];
    NothingSelected(Views(domains, own));
    var i := 0;
    while i < |domains|
      invariant 0 <= i <= |domains| && |own| == i && Separate(domains, pool)
      invariant forall j :: 0 <= j < i ==> Ready(domains[j], own[j]) && Within(domains[j])
      invariant -1 <= src < i && src == Select(Views(domains, own), i)
    {
      InPool(domains, pool, i);
      var ok := ReconfigureNext(domains, i, domains[i], indices[i], own, pool);
      if !ok {
        completed := false;
        return;
      }
      ghost var vs := Views(domains, own);
      own := own + [domains[i].srcClock];
      BecomesReady(domains[i]);
      SelectPrefix(vs, Views(domains, own), i);
      SelectNext(Views(domains, own), i);
      src := Prefer(domains, src, i, own);
      i := i + 1;
    }
    completed := true;
  }

  lemma BecomesReady(d: Domain)
    requires d.Chosen(true, d.srcClock) && d.srcDomain == d
    ensures Ready(d, d.srcClock)
  {
  }

  lemma NothingSelected(vs: seq<View>)
    ensures Select(vs, 0) == -1
  {
  }

  method Prefer(domains: seq<Domain>, src: int, i: nat, ghost own: seq<Clock?>) returns (s: int)
    requires -1 <= src < i < |domains| && |own| == i + 1
    requires forall j :: 0 <= j <= i ==> Ready(domains[j], own[j])
    ensures var vs := Views(domains, own);
            s == if CompareDomains(if src < 0 then None else Some(vs[src]), Some(vs[i])) > 0 then i else src
  {
    var best := None;
    if src >= 0 {
      best := Some(View(domains[src].srcClock != null, domains[src].srcPriority));
    }
    var candidate := View(domains[i].srcClock != null, domains[i].srcPriority);
    s := if CompareDomains(best, Some(candidate)) > 0 then i else src;
  }

  /**
   * reconfigure. It completes if every domain has a clear source or none; then, with several domains and some source
   * among them, every domain ends with a source: its own if it has one and a priority, or else that of the first
   * domain with the greatest priority among those that have one.
   */
  method Reconfigure(domains: seq<Domain>, indices: seq<seq<int>>, ghost pool: set<Clock>)
    returns (completed: bool, ghost own: seq<Clock?>)
    requires Separate(domains, pool)
    requires |indices| == |domains| && forall i :: 0 <= i < |domains| ==> |indices[i]| == |domains[i].clocks|
    modifies domains`dstClocks, domains`srcClock, domains`srcDomain, domains`stateChanged, pool
    ensures |own| <= |domains| && completed == (|own| == |domains|)
    ensures forall i :: 0 <= i < |own| ==> domains[i].Chosen(true, own[i])
    ensures !completed ==> domains[|own|].Chosen(false, null)
    ensures completed ==>
              var s := Select(Views(domains, own), |domains|);
              forall i :: 0 <= i < |domains| ==>
                if |domains| <= 1 || s < 0 then domains[i].srcClock == own[i] && domains[i].srcDomain == domains[i]
                else own[s] != null && Served(domains[i], own[i], domains[s], own[s])
  {
    hide Select;
    var src: int;
    completed, src, own := ReconfigureEach(domains, indices, pool);
    if completed {
      SelectIsFirstGreatest(Views(domains, own), |domains|);
      forall j | 0 <= j < |domains|
        ensures domains[j].Chosen(true, own[j]) && domains[j].srcClock == own[j] && domains[j].srcDomain == domains[j]
      {
      }
      hide Ready, Domain.Chosen;
      if |domains| > 1 && src >= 0 {
        Borrow(domains, src, own);
      }
    }
  }

  /** The source a domain ends with: its own if it has one and a priority, or else the one lent to it. */
  ghost predicate Served(d: Domain, own: Clock?, lender: Domain, lent: Clock?)
    reads d`srcClock, d`srcDomain
  {
    if own != null && d.srcPriority > 0 then d.srcClock == own && d.srcDomain == d
    else d.srcClock == lent && d.srcDomain == lender
  }

  /** The second loop. */
  method Borrow(domains: seq<Domain>, src: int, ghost own: seq<Clock?>)
    requires forall i, j :: 0 <= i < j < |domains| ==> domains[i] != domains[j]
    requires 0 <= src < |domains| == |own|
    requires forall i :: 0 <= i < |domains| ==> domains[i].srcClock == own[i] && domains[i].srcDomain == domains[i]
    modifies domains`srcClock, domains`srcDomain
    ensures forall i :: 0 <= i < |domains| ==> Served(domains[i], own[i], domains[src], own[src])
  {
    var i := 0;
    while i < |domains|
      invariant 0 <= i <= |domains| && domains[src].srcClock == own[src]
      invariant forall j :: 0 <= j < i ==> Served(domains[j], own[j], domains[src], own[src])
      invariant forall j :: i <= j < |domains| ==> domains[j].srcDomain == domains[j] && domains[j].srcClock == own[j]
    {
      if domains[i].srcClock == null || domains[i].srcPriority <= 0 {
        domains[i].srcClock := domains[src].srcClock;
        domains[i].srcDomain := domains[src];
      }
      i := i + 1;
    }
  }

  lemma {:induction false} SelectPrefix(vs: seq<View>, ws: seq<View>, n: nat)
    requires n <= |vs| && n <= |ws| && forall j :: 0 <= j < n ==> vs[j] == ws[j]
    ensures Select(vs, n) == Select(ws, n)
  {
    if n > 0 {
      SelectPrefix(vs, ws, n - 1);
    }
  }
}
