/** The sequence number window of a security association (sad.c). */
module SeqidWindow {
  import opened Tmv

  const WINDOW_LIMIT: int := 32767

  type U16 = x: int | 0 <= x < TWO_16

  /** A cast to UInteger16. */
  function Wrap16(x: int): (r: U16)
    ensures -TWO_16 <= x < 2 * TWO_16 ==> r == if x < 0 then x + TWO_16 else if x < TWO_16 then x else x - TWO_16
  {
    x % TWO_16
  }

  datatype MessageKind = Sync | FollowUp | Other

  /** sad_check_seqid: whether a received number passes; a negative last number means that none is known yet. */
  predicate Passes(kind: MessageKind, last: int, window: U16, id: U16) {
    || window < 1
    || kind == Other
    || last < 0
    || !(|| (id < Wrap16(last + 1) && Wrap16(id + window) < Wrap16(last + 1 + window))
         || (id > Wrap16(last + window) && Wrap16(id + window) > Wrap16(last + 2 * window)))
  }

  /** How far ahead of the last number a number is, counting around. */
  function Ahead(last: U16, id: U16): U16 { Wrap16(id - last) }

  /** The window ends at the highest number: then the second comparison fails for every number. */
  predicate Blind(last: U16, window: U16) { last + window == TWO_16 - 1 }

  /** The window ends well before the wrap, or starts at it: then the sums in the comparisons wrap too early. */
  predicate Leaky(last: U16, window: U16) { last + 2 * window < TWO_16 || last == TWO_16 - 1 }

  /** A number one to window ahead always passes, across the wrap too. */
  lemma AheadPasses(kind: MessageKind, last: U16, window: U16, id: U16)
    requires window <= WINDOW_LIMIT && 1 <= Ahead(last, id) <= window
    ensures Passes(kind, last, window, id)
  {
  }

  /**
   * Exactly what passes: every number of another kind of message, without a window, without a last number, and for a
   * blind association; otherwise the numbers ahead, and for a leaky one also the last numbers before the wrap,
   * wherever the association is.
   */
  lemma PassesExactly(kind: MessageKind, last: int, window: U16, id: U16)
    requires -1 <= last < TWO_16 && window <= WINDOW_LIMIT
    ensures Passes(kind, last, window, id)
            <==> || kind == Other || window == 0 || last == -1
                 || Blind(last, window)
                 || 1 <= Ahead(last, id) <= window
                 || (Leaky(last, window) && id >= TWO_16 - window)
  {
  }

  /** So the check is the window it is meant to be exactly for an association that is neither. */
  lemma WindowIsExact(last: U16, window: U16)
    requires 1 <= window <= WINDOW_LIMIT
    ensures (forall id: U16 :: Passes(Sync, last, window, id) <==> 1 <= Ahead(last, id) <= window)
            <==> !Leaky(last, window) && !Blind(last, window)
  {
    hide Passes;
    forall id: U16
      ensures Passes(Sync, last, window, id) <==>
                Blind(last, window) || 1 <= Ahead(last, id) <= window || (Leaky(last, window) && id >= TWO_16 - window)
    {
      PassesExactly(Sync, last, window, id);
    }
    if Blind(last, window) {
      assert Passes(Sync, last, window, last) && Ahead(last, last) == 0;
    } else if Leaky(last, window) {
      assert Passes(Sync, last, window, TWO_16 - 1);
    }
  }

  /** Right after number 0 a window of ten lets number 65530 pass, six behind; after 65525 it lets everything pass. */
  lemma LeakyExamples()
    ensures Passes(Sync, 0, 10, 65530) && Ahead(0, 65530) == TWO_16 - 6
    ensures Passes(Sync, 65525, 10, 65524) && Ahead(65525, 65524) == TWO_16 - 1
  {
  }

  class SecurityAssociation {
    var lastSeqid: int
    var window: U16

    predicate Valid()
      reads this
    {
      -1 <= lastSeqid < TWO_16 && window <= WINDOW_LIMIT
    }

    constructor ()
      ensures Valid() && lastSeqid == -1 && window == 3
    {
      lastSeqid, window := -1, 3;
    }

    /** sad_set_last_seqid: -1 forgets the number, anything else is cut to 16 bits. */
    method SetLast(seqid: int)
      requires Valid()
      modifies this`lastSeqid
      ensures Valid() && lastSeqid == if seqid == -1 then -1 else Wrap16(seqid)
    {
      lastSeqid := if seqid == -1 then seqid else Wrap16(seqid);
    }

    /** sad_config_sa_seqid_window: out of range values are refused and change nothing. */
    method SetWindow(seqidWindow: int) returns (ok: bool)
      requires Valid()
      modifies this`window
      ensures Valid() && ok == (0 <= seqidWindow <= WINDOW_LIMIT)
      ensures window == if ok then seqidWindow else old(window)
    {
      if seqidWindow < 0 || seqidWindow > (TWO_16 - 1) / 2 {
        return false;
      }
      window := if seqidWindow > 0 then seqidWindow else 0;
      return true;
    }
  }

  /** Each number is one to window ahead of the one before it: at most window - 1 in a row were lost. */
  ghost predicate InOrder(last: int, window: U16, ids: seq<U16>)
    requires last < TWO_16
    decreases |ids|
  {
    ids == [] || ((last >= 0 ==> 1 <= Ahead(last, ids[0]) <= window) && InOrder(ids[0], window, ids[1..]))
  }

  /** Every number of a stream passes, each becoming the last number of the association. */
  ghost predicate AllPass(last: int, window: U16, ids: seq<U16>)
    decreases |ids|
  {
    ids == [] || (Passes(Sync, last, window, ids[0]) && AllPass(ids[0], window, ids[1..]))
  }

  /** No stream with gaps within the window is ever interrupted, however often it wraps. */
  lemma {:induction false} InOrderAllPass(last: int, window: U16, ids: seq<U16>)
    requires last < TWO_16 && window <= WINDOW_LIMIT && InOrder(last, window, ids)
    ensures AllPass(last, window, ids)
    decreases |ids|
  {
    if ids != [] {
      if last >= 0 {
        AheadPasses(Sync, last, window, ids[0]);
      }
      InOrderAllPass(ids[0], window, ids[1..]);
    }
  }
}
