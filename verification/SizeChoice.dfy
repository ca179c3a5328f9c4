/** The choice of a size in the linear-regression servo (linreg.c): which of the fits is trusted. */
module SizeChoice {
  const MAX_SIZE := 6
  const MIN_SIZE := 2
  const ERR_INITIAL_UPDATES := 10
  const ERR_EQUALS := 1.05

  /** The result of one size: its line, the average error of its predictions, and how often that was updated. */
  datatype Fit = Fit(slope: real, intercept: real, err: real, errUpdates: nat)

  ghost predicate ErrorsNotNegative(rs: seq<Fit>) {
    forall j :: 0 <= j < |rs| ==> rs[j].err >= 0.0
  }

  function ErrorOf(rs: seq<Fit>, size: nat): real
    requires size == 0 || MIN_SIZE <= size < |rs| + MIN_SIZE
  {
    if size == 0 then 0.0 else rs[size - MIN_SIZE].err
  }

  /** Whether a result replaces the choice so far, whose error is err; a size of zero means that there is none. */
  predicate Takes(f: Fit, size: nat, err: real) {
    (size == 0 && f.slope != 0.0) || (err * ERR_EQUALS > f.err && f.errUpdates >= ERR_INITIAL_UPDATES)
  }

  /** The scan over the first n results. */
  function Chosen(rs: seq<Fit>, n: nat): (size: nat)
    requires n <= |rs|
    ensures size == 0 || MIN_SIZE <= size < n + MIN_SIZE
  {
    if n == 0 then 0
    else
      var size := Chosen(rs, n - 1);
      if Takes(rs[n - 1], size, ErrorOf(rs, size)) then n - 1 + MIN_SIZE else size
  }

  lemma NothingChosen(rs: seq<Fit>)
    ensures Chosen(rs, 0) == 0
  {
  }

  lemma NoSlopeNoSize(rs: seq<Fit>, n: nat, size: nat)
    requires n <= |rs| && NearlyBest(rs, n, size)
    ensures NoSlope(rs, n) ==> size == 0
  {
  }

  lemma ChosenNext(rs: seq<Fit>, n: nat)
    requires n < |rs|
    ensures var size := Chosen(rs, n);
            Chosen(rs, n + 1) == if Takes(rs[n], size, ErrorOf(rs, size)) then n + MIN_SIZE else size
  {
  }

  /** The choice goes by slopes, errors and counts, not by intercepts. */
  lemma {:induction false} ChosenRaised(rs: seq<Fit>, ts: seq<Fit>, n: nat)
    requires n <= |rs| == |ts|
    requires forall k :: 0 <= k < |rs| ==>
               ts[k].slope == rs[k].slope && ts[k].err == rs[k].err && ts[k].errUpdates == rs[k].errUpdates
    ensures Chosen(ts, n) == Chosen(rs, n)
  {
    if n > 0 {
      ChosenRaised(rs, ts, n - 1);
    }
  }

  // ----- how far the choice can be from the smallest error

  /** An error enlarged n times by the ratio up to which two errors count as equal. */
  function Loosened(n: nat, err: real): real {
    if n == 0 then err else ERR_EQUALS * Loosened(n - 1, err)
  }

  predicate Settled(f: Fit) { f.slope != 0.0 && f.errUpdates >= ERR_INITIAL_UPDATES }

  /** Among the first n results, no settled one beats the chosen size by more than one such ratio per size between them. */
  ghost predicate NearlyBest(rs: seq<Fit>, n: nat, size: nat)
    requires n <= |rs|
  {
    && (size == 0 <==> NoSlope(rs, n))
    && (size != 0 ==>
          && MIN_SIZE <= size < n + MIN_SIZE
          && var chosen := size - MIN_SIZE;
             && (forall j :: 0 <= j <= chosen && Settled(rs[j]) ==> rs[chosen].err <= Loosened(chosen - j, rs[j].err))
             && (forall j :: chosen < j < n && Settled(rs[j]) ==> rs[chosen].err * ERR_EQUALS <= rs[j].err))
  }

  ghost predicate NoSlope(rs: seq<Fit>, n: nat)
    requires n <= |rs|
  {
    forall j :: 0 <= j < n ==> rs[j].slope == 0.0
  }

  lemma {:induction false} LoosenedGrows(err: real, a: nat, b: nat)
    requires err >= 0.0 && a <= b
    ensures 0.0 <= Loosened(a, err) <= Loosened(b, err)
    decreases a + b
  {
    if 0 < a {
      LoosenedGrows(err, a - 1, b - 1);
    } else if 0 < b {
      LoosenedGrows(err, a, b - 1);
    }
  }

  /** A size that replaces the choice is itself nearly best. */
  lemma NearlyBestReplaced(rs: seq<Fit>, n: nat, size: nat)
    requires n < |rs| && ErrorsNotNegative(rs)
    requires NearlyBest(rs, n, size) && size != 0
    requires rs[size - MIN_SIZE].err * ERR_EQUALS > rs[n].err
    ensures forall j :: 0 <= j <= n && Settled(rs[j]) ==> rs[n].err <= Loosened(n - j, rs[j].err)
  {
    var chosen := size - MIN_SIZE;
    forall j | 0 <= j <= n && Settled(rs[j])
      ensures rs[n].err <= Loosened(n - j, rs[j].err)
    {
      if j <= chosen {
        LoosenedGrows(rs[j].err, chosen - j + 1, n - j);
      } else {
        LoosenedGrows(rs[j].err, 0, n - j);
      }
    }
  }

  lemma {:induction false} ChosenIsNearlyBest(rs: seq<Fit>, n: nat)
    requires n <= |rs| && ErrorsNotNegative(rs)
    ensures NearlyBest(rs, n, Chosen(rs, n))
  {
    if n > 0 {
      ChosenIsNearlyBest(rs, n - 1);
      var size := Chosen(rs, n - 1);
      if size != 0 && ErrorOf(rs, size) * ERR_EQUALS > rs[n - 1].err {
        NearlyBestReplaced(rs, n - 1, size);
      }
    }
  }

  // ----- when the choice has the smallest error

  /** A result the scan can choose at all: the first with a slope, and then those with enough updates. */
  ghost predicate Candidate(rs: seq<Fit>, j: nat)
    requires j < |rs|
  {
    if NoSlope(rs, j) then rs[j].slope != 0.0 else rs[j].errUpdates >= ERR_INITIAL_UPDATES
  }

  ghost predicate Smallest(rs: seq<Fit>, j: nat)
    requires j < |rs|
  {
    Candidate(rs, j) && forall k :: 0 <= k < |rs| && Candidate(rs, k) ==> rs[j].err <= rs[k].err
  }

  ghost predicate LastSmallest(rs: seq<Fit>, j: nat)
    requires j < |rs|
  {
    Smallest(rs, j) && forall k :: j < k < |rs| && Candidate(rs, k) ==> rs[j].err < rs[k].err
  }

  /** No candidate among the first n that comes after j has an error that still counts as equal to that of j. */
  ghost predicate Undisturbed(rs: seq<Fit>, j: nat, n: nat)
    requires j < |rs| && n <= |rs|
  {
    forall k :: j < k < n && Candidate(rs, k) ==> rs[j].err * ERR_EQUALS <= rs[k].err
  }

  lemma {:induction false} ChosenIsCandidate(rs: seq<Fit>, n: nat)
    requires n <= |rs| && ErrorsNotNegative(rs)
    ensures Chosen(rs, n) == 0 <==> NoSlope(rs, n)
    ensures Chosen(rs, n) != 0 ==> Candidate(rs, Chosen(rs, n) - MIN_SIZE)
  {
    if n > 0 {
      ChosenIsCandidate(rs, n - 1);
    }
  }

  /** The first result with a slope is a candidate, and the first one. */
  lemma FirstSlope(rs: seq<Fit>, n: nat)
    requires 0 < n <= |rs| && NoSlope(rs, n - 1) && !NoSlope(rs, n)
    ensures Candidate(rs, n - 1) && forall k :: 0 <= k < n - 1 ==> !Candidate(rs, k)
  {
  }

  lemma {:induction false} LastSmallestBelow(rs: seq<Fit>, n: nat) returns (j: nat)
    requires n <= |rs| && !NoSlope(rs, n)
    ensures j < n && Candidate(rs, j)
    ensures forall k :: 0 <= k < n && Candidate(rs, k) ==> rs[j].err <= rs[k].err
    ensures forall k :: j < k < n && Candidate(rs, k) ==> rs[j].err < rs[k].err
  {
    if NoSlope(rs, n - 1) {
      hide Candidate;
      FirstSlope(rs, n);
      j := n - 1;
    } else {
      hide Candidate, NoSlope;
      j := LastSmallestBelow(rs, n - 1);
      if Candidate(rs, n - 1) && rs[n - 1].err <= rs[j].err {
        j := n - 1;
      }
    }
  }

  lemma SlopeFound(rs: seq<Fit>, j: nat, n: nat)
    requires j < n <= |rs| && Candidate(rs, j)
    ensures !NoSlope(rs, n)
  {
  }

  /** The scan at the last smallest error takes it, or has that error already. */
  lemma AtSmallest(rs: seq<Fit>, j: nat)
    requires ErrorsNotNegative(rs) && j < |rs| && Smallest(rs, j)
    ensures Chosen(rs, j + 1) != 0 && ErrorOf(rs, Chosen(rs, j + 1)) == rs[j].err
  {
    hide NoSlope, Chosen;
    ChosenIsCandidate(rs, j);
    ChosenNext(rs, j);
    if !NoSlope(rs, j) {
      assert ErrorOf(rs, Chosen(rs, j)) >= rs[j].err;
    }
  }

  lemma UndisturbedNext(rs: seq<Fit>, j: nat, n: nat)
    requires j < n < |rs|
    ensures Undisturbed(rs, j, n + 1)
            <==> Undisturbed(rs, j, n) && (Candidate(rs, n) ==> rs[j].err * ERR_EQUALS <= rs[n].err)
  {
    hide Candidate;
  }

  /** Once the scan is past the last smallest error, it has that error until a later candidate counts as equal to it. */
  lemma {:induction false} PastSmallest(rs: seq<Fit>, j: nat, n: nat)
    requires ErrorsNotNegative(rs) && j < n <= |rs| && LastSmallest(rs, j)
    ensures Chosen(rs, n) != 0
    ensures ErrorOf(rs, Chosen(rs, n)) >= rs[j].err
    ensures ErrorOf(rs, Chosen(rs, n)) == rs[j].err <==> Undisturbed(rs, j, n)
  {
    hide Chosen, NoSlope, Undisturbed;
    if n == j + 1 {
      AtSmallest(rs, j);
      NothingAfter(rs, j);
    } else {
      PastSmallest(rs, j, n - 1);
      SlopeFound(rs, j, n - 1);
      ChosenNext(rs, n - 1);
      UndisturbedNext(rs, j, n - 1);
    }
  }

  lemma NothingAfter(rs: seq<Fit>, j: nat)
    requires j < |rs|
    ensures Undisturbed(rs, j, j + 1)
  {
  }

  lemma OneLastSmallest(rs: seq<Fit>, i: nat, j: nat)
    requires i < |rs| && j < |rs| && LastSmallest(rs, i) && LastSmallest(rs, j)
    ensures i == j
  {
    hide Candidate;
  }

  /**
   * Exactly when the choice has the smallest error of all candidates: when no candidate after the last one with that
   * error is within the ratio up to which errors count as equal.
   */
  lemma ChoosesSmallestExactly(rs: seq<Fit>)
    requires ErrorsNotNegative(rs) && !NoSlope(rs, |rs|)
    ensures Chosen(rs, |rs|) != 0
    ensures Smallest(rs, Chosen(rs, |rs|) - MIN_SIZE)
            <==> forall j :: 0 <= j < |rs| && LastSmallest(rs, j) ==> Undisturbed(rs, j, |rs|)
  {
    hide Chosen, NoSlope, Undisturbed, Candidate;
    ChosenIsCandidate(rs, |rs|);
    var j := LastSmallestBelow(rs, |rs|);
    assert LastSmallest(rs, j);
    PastSmallest(rs, j, |rs|);
    forall i | 0 <= i < |rs| && LastSmallest(rs, i)
      ensures i == j
    {
      OneLastSmallest(rs, i, j);
    }
  }

  /** With errors of 1 and 1.04, both settled, the larger one is chosen. */
  lemma SmallestErrorMissed()
    ensures var none := Fit(0.0, 0.0, 0.0, 0);
            var rs := [Fit(1.0, 0.0, 1.0, 10), Fit(1.0, 0.0, 1.04, 10), none, none, none];
            Chosen(rs, |rs|) == MIN_SIZE + 1 && Smallest(rs, 0) && !Smallest(rs, 1)
  {
    var none := Fit(0.0, 0.0, 0.0, 0);
    var rs := [Fit(1.0, 0.0, 1.0, 10), Fit(1.0, 0.0, 1.04, 10), none, none, none];
    assert Chosen(rs, 1) == MIN_SIZE;
    assert Chosen(rs, 2) == MIN_SIZE + 1;
    assert Chosen(rs, 3) == MIN_SIZE + 1;
    assert Chosen(rs, 4) == MIN_SIZE + 1;
    assert Candidate(rs, 0) && Candidate(rs, 1) && !Candidate(rs, 2) && !Candidate(rs, 3) && !Candidate(rs, 4);
  }
}
