/** What servo_sample makes of the state a servo core reports (servo.c): when a locked servo counts as stable. */
module ServoSample {
  import opened ServoTypes

  /** One sample: the state reported by the core, and the offset. */
  datatype Report = Report(state: ServoState, offset: int)

  function AbsInt(x: int): nat { if x < 0 then -x else x }

  predicate Small(r: Report, threshold: int) {
    r.state == Locked && AbsInt(r.offset) < threshold
  }

  /** The last n reports were all locked, with an offset below the threshold. */
  ghost predicate LastSmall(rs: seq<Report>, n: nat, threshold: int) {
    n <= |rs| && forall k :: |rs| - n <= k < |rs| ==> Small(rs[k], threshold)
  }

  class Servo {
    const offsetThreshold: int
    const numOffsetValues: nat
    var currOffsetValues: nat
    var firstUpdate: bool
    /** All reports so far. */
    ghost var reports: seq<Report>

    /** The counter says how many more small offsets are needed: it counts down from the last one that was not. */
    ghost predicate Valid()
      reads this
    {
      && currOffsetValues <= numOffsetValues
      && (firstUpdate <==> forall r :: r in reports ==> r.state == Unlocked)
      && (offsetThreshold != 0 ==>
            && LastSmall(reports, numOffsetValues - currOffsetValues, offsetThreshold)
            && (currOffsetValues > 0 ==>
                  !LastSmall(reports, numOffsetValues - currOffsetValues + 1, offsetThreshold)))
    }

    constructor (threshold: int, num: nat)
      ensures Valid() && reports == [] && offsetThreshold == threshold && numOffsetValues == num
    {
      offsetThreshold, numOffsetValues, currOffsetValues := threshold, num, num;
      firstUpdate := true;
      reports := [];
    }

    /** check_offset_threshold. */
    method CheckOffsetThreshold(offset: int) returns (stable: bool)
      modifies this`currOffsetValues
      ensures offsetThreshold == 0 ==> !stable && currOffsetValues == old(currOffsetValues)
      ensures offsetThreshold != 0 ==>
                && stable == (currOffsetValues == 0)
                && currOffsetValues == if AbsInt(offset) >= offsetThreshold then numOffsetValues
                                       else if old(currOffsetValues) == 0 then 0 else old(currOffsetValues) - 1
    {
      if offsetThreshold != 0 {
        if AbsInt(offset) < offsetThreshold {
          if currOffsetValues != 0 {
            currOffsetValues := currOffsetValues - 1;
          }
        } else {
          currOffsetValues := numOffsetValues;
        }
        return currOffsetValues == 0;
      }
      return false;
    }

    /**
     * servo_sample, behind the call of the core. A locked servo is stable exactly if a threshold is set and the last
     * samples, as many as configured, were all locked and below it; no other state is changed.
     */
    method Sample(reported: ServoState, offset: int) returns (state: ServoState)
      requires Valid() && reported != LockedStable
      modifies this
      ensures Valid() && reports == old(reports) + [Report(reported, offset)]
      ensures state == LockedStable <==>
                && reported == Locked && offsetThreshold != 0
                && LastSmall(reports, numOffsetValues, offsetThreshold)
      ensures state != LockedStable ==> state == reported
    {
      hide LastSmall;
      state := reported;
      ghost var before, r := reports, Report(reported, offset);
      reports := reports + [r];
      assert forall x :: x in reports <==> x in before || x == r;
      if offsetThreshold != 0 {
        NextReport(before, r, numOffsetValues - currOffsetValues, offsetThreshold);
        NextReport(before, r, numOffsetValues - currOffsetValues + 1, offsetThreshold);
        if numOffsetValues > 0 {
          NextReport(before, r, numOffsetValues - 1, offsetThreshold);
        }
        NextReport(before, r, 0, offsetThreshold);
        NoReports(reports, offsetThreshold);
        ShorterRun(reports, offsetThreshold);
      }
      if reported == Unlocked {
        currOffsetValues := numOffsetValues;
      } else if reported == Jump {
        currOffsetValues := numOffsetValues;
        firstUpdate := false;
      } else {
        var stable := CheckOffsetThreshold(offset);
        if stable {
          state := LockedStable;
        }
        firstUpdate := false;
      }
    }
  }

  /** One more small report makes the run longer by one, any other ends it. */
  lemma NextReport(rs: seq<Report>, r: Report, n: nat, threshold: int)
    ensures LastSmall(rs + [r], n + 1, threshold) <==> Small(r, threshold) && LastSmall(rs, n, threshold)
  {
    var all := rs + [r];
    if LastSmall(all, n + 1, threshold) {
      assert Small(all[|rs|], threshold);
      assert forall k :: |rs| - n <= k < |rs| ==> all[k] == rs[k];
    }
  }

  lemma NoReports(rs: seq<Report>, threshold: int)
    ensures LastSmall(rs, 0, threshold)
  {
  }

  lemma ShorterRun(rs: seq<Report>, threshold: int)
    ensures forall m: nat, n: nat :: m <= n && LastSmall(rs, n, threshold) ==> LastSmall(rs, m, threshold)
  {
  }
}
