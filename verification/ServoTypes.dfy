/** What the servo cores share (servo.h, servo_private.h). */
module ServoTypes {
  import opened Basics

  datatype ServoState = Unlocked | Jump | Locked | LockedStable

  /** The fields of struct servo that a core reads; a threshold of zero is switched off. */
  datatype Limits = Limits(maxFrequency: real, stepThreshold: real, firstStepThreshold: real, firstUpdate: bool)

  /** A core asks for a jump when the offset is beyond a threshold that is switched on. */
  predicate StepNeeded(c: Limits, offset: real) {
    || (c.firstUpdate && c.firstStepThreshold != 0.0 && c.firstStepThreshold < Abs(offset))
    || (c.stepThreshold != 0.0 && c.stepThreshold < Abs(offset))
  }

  /** Off by more than a threshold, to either side. */
  predicate Beyond(threshold: real, offset: real) {
    threshold != 0.0 && (offset > threshold || offset < -threshold)
  }

  /** The first threshold counts only at the first update, the other one always. */
  lemma StepNeededExactly(c: Limits, offset: real)
    ensures StepNeeded(c, offset) <==>
              Beyond(c.stepThreshold, offset) || (c.firstUpdate && Beyond(c.firstStepThreshold, offset))
  {
  }

  function ClampFrequency(f: real, max: real): (r: real)
    requires max >= 0.0
    ensures -max <= r <= max
    ensures -max <= f <= max ==> r == f
  {
    if f > max then max else if f < -max then -max else f
  }
}
