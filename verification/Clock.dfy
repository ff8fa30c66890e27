/** Clocks read again and again. */
module Clock {

  /** The i-th reading of the clock, in ticks. */
  function Tick(clock: nat -> nat, i: nat): nat {
    clock(i)
  }

  /** The clock does not run back. */
  ghost predicate Running(clock: nat -> nat) {
    forall i, j :: i <= j ==> Tick(clock, i) <= Tick(clock, j)
  }
}
