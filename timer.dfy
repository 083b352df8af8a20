/**
 * The refresh gate of the render loop: while presenting, each frame adds its
 * `dt` to `elapsedTime` (undefined counts as 0), and once the sum exceeds 0.3 s
 * the gamepad state is refreshed and the timer goes back to 0.
 */
module Timer {
  import opened Wrappers

  /** Seconds of presenting time the gate waits for. */
  const Period: real := 0.3

  /** One frame of the gate: the new `elapsedTime`, and whether the refresh ran. */
  datatype Tick = Tick(elapsed: real, refresh: bool)

  function Advance(elapsed: Option<real>, dt: real): Tick {
    var e := elapsed.GetOr(0.0) + dt;
    if e > Period then Tick(0.0, true) else Tick(e, false)
  }

  /** The timer and the number of refreshes after a run of presenting frames. */
  datatype Outcome = Outcome(elapsed: real, refreshes: nat)

  function Run(e0: real, dts: seq<real>): Outcome
    decreases |dts|
  {
    if dts == [] then Outcome(e0, 0)
    else
      var o := Run(e0, dts[..|dts| - 1]);
      var t := Advance(Some(o.elapsed), dts[|dts| - 1]);
      Outcome(t.elapsed, o.refreshes + if t.refresh then 1 else 0)
  }

  function Sum(dts: seq<real>): real
    decreases |dts|
  {
    if dts == [] then 0.0 else Sum(dts[..|dts| - 1]) + dts[|dts| - 1]
  }

  /**
   * Each refresh uses up more than 0.3 s of frame time: over any run, the
   * refreshes times 0.3 plus what is left on the timer is at most the time that
   * passed, and strictly less once a refresh has happened.
   */
  lemma {:induction false} RunBudget(e0: real, dts: seq<real>)
    ensures Period * (Run(e0, dts).refreshes as real) + Run(e0, dts).elapsed <= e0 + Sum(dts)
    ensures Run(e0, dts).refreshes > 0 ==>
      Period * (Run(e0, dts).refreshes as real) + Run(e0, dts).elapsed < e0 + Sum(dts)
    decreases |dts|
  {
    if dts != [] {
      RunBudget(e0, dts[..|dts| - 1]);
    }
  }

  /** With non-negative frame times the timer stays within `[0, 0.3]`. */
  lemma {:induction false} RunWindow(e0: real, dts: seq<real>)
    requires 0.0 <= e0 <= Period
    requires forall i :: 0 <= i < |dts| ==> dts[i] >= 0.0
    ensures 0.0 <= Run(e0, dts).elapsed <= Period
    decreases |dts|
  {
    if dts != [] {
      RunWindow(e0, dts[..|dts| - 1]);
    }
  }

  /**
   * Without a refresh, the timer holds all the time that passed; so once more
   * than 0.3 s has passed since the timer was last at most 0.3, a refresh has run.
   */
  lemma {:induction false} RunRefreshesWhenDue(e0: real, dts: seq<real>)
    requires e0 <= Period
    ensures Run(e0, dts).refreshes == 0 ==> Run(e0, dts).elapsed == e0 + Sum(dts)
    ensures e0 + Sum(dts) > Period ==> Run(e0, dts).refreshes > 0
    decreases |dts|
  {
    if dts != [] {
      RunRefreshesWhenDue(e0, dts[..|dts| - 1]);
    }
  }
}
