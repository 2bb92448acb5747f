/** The evaluation deadline: a handler on an image's "eval" progress signal
    that kills the computation, once, when it has run for longer than its
    budget. */
module Deadline {
  import opened Wrappers

  /** What a progress notification reports: seconds since evaluation began
      and the percentage done. */
  datatype Progress = Progress(run: int, percent: int)

  /** The error recorded on a trip: the budget, the seconds elapsed and the
      percentage done (the message wording is left out). */
  datatype TimeoutError = TimeoutError(timeout: int, run: int, percent: int)

  /** What a governor can be observed to hold: the budget cell (zero once
      tripped), the image's kill flag and the errors recorded. */
  datatype State = State(timeout: int, killed: bool, errors: seq<TimeoutError>)

  /** One eval notification as the handler treats it: a positive budget that
      has run out kills the image, records one error and zeroes the budget. */
  function Eval(s: State, p: Progress): (r: State)
    // errors are only ever added, at most one per notification, and one is
    // added exactly when a positive budget has run out
    ensures s.errors <= r.errors && |r.errors| <= |s.errors| + 1
    ensures |r.errors| == |s.errors| + 1 <==> s.timeout > 0 && p.run >= s.timeout
    // a killed image stays killed, and a trip zeroes the budget
    ensures s.killed ==> r.killed
    ensures r != s ==> r.killed && r.timeout == 0
    // a budget that is not positive disarms the handler
    ensures s.timeout <= 0 ==> r == s
  {
    if s.timeout > 0 && p.run >= s.timeout then
      State(0, true, s.errors + [TimeoutError(s.timeout, p.run, p.percent)])
    else s
  }

  /** A sequence of notifications, delivered one after another. */
  function EvalAll(s: State, ps: seq<Progress>): State
    decreases |ps|
  {
    if |ps| == 0 then s else EvalAll(Eval(s, ps[0]), ps[1..])
  }

  /** The first notification that reports at least `timeout` seconds. */
  function FirstOverdue(ps: seq<Progress>, timeout: int): (k: Option<nat>)
    ensures k.Some? ==> k.value < |ps| && ps[k.value].run >= timeout
    ensures k.Some? ==> forall j :: 0 <= j < k.value ==> ps[j].run < timeout
    ensures k.None? ==> forall j :: 0 <= j < |ps| ==> ps[j].run < timeout
  {
    if |ps| == 0 then None
    else if ps[0].run >= timeout then Some(0)
    else
      match FirstOverdue(ps[1..], timeout)
      case None => None
      case Some(j) => Some(j + 1)
  }

  /** Once the budget is zero, no notification changes anything. */
  lemma {:induction false} TrippedIsFinal(s: State, ps: seq<Progress>)
    requires s.timeout <= 0
    ensures EvalAll(s, ps) == s
    decreases |ps|
  {
    if |ps| > 0 {
      TrippedIsFinal(s, ps[1..]);
    }
  }

  /** From a fresh budget, the governor trips exactly at the first
      notification that reports the budget used up, records that one error
      and nothing after; without such a notification nothing changes. */
  lemma {:induction false} EvalAllTripsOnce(timeout: int, ps: seq<Progress>)
    requires timeout > 0
    ensures var s := EvalAll(State(timeout, false, []), ps);
      match FirstOverdue(ps, timeout)
      case None => s == State(timeout, false, [])
      case Some(k) => s == State(0, true, [TimeoutError(timeout, ps[k].run, ps[k].percent)])
    decreases |ps|
  {
    if |ps| > 0 {
      if ps[0].run >= timeout {
        var tripped := State(0, true, [TimeoutError(timeout, ps[0].run, ps[0].percent)]);
        assert Eval(State(timeout, false, []), ps[0]) == tripped;
        TrippedIsFinal(tripped, ps[1..]);
        assert FirstOverdue(ps, timeout) == Some(0);
      } else {
        EvalAllTripsOnce(timeout, ps[1..]);
        match FirstOverdue(ps[1..], timeout)
        case None =>
        case Some(j) => assert ps[1..][j] == ps[j + 1];
      }
    }
  }

  /** A budget of two seconds: no trip at one second, one trip at two
      seconds, and a third notification changes nothing. */
  lemma EvalAllExample()
    ensures EvalAll(State(2, false, []), [Progress(1, 40), Progress(2, 80), Progress(3, 90)])
      == State(0, true, [TimeoutError(2, 2, 80)])
  {
    var ps := [Progress(1, 40), Progress(2, 80), Progress(3, 90)];
    EvalAllTripsOnce(2, ps);
    assert FirstOverdue(ps, 2) == Some(1);
  }

  /** The governor registered for one image by setup_timeout_handler, with the
      parts of the image it touches. */
  class Governor {
    var timeout: int            // the private budget cell, zeroed on a trip
    var registered: bool        // an "eval" handler is connected
    var progressEnabled: bool   // progress reporting is switched on for the image
    var killed: bool            // the image's kill flag
    var errors: seq<TimeoutError>

    function Observed(): State
      reads this
    {
      State(timeout, killed, errors)
    }

    /** At most one trip ever: killed exactly when one error was recorded,
        and a tripped governor has a zero budget. */
    ghost predicate Valid()
      reads this
    {
      && registered == progressEnabled
      && timeout >= 0
      && (!registered ==> timeout == 0 && !killed)
      && |errors| <= 1
      && (killed <==> |errors| == 1)
      && (killed ==> timeout == 0)
    }

    /** setup_timeout_handler: only a positive time limit registers a handler
        and switches progress reporting on. */
    constructor Setup(processTimeout: int)
      ensures Valid()
      ensures registered == (processTimeout > 0) && progressEnabled == registered
      ensures timeout == (if processTimeout > 0 then processTimeout else 0)
      ensures !killed && errors == []
    {
      registered := false;
      progressEnabled := false;
      timeout := 0;
      killed := false;
      errors := [];
      if processTimeout > 0 {
        timeout := processTimeout;
        registered := true;
        progressEnabled := true;
      }
    }

    /** The backend delivers one eval notification; image_eval_cb runs when a
        handler is registered. */
    method Tick(p: Progress)
      requires Valid()
      modifies this
      ensures Valid()
      ensures Observed() == Eval(old(Observed()), p)
      ensures registered == old(registered) && progressEnabled == old(progressEnabled)
      ensures old(timeout) > 0 && p.run >= old(timeout) ==> killed && |errors| == 1 && timeout == 0
      ensures !(old(timeout) > 0 && p.run >= old(timeout)) ==> Observed() == old(Observed())
    {
      if registered {
        if timeout > 0 && p.run >= timeout {
          killed := true;
          errors := errors + [TimeoutError(timeout, p.run, p.percent)];
          timeout := 0;
        }
      }
    }
  }

  /** The two-second example driven through the class. */
  method GovernorExample() {
    var g := new Governor.Setup(2);
    g.Tick(Progress(1, 40));
    assert !g.killed;
    g.Tick(Progress(2, 80));
    assert g.killed && g.errors == [TimeoutError(2, 2, 80)];
    g.Tick(Progress(3, 90));
    assert g.errors == [TimeoutError(2, 2, 80)] && g.timeout == 0;
    var off := new Governor.Setup(0);
    assert !off.registered && !off.progressEnabled;
    off.Tick(Progress(100, 100));
    assert !off.killed;
  }
}
