/** jobs.MultiTasker as a state machine: workers that run a task, hand its result over an unbuffered channel
    and leave the wait group; a closer that waits for the group and closes the channel; and the caller, who
    queues all tasks and then receives until the channel is closed. A step that cannot happen changes
    nothing, so every sequence of steps is a schedule. */
module MultiTasker {
  import opened Basics

  type Error = string

  /** What a task returns: None is nil. */
  type Result = Option<Error>

  datatype Worker =
    | Running
    | Sending(result: Result)
    | Sent(result: Result)
    | Finished(result: Result)

  datatype Closer = NotStarted | InWait | Closing | Ended

  datatype Caller = Queueing(todo: nat) | Receiving | Returned

  datatype State = State(
    workers: seq<Worker>,
    wg: nat,
    closed: bool,
    closer: Closer,
    caller: Caller,
    received: seq<Result>,
    rvErr: Result,
    callbacks: seq<Error>,
    panicked: bool)

  datatype Step =
    | Queue
    | CallWait
    | Return(i: nat, result: Result)
    | Send(i: nat)
    | WgDone(i: nat)
    | GroupEmpty
    | CloseChannel
    | EndOfRange

  function Start(n: nat): State {
    State([], 0, false, NotStarted, Queueing(n), [], None, [], false)
  }

  function Receive(s: State, r: Result): State {
    if r.Some? && s.rvErr.None?
    then s.(received := s.received + [r], rvErr := r, callbacks := s.callbacks + [r.value])
    else s.(received := s.received + [r])
  }

  /** Sending on a closed channel, closing it twice and leaving an empty group panic. */
  function Apply(s: State, step: Step): State {
    match step
    case Queue =>
      if s.caller.Queueing? && s.caller.todo > 0
      then s.(workers := s.workers + [Running], wg := s.wg + 1, caller := Queueing(s.caller.todo - 1))
      else s
    case CallWait =>
      if s.caller == Queueing(0) then s.(caller := Receiving, closer := InWait) else s
    case Return(i, r) =>
      if i < |s.workers| && s.workers[i].Running? then s.(workers := s.workers[i := Sending(r)]) else s
    case Send(i) =>
      if i < |s.workers| && s.workers[i].Sending? then
        if s.closed then s.(panicked := true)
        else if s.caller.Receiving? then
          Receive(s.(workers := s.workers[i := Sent(s.workers[i].result)]), s.workers[i].result)
        else s
      else s
    case WgDone(i) =>
      if i < |s.workers| && s.workers[i].Sent? then
        if s.wg == 0 then s.(panicked := true)
        else s.(workers := s.workers[i := Finished(s.workers[i].result)], wg := s.wg - 1)
      else s
    case GroupEmpty => if s.closer.InWait? && s.wg == 0 then s.(closer := Closing) else s
    case CloseChannel =>
      if s.closer.Closing? then
        if s.closed then s.(panicked := true) else s.(closer := Ended, closed := true)
      else s
    case EndOfRange => if s.caller.Receiving? && s.closed then s.(caller := Returned) else s
  }

  function Run(s: State, steps: seq<Step>): State
    decreases |steps|
  {
    if steps == [] then s else Run(Apply(s, steps[0]), steps[1..])
  }

  // Counting over the workers.

  function Unfinished(ws: seq<Worker>): nat {
    if ws == [] then 0 else (if ws[0].Finished? then 0 else 1) + Unfinished(ws[1..])
  }

  function Rank(w: Worker): nat {
    match w
    case Running => 3
    case Sending(_) => 2
    case Sent(_) => 1
    case Finished(_) => 0
  }

  function Ranks(ws: seq<Worker>): nat {
    if ws == [] then 0 else Rank(ws[0]) + Ranks(ws[1..])
  }

  /** How many workers have handed over the result r. */
  function Delivered(ws: seq<Worker>, r: Result): nat {
    if ws == [] then 0 else DeliveredBy(ws[0], r) + Delivered(ws[1..], r)
  }

  function DeliveredBy(w: Worker, r: Result): nat {
    if (w.Sent? || w.Finished?) && w.result == r then 1 else 0
  }

  lemma {:induction false} UpdateUnfinished(ws: seq<Worker>, i: nat, w: Worker)
    requires i < |ws|
    ensures Unfinished(ws[i := w]) + (if ws[i].Finished? then 0 else 1) == Unfinished(ws) + (if w.Finished? then 0 else 1)
  {
    if i == 0 {
      assert ws[i := w][1..] == ws[1..];
    } else {
      assert ws[i := w][1..] == ws[1..][i - 1 := w];
      UpdateUnfinished(ws[1..], i - 1, w);
    }
  }

  lemma {:induction false} UpdateDelivered(ws: seq<Worker>, i: nat, w: Worker, r: Result)
    requires i < |ws|
    ensures Delivered(ws[i := w], r) + DeliveredBy(ws[i], r) == Delivered(ws, r) + DeliveredBy(w, r)
  {
    if i == 0 {
      assert ws[i := w][1..] == ws[1..];
    } else {
      assert ws[i := w][1..] == ws[1..][i - 1 := w];
      UpdateDelivered(ws[1..], i - 1, w, r);
    }
  }

  lemma {:induction false} UpdateRank(ws: seq<Worker>, i: nat, w: Worker)
    requires i < |ws|
    ensures Ranks(ws[i := w]) + Rank(ws[i]) == Ranks(ws) + Rank(w)
  {
    if i == 0 {
      assert ws[i := w][1..] == ws[1..];
    } else {
      assert ws[i := w][1..] == ws[1..][i - 1 := w];
      UpdateRank(ws[1..], i - 1, w);
    }
  }

  lemma {:induction false} AppendWorker(ws: seq<Worker>)
    ensures Unfinished(ws + [Running]) == Unfinished(ws) + 1
    ensures Ranks(ws + [Running]) == Ranks(ws) + 3
  {
    if ws == [] {
      assert ([] + [Running])[1..] == [];
    } else {
      assert (ws + [Running])[1..] == ws[1..] + [Running];
      AppendWorker(ws[1..]);
    }
  }

  lemma {:induction false} AppendDelivered(ws: seq<Worker>, r: Result)
    ensures Delivered(ws + [Running], r) == Delivered(ws, r)
  {
    if ws == [] {
      assert ([] + [Running])[1..] == [];
    } else {
      assert (ws + [Running])[1..] == ws[1..] + [Running];
      AppendDelivered(ws[1..], r);
    }
  }

  lemma {:induction false} NoneUnfinished(ws: seq<Worker>)
    ensures Unfinished(ws) == 0 <==> forall i :: 0 <= i < |ws| ==> ws[i].Finished?
  {
    if ws != [] {
      NoneUnfinished(ws[1..]);
      assert forall i :: 1 <= i < |ws| ==> ws[i] == ws[1..][i - 1];
    }
  }

  lemma {:induction false} AllDelivered(ws: seq<Worker>, r: Result)
    requires forall i :: 0 <= i < |ws| ==> ws[i].Finished?
    ensures Delivered(ws, r) == multiset(Results(ws))[r]
  {
    if ws != [] {
      AllDelivered(ws[1..], r);
      assert Results(ws) == [ws[0].result] + Results(ws[1..]);
    }
  }

  /** What each task returned; nil for one that is still running. */
  function Results(ws: seq<Worker>): seq<Result> {
    seq(|ws|, i requires 0 <= i < |ws| => if ws[i].Running? then None else ws[i].result)
  }

  function FirstError(rs: seq<Result>): Result {
    if rs == [] then None else if rs[0].Some? then rs[0] else FirstError(rs[1..])
  }

  lemma {:induction false} FirstErrorAppend(rs: seq<Result>, r: Result)
    ensures FirstError(rs + [r]) == if FirstError(rs).Some? then FirstError(rs) else r
  {
    if rs == [] {
      assert ([] + [r])[1..] == [];
    } else {
      assert (rs + [r])[1..] == rs[1..] + [r];
      FirstErrorAppend(rs[1..], r);
    }
  }

  lemma {:induction false} FirstErrorNone(rs: seq<Result>)
    ensures FirstError(rs).None? <==> forall i :: 0 <= i < |rs| ==> rs[i] == None
  {
    if rs != [] {
      FirstErrorNone(rs[1..]);
      assert forall i :: 1 <= i < |rs| ==> rs[i] == rs[1..][i - 1];
    }
  }

  lemma {:induction false} FirstErrorAt(rs: seq<Result>)
    ensures FirstError(rs).Some? ==>
      exists i :: 0 <= i < |rs| && rs[i] == FirstError(rs) && forall j :: 0 <= j < i ==> rs[j] == None
  {
    if FirstError(rs).Some? && rs[0] == None {
      FirstErrorAt(rs[1..]);
      var i :| 0 <= i < |rs[1..]| && rs[1..][i] == FirstError(rs[1..]) && forall j :: 0 <= j < i ==> rs[1..][j] == None;
      assert rs[i + 1] == FirstError(rs);
      assert forall j :: 1 <= j < i + 1 ==> rs[j] == rs[1..][j - 1];
    }
  }

  // Safety.

  ghost predicate Sync(s: State, n: nat) {
    && !s.panicked
    && s.wg == Unfinished(s.workers)
    && |s.workers| + (if s.caller.Queueing? then s.caller.todo else 0) == n
    && (s.caller.Queueing? <==> s.closer.NotStarted?)
    && (s.closer.Closing? || s.closer.Ended? ==> s.wg == 0)
    && (s.closed <==> s.closer.Ended?)
    && (s.caller.Returned? ==> s.closed)
  }

  ghost predicate Received(s: State, r: Result) {
    multiset(s.received)[r] == Delivered(s.workers, r)
  }

  ghost predicate Reported(s: State) {
    && s.rvErr == FirstError(s.received)
    && s.callbacks == if s.rvErr.Some? then [s.rvErr.value] else []
  }

  lemma ApplySync(s: State, n: nat, step: Step)
    requires Sync(s, n)
    ensures Sync(Apply(s, step), n)
  {
    NoneUnfinished(s.workers);
    match step
    case Queue => AppendWorker(s.workers);
    case Return(i, r) =>
      if i < |s.workers| {
        UpdateUnfinished(s.workers, i, Sending(r));
      }
    case Send(i) =>
      if i < |s.workers| && s.workers[i].Sending? {
        UpdateUnfinished(s.workers, i, Sent(s.workers[i].result));
      }
    case WgDone(i) =>
      if i < |s.workers| && s.workers[i].Sent? {
        UpdateUnfinished(s.workers, i, Finished(s.workers[i].result));
      }
    case _ =>
  }

  lemma MoveReceived(s: State, step: Step, r: Result)
    requires Received(s, r) && (step.Return? || step.WgDone?)
    ensures Received(Apply(s, step), r)
  {
    if step.i < |s.workers| {
      UpdateDelivered(s.workers, step.i, Apply(s, step).workers[step.i], r);
      assert s.workers[step.i := s.workers[step.i]] == s.workers;
    }
  }

  lemma SendReceived(s: State, i: nat, r: Result)
    requires Received(s, r)
    ensures Received(Apply(s, Send(i)), r)
  {
    if i < |s.workers| && s.workers[i].Sending? {
      UpdateDelivered(s.workers, i, Sent(s.workers[i].result), r);
    }
  }

  lemma OtherReceived(s: State, step: Step, r: Result)
    requires Received(s, r) && !step.Return? && !step.WgDone? && !step.Send?
    ensures Received(Apply(s, step), r)
  {
    AppendDelivered(s.workers, r);
  }

  lemma ApplyReceived(s: State, step: Step, r: Result)
    requires Received(s, r)
    ensures Received(Apply(s, step), r)
  {
    if step.Return? || step.WgDone? {
      MoveReceived(s, step, r);
    } else if step.Send? {
      SendReceived(s, step.i, r);
    } else {
      OtherReceived(s, step, r);
    }
  }

  lemma ApplyReported(s: State, step: Step)
    requires Reported(s)
    ensures Reported(Apply(s, step))
  {
    if step.Send? && step.i < |s.workers| && s.workers[step.i].Sending? {
      FirstErrorAppend(s.received, s.workers[step.i].result);
    }
  }

  lemma {:induction false} RunSync(s: State, n: nat, steps: seq<Step>)
    requires Sync(s, n)
    ensures Sync(Run(s, steps), n)
    decreases |steps|
  {
    if steps != [] {
      ApplySync(s, n, steps[0]);
      RunSync(Apply(s, steps[0]), n, steps[1..]);
    }
  }

  lemma {:induction false} RunReceived(s: State, steps: seq<Step>, r: Result)
    requires Received(s, r)
    ensures Received(Run(s, steps), r)
    decreases |steps|
  {
    if steps != [] {
      ApplyReceived(s, steps[0], r);
      RunReceived(Apply(s, steps[0]), steps[1..], r);
    }
  }

  lemma {:induction false} RunReported(s: State, steps: seq<Step>)
    requires Reported(s)
    ensures Reported(Run(s, steps))
    decreases |steps|
  {
    if steps != [] {
      ApplyReported(s, steps[0]);
      RunReported(Apply(s, steps[0]), steps[1..]);
    }
  }

  /** In every schedule nothing panics (so nobody sends on a closed channel), and when Wait has returned,
      every task has finished, the results received are those of the tasks, and Wait returned nil exactly
      when all of them were nil, otherwise the first error received, on which the callback ran once. */
  lemma WaitConserves(n: nat, steps: seq<Step>)
    ensures
      var t := Run(Start(n), steps);
      && !t.panicked
      && (t.caller.Returned? ==>
          && |t.workers| == n && (forall i :: 0 <= i < n ==> t.workers[i].Finished?)
          && multiset(t.received) == multiset(Results(t.workers))
          && |Results(t.workers)| == n && (forall i :: 0 <= i < n ==> Results(t.workers)[i] == t.workers[i].result)
          && t.rvErr == FirstError(t.received)
          && (t.rvErr.Some? ==> exists i :: 0 <= i < |t.received| && t.received[i] == t.rvErr
                                          && forall j :: 0 <= j < i ==> t.received[j] == None)
          && (t.rvErr == None <==> forall i :: 0 <= i < n ==> t.workers[i].result == None)
          && t.callbacks == if t.rvErr.Some? then [t.rvErr.value] else [])
  {
    RunSync(Start(n), n, steps);
    RunReported(Start(n), steps);
    var t := Run(Start(n), steps);
    if t.caller.Returned? {
      NoneUnfinished(t.workers);
      forall r
        ensures multiset(t.received)[r] == multiset(Results(t.workers))[r]
      {
        RunReceived(Start(n), steps, r);
        AllDelivered(t.workers, r);
      }
      AllNil(t.workers, t.received);
      FirstErrorAt(t.received);
    }
  }

  lemma AllNil(ws: seq<Worker>, received: seq<Result>)
    requires forall i :: 0 <= i < |ws| ==> ws[i].Finished?
    requires multiset(received) == multiset(Results(ws))
    ensures FirstError(received) == None <==> forall i :: 0 <= i < |ws| ==> ws[i].result == None
  {
    var rs := Results(ws);
    FirstErrorNone(received);
    forall i | 0 <= i < |ws|
      ensures rs[i] == ws[i].result && ws[i].result in received
    {
      assert rs[i] in multiset(rs);
    }
    forall i | 0 <= i < |received|
      ensures received[i] in rs
    {
      assert received[i] in multiset(received);
    }
  }

  // Liveness.

  function Measure(s: State): nat {
    Ranks(s.workers)
    + (match s.caller case Queueing(todo) => 4 * todo + 2 case Receiving => 1 case Returned => 0)
    + (match s.closer case NotStarted => 3 case InWait => 2 case Closing => 1 case Ended => 0)
  }

  lemma ApplyDecreases(s: State, n: nat, step: Step)
    requires Sync(s, n) && Apply(s, step) != s
    ensures Measure(Apply(s, step)) < Measure(s)
  {
    match step
    case Queue => AppendWorker(s.workers);
    case Return(i, r) => UpdateRank(s.workers, i, Sending(r));
    case Send(i) =>
      NoneUnfinished(s.workers);
      UpdateRank(s.workers, i, Sent(s.workers[i].result));
    case WgDone(i) =>
      NoneUnfinished(s.workers);
      UpdateRank(s.workers, i, Finished(s.workers[i].result));
    case _ =>
  }

  /** No deadlock: while Wait has not returned, something can happen, given that a running task can return. */
  lemma Enabled(s: State, n: nat) returns (step: Step)
    requires Sync(s, n) && !s.caller.Returned?
    ensures Apply(s, step) != s
  {
    NoneUnfinished(s.workers);
    if s.caller.Queueing? {
      step := if s.caller.todo > 0 then Queue else CallWait;
    } else if i: nat :| i < |s.workers| && !s.workers[i].Finished? {
      match s.workers[i]
      case Running => step := Return(i, None);
      case Sending(r) =>
        step := Send(i);
        assert Apply(s, step).workers[i] == Sent(r);
      case Sent(r) =>
        step := WgDone(i);
        assert Apply(s, step).workers[i] == Finished(r);
    } else {
      step := match s.closer case InWait => GroupEmpty case Closing => CloseChannel case _ => EndOfRange;
    }
  }

  ghost predicate Effective(s: State, steps: seq<Step>)
    decreases |steps|
  {
    steps == [] || (Apply(s, steps[0]) != s && Effective(Apply(s, steps[0]), steps[1..]))
  }

  lemma {:induction false} EffectiveBounded(s: State, n: nat, steps: seq<Step>)
    requires Sync(s, n) && Effective(s, steps)
    ensures |steps| + Measure(Run(s, steps)) <= Measure(s)
    decreases |steps|
  {
    if steps != [] {
      ApplySync(s, n, steps[0]);
      ApplyDecreases(s, n, steps[0]);
      EffectiveBounded(Apply(s, steps[0]), n, steps[1..]);
    }
  }

  /** Every schedule of n tasks, zero included, makes at most 4n + 5 effective steps, and one that cannot be
      extended has returned from Wait. */
  lemma WaitTerminates(n: nat, steps: seq<Step>)
    requires Effective(Start(n), steps)
    ensures |steps| <= 4 * n + 5
    ensures var t := Run(Start(n), steps); (forall step :: Apply(t, step) == t) ==> t.caller.Returned?
  {
    EffectiveBounded(Start(n), n, steps);
    RunSync(Start(n), n, steps);
    var t := Run(Start(n), steps);
    if !t.caller.Returned? {
      var step := Enabled(t, n);
    }
  }
}
