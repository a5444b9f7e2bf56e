/**
  A router whose run loop has returned: the worker answers its responders, the
  drainer answers what is queued, the request channel is closed, and late callers
  are turned away. Everyone gets one result unless the drainer meets a request
  that has no response channel.
*/
module RouterShutdown {
  import opened Wire
  import opened Router
  import opened RouterRuns

  /** The run loop has returned. */
  predicate Past(worker: Worker) {
    worker.Failing? || worker.Answering? || Stopping(worker)
  }

  /** What callers, worker and drainer do on their own during a shutdown. */
  predicate ShutdownStep(step: Step) {
    step.Lock? || step.Check? || step.Send? || StopStep(step)
  }

  function Weight(phase: Phase): nat {
    match phase
    case Entering => 6
    case Locked => 5
    case Checked => 4
    case Done => 0
  }

  function CallsWeight(calls: seq<Call>): nat {
    if calls == [] then 0 else CallsWeight(calls[..|calls| - 1]) + Weight(calls[|calls| - 1].phase)
  }

  function WorkerWeight(worker: Worker, responders: map<nat, nat>): nat {
    match worker
    case Failing => |responders.Keys| + 6
    case Answering(todo) => |todo| + 5
    case Locking => 4
    case Closing => 3
    case HandleClosed => 2
    case _ => 1
  }

  function DrainerWeight(drainer: Drainer): nat {
    match drainer
    case Holding(_) => 2
    case Receiving => 1
    case NotStarted => 1
    case _ => 0
  }

  /** What is left to do once the run loop has returned. */
  function Work(s: State): nat {
    CallsWeight(s.calls) + 3 * |s.requestChan| + WorkerWeight(s.worker, s.responders) + DrainerWeight(s.drainer)
  }

  lemma {:induction false} CallsWeightUpdate(calls: seq<Call>, c: nat, call: Call)
    requires c < |calls|
    ensures CallsWeight(calls[c := call]) == CallsWeight(calls) - Weight(calls[c].phase) + Weight(call.phase)
    decreases |calls|
  {
    var l := |calls| - 1;
    if c < l {
      CallsWeightUpdate(calls[..l], c, call);
      assert calls[c := call][..l] == calls[..l][c := call];
    } else {
      assert calls[c := call][..l] == calls[..l];
    }
  }

  lemma DeliverWeight(calls: seq<Call>, c: nat, result: Result)
    requires c < |calls|
    ensures CallsWeight(Deliver(calls, c, result)) == CallsWeight(calls)
  {
    CallsWeightUpdate(calls, c, calls[c].(results := calls[c].results + [result]));
  }

  lemma CallerWork(s: State, step: Step)
    requires (step.Lock? || step.Check? || step.Send?) && !s.closed && CallerNext(s, step).Some?
    ensures Work(CallerNext(s, step).value) < Work(s)
  {
    hide WorkerWeight, DrainerWeight;
    var c, t := step.call, CallerNext(s, step).value;
    assert t.calls == s.calls[c := t.calls[c]];
    CallsWeightUpdate(s.calls, c, t.calls[c]);
  }

  lemma LateCallerWork(s: State, step: Step)
    requires Exclusive(s) && s.closed
    requires (step.Lock? || step.Check? || step.Send?) && CallerNext(s, step).Some?
    ensures Work(CallerNext(s, step).value) < Work(s)
  {
    hide WorkerWeight, DrainerWeight;
    var c, t := step.call, CallerNext(s, step).value;
    assert t.calls == s.calls[c := t.calls[c]];
    CallsWeightUpdate(s.calls, c, t.calls[c]);
  }

  lemma StopWork(s: State, step: Step)
    requires Known(s) && StopStep(step) && StopNext(s, step).Some?
    ensures Work(StopNext(s, step).value) < Work(s)
  {
    hide Known, StopNext, Work;
    if step.AnswerResponder? {
      AnswerWork(s, step);
    } else if step.DrainAnswer? {
      DrainWork(s, step);
    } else {
      OtherStopWork(s, step);
    }
  }

  lemma AnswerWork(s: State, step: Step)
    requires step.AnswerResponder? && StopNext(s, step).Some?
    ensures Work(StopNext(s, step).value) < Work(s)
  {
    hide Deliver, CallsWeight;
    DeliverWeight(s.calls, s.responders[step.id], Failed);
    assert |s.worker.todo - {step.id}| == |s.worker.todo| - 1;
  }

  lemma DrainWork(s: State, step: Step)
    requires step.DrainAnswer? && StopNext(s, step).Some?
    ensures Work(StopNext(s, step).value) < Work(s)
  {
    hide Deliver, CallsWeight;
    if s.calls[s.drainer.call].expecting {
      DeliverWeight(s.calls, s.drainer.call, Failed);
    }
  }

  lemma OtherStopWork(s: State, step: Step)
    requires Known(s) && StopStep(step) && !step.AnswerResponder? && !step.DrainAnswer? && StopNext(s, step).Some?
    ensures Work(StopNext(s, step).value) < Work(s)
  {
    hide Deliver, CallsWeight, Known;
    if step.StartDrain? {
      StartsOnce(s);
    }
  }

  lemma StartsOnce(s: State)
    requires Known(s) && s.worker.Answering?
    ensures s.drainer.NotStarted?
  {
  }

  lemma WorkDecreases(s: State, step: Step)
    requires Inv(s) && ShutdownStep(step) && Next(s, step).Some?
    ensures Work(Next(s, step).value) < Work(s)
  {
    hide Work, CallerNext, StopNext, Conserved, Known, Exclusive, OneWait, Routed;
    if StopStep(step) {
      StopWork(s, step);
    } else if s.closed {
      LateCallerWork(s, step);
    } else {
      CallerWork(s, step);
    }
  }

  lemma {:induction false} WorkBounds(steps: seq<Step>, more: seq<Step>)
    requires Run(steps + more).Some? && forall step | step in more :: ShutdownStep(step)
    ensures Run(steps).Some?
    ensures Work(Run(steps + more).value) + |more| <= Work(Run(steps).value)
    decreases |more|
  {
    hide Next, Work, ShutdownStep;
    if more == [] {
      assert steps + more == steps;
    } else {
      var l := |more| - 1;
      assert (steps + more)[..|steps + more| - 1] == steps + more[..l];
      WorkBounds(steps, more[..l]);
      RunInv(steps + more[..l]);
      assert more[l] in more;
      WorkDecreases(Run(steps + more[..l]).value, more[l]);
    }
  }

  /** Everyone is done: the worker and the drainer have ended and no call is in
      progress. */
  ghost predicate AllDone(s: State) {
    s.worker.Ended? && s.drainer.Finished? && forall c | 0 <= c < |s.calls| :: s.calls[c].phase.Done?
  }

  lemma WorkerMoves(steps: seq<Step>, s: State) returns (step: Step)
    requires Run(steps) == Some(s) && (s.worker.Failing? || s.worker.Answering? || s.worker.Closing? || s.worker.HandleClosed?)
    ensures ShutdownStep(step) && Next(s, step).Some?
  {
    hide Run;
    ResponsesNeverBlock(steps);
    NoSendAfterClose(steps);
    if s.worker.Answering? && s.worker.todo != {} {
      var id :| id in s.worker.todo;
      step := AnswerResponder(id);
    } else {
      step := match s.worker
        case Failing => Cancel
        case Answering(_) => StartDrain
        case Closing => CloseHandle
        case _ => CloseRequests;
    }
  }

  lemma DrainerMoves(steps: seq<Step>, s: State) returns (step: Step)
    requires Run(steps) == Some(s)
    requires s.drainer.Holding? || (s.drainer.Receiving? && (s.requestChan != [] || s.closed))
    ensures ShutdownStep(step) && Next(s, step).Some?
  {
    hide Run;
    ResponsesNeverBlock(steps);
    NoSendAfterClose(steps);
    step := if s.drainer.Holding? then DrainAnswer else if s.requestChan != [] then DrainTake else DrainEnd;
  }

  lemma HolderMoves(steps: seq<Step>, s: State) returns (step: Step)
    requires Run(steps) == Some(s) && s.mutex.HeldByCaller? && Stopping(s.worker) && !s.drainer.Lost?
    ensures ShutdownStep(step) && Next(s, step).Some?
  {
    hide Run;
    RunInv(steps);
    var c := s.mutex.call;
    assert HasMutex(s, c);
    if s.calls[c].phase.Locked? {
      step := Check(c);
    } else if |s.requestChan| < Router.CAPACITY {
      step := Send(c);
    } else {
      DrainerBusy(s);
      step := DrainerMoves(steps, s);
    }
  }

  lemma DrainerBusy(s: State)
    requires Known(s) && Exclusive(s) && Stopping(s.worker) && !s.drainer.Lost? && s.requestChan != []
    ensures s.drainer.Holding? || s.drainer.Receiving?
  {
  }

  /** No deadlock in a shutdown: as long as not everyone is done and the drainer
      was not lost, someone can take a step. */
  lemma ShutdownProgress(steps: seq<Step>) returns (step: Step)
    requires Run(steps).Some? && Past(Run(steps).value.worker)
    requires !Run(steps).value.drainer.Lost? && !AllDone(Run(steps).value)
    ensures ShutdownStep(step) && Next(Run(steps).value, step).Some?
  {
    hide Run;
    RunInv(steps);
    var s := Run(steps).value;
    if !s.worker.Locking? && !s.worker.Ended? {
      step := WorkerMoves(steps, s);
    } else if s.mutex.HeldByCaller? {
      step := HolderMoves(steps, s);
    } else if s.worker.Locking? {
      step := LockToClose;
    } else if !s.drainer.Finished? {
      step := DrainerMoves(steps, s);
    } else {
      var c :| 0 <= c < |s.calls| && !s.calls[c].phase.Done?;
      assert !HasMutex(s, c);
      step := Lock(c);
    }
  }

  lemma DoneIsAnswered(s: State, c: nat)
    requires Inv(s) && AllDone(s) && c < |s.calls| && s.calls[c].expecting
    ensures |s.calls[c].results| == 1
  {
    assert Places(s, c) == 1;
  }

  lemma PastStep(s: State, step: Step)
    requires Past(s.worker) && Next(s, step).Some?
    ensures Past(Next(s, step).value.worker)
    ensures !StopStep(step) ==> Next(s, step).value.worker == s.worker && Next(s, step).value.drainer == s.drainer
    ensures !StopStep(step) ==> s.requestChan <= Next(s, step).value.requestChan
  {
  }

  lemma {:induction false} PastStaysPast(steps: seq<Step>, more: seq<Step>)
    requires Run(steps + more).Some? && Run(steps).Some? && Past(Run(steps).value.worker)
    ensures Past(Run(steps + more).value.worker)
    decreases |more|
  {
    hide Next, Past;
    if more == [] {
      assert steps + more == steps;
    } else {
      assert (steps + more)[..|steps + more| - 1] == steps + more[..|more| - 1];
      PastStaysPast(steps, more[..|more| - 1]);
      PastStep(Run(steps + more[..|more| - 1]).value, more[|more| - 1]);
    }
  }

  /** Once the run loop has returned, the shutdown takes a bounded number of
      steps, and when it can go no further, and the drainer was not lost, every
      call is back and every response channel got exactly one result. */
  lemma ShutdownAnswersEveryone(steps: seq<Step>, more: seq<Step>)
    requires Run(steps).Some? && Past(Run(steps).value.worker)
    requires Run(steps + more).Some? && forall step | step in more :: ShutdownStep(step)
    ensures |more| <= Work(Run(steps).value)
    ensures var s := Run(steps + more).value;
      !s.drainer.Lost? && (forall step | ShutdownStep(step) :: Next(s, step).None?) ==>
        AllDone(s) && forall c | 0 <= c < |s.calls| && s.calls[c].expecting :: |s.calls[c].results| == 1
  {
    hide Run, Next, Work, AllDone, Inv, ShutdownStep, Past;
    WorkBounds(steps, more);
    PastStaysPast(steps, more);
    RunInv(steps + more);
    var s := Run(steps + more).value;
    if !s.drainer.Lost? && forall step | ShutdownStep(step) :: Next(s, step).None? {
      if !AllDone(s) {
        var step := ShutdownProgress(steps + more);
        assert false;
      }
      forall c | 0 <= c < |s.calls| && s.calls[c].expecting ensures |s.calls[c].results| == 1 {
        DoneIsAnswered(s, c);
      }
    }
  }

  // ---- The drainer and requests without response ----

  lemma NeverLostStep(s: State, step: Step)
    requires Next(s, step).Some? && !s.drainer.Lost?
    requires Known(s) && forall c | 0 <= c < |s.calls| :: s.calls[c].expecting
    ensures !Next(s, step).value.drainer.Lost?
  {
  }

  lemma ExpectingStep(s: State, step: Step)
    requires Known(s) && Next(s, step).Some? && (step.NewCall? ==> step.expecting)
    requires forall c | 0 <= c < |s.calls| :: s.calls[c].expecting
    ensures forall c | 0 <= c < |Next(s, step).value.calls| :: Next(s, step).value.calls[c].expecting
  {
    var t := Next(s, step).value;
    if step.NewCall? {
      assert forall c | 0 <= c < |s.calls| :: t.calls[c] == s.calls[c];
    } else if StopStep(step) {
      StopKnown(s, step);
    } else if ReadStep(step) {
      ReadKnown(s, step);
    }
  }

  /** If every request expects a response, the drainer is never lost. */
  lemma {:induction false} NeverLost(steps: seq<Step>)
    requires Run(steps).Some? && forall step | step in steps && step.NewCall? :: step.expecting
    ensures !Run(steps).value.drainer.Lost?
    ensures forall c | 0 <= c < |Run(steps).value.calls| :: Run(steps).value.calls[c].expecting
    decreases |steps|
  {
    hide Next, Known;
    if steps != [] {
      var front := steps[..|steps| - 1];
      NeverLost(front);
      RunInv(front);
      NeverLostStep(Run(front).value, steps[|steps| - 1]);
      ExpectingStep(Run(front).value, steps[|steps| - 1]);
    }
  }

  lemma LostStep(s: State, step: Step)
    requires Known(s) && s.drainer.Lost? && Next(s, step).Some?
    ensures Next(s, step).value.drainer.Lost? && s.requestChan <= Next(s, step).value.requestChan
  {
    hide Known;
    LostIsPast(s);
    PastStep(s, step);
  }

  lemma LostIsPast(s: State)
    requires Known(s) && s.drainer.Lost?
    ensures Stopping(s.worker)
  {
  }

  /** Once the drainer is lost, whatever is queued stays queued: those callers
      never get a result, however the run goes on. */
  lemma {:induction false} LostForever(steps: seq<Step>, more: seq<Step>)
    requires Run(steps).Some? && Run(steps).value.drainer.Lost? && Run(steps + more).Some?
    ensures Run(steps + more).value.drainer.Lost?
    ensures Run(steps).value.requestChan <= Run(steps + more).value.requestChan
    ensures var s := Run(steps + more).value;
      forall c | c in Run(steps).value.requestChan && c < |s.calls| && s.calls[c].expecting :: s.calls[c].results == []
    decreases |more|
  {
    hide Next, Known;
    if more == [] {
      assert steps + more == steps;
    } else {
      var front := more[..|more| - 1];
      assert (steps + more)[..|steps + more| - 1] == steps + front;
      LostForever(steps, front);
      RunInv(steps + front);
      LostStep(Run(steps + front).value, more[|more| - 1]);
    }
    RunInv(steps + more);
    var s := Run(steps + more).value;
    forall c | c in Run(steps).value.requestChan && c < |s.calls| && s.calls[c].expecting ensures s.calls[c].results == [] {
      assert c in s.requestChan;
      QueuedHasNoResult(s, c);
    }
  }

  lemma QueuedHasNoResult(s: State, c: nat)
    requires Conserved(s) && c < |s.calls| && s.calls[c].expecting && c in s.requestChan
    ensures s.calls[c].results == []
  {
    assert Places(s, c) == 1;
    assert multiset(s.requestChan)[c] >= 1;
  }

  lemma Extend(steps: seq<Step>, step: Step, s: State)
    requires Run(steps) == Some(s)
    ensures Run(steps + [step]) == Next(s, step)
  {
    assert (steps + [step])[..|steps|] == steps;
  }

  /** The run loop of an unused router is told to stop. */
  lemma StopUnused() returns (steps: seq<Step>)
    ensures Run(steps) == Some(INITIAL.(done := true, worker := Locking, drainer := Receiving))
  {
    var s := INITIAL;
    assert Run([]) == Some(s);
    Extend([], Close, s);
    s := s.(done := true);
    Extend([Close], SelectDone, s);
    s := s.(worker := Failing);
    Extend([Close] + [SelectDone], Cancel, s);
    s := s.(worker := Answering({}));
    steps := [Close] + [SelectDone] + [Cancel];
    assert INITIAL.responders.Keys == {};
    Extend(steps, StartDrain, s);
    steps := steps + [StartDrain];
  }

  /** A caller whose request goes into the queue. */
  lemma Enqueue(steps: seq<Step>, s: State, expecting: bool, id: nat) returns (longer: seq<Step>)
    requires Run(steps) == Some(s) && !s.panicked && s.mutex.Unlocked? && s.handleValid && !s.closed
    requires |s.requestChan| < Router.CAPACITY && expecting == (id != 0) && (expecting ==> FreshId(s, id))
    ensures Run(longer) == Some(s.(calls := s.calls + [Call(expecting, id, Done, [], 0)], requestChan := s.requestChan + [|s.calls|]))
  {
    hide Run;
    var c := |s.calls|;
    assert forall a: Call, b: Call :: (s.calls + [a])[c := b] == s.calls + [b];
    Extend(steps, NewCall(expecting, id), s);
    var t := s.(calls := s.calls + [Call(expecting, id, Entering, [], 0)]);
    longer := steps + [NewCall(expecting, id)];
    Extend(longer, Lock(c), t);
    longer := longer + [Lock(c)];
    t := t.(calls := s.calls + [Call(expecting, id, Locked, [], 0)], mutex := HeldByCaller(c));
    Extend(longer, Check(c), t);
    longer := longer + [Check(c)];
    t := t.(calls := s.calls + [Call(expecting, id, Checked, [], 0)]);
    Extend(longer, Send(c), t);
    longer := longer + [Send(c)];
  }

  /** A router that is closed with a request without response in its queue loses
      the request queued behind it. */
  lemma CloseLosesRequest() returns (steps: seq<Step>, c: nat)
    ensures Run(steps).Some? && c < |Run(steps).value.calls| && Run(steps).value.calls[c].expecting
    ensures Run(steps).value.calls[c].phase.Done?
    ensures forall more | Run(steps + more).Some? && c < |Run(steps + more).value.calls| && Run(steps + more).value.calls[c].expecting ::
      Run(steps + more).value.calls[c].results == []
  {
    hide Run;
    steps := StopUnused();
    var s := Run(steps).value;
    steps := Enqueue(steps, s, false, 0);
    s := Run(steps).value;
    Extend(steps, DrainTake, s);
    steps := steps + [DrainTake];
    s := Run(steps).value;
    Extend(steps, DrainAnswer, s);
    steps := steps + [DrainAnswer];
    s := Run(steps).value;
    steps := Enqueue(steps, s, true, 1);
    s, c := Run(steps).value, 1;
    assert s.requestChan == [1];
    forall more | Run(steps + more).Some? && c < |Run(steps + more).value.calls| && Run(steps + more).value.calls[c].expecting
      ensures Run(steps + more).value.calls[c].results == []
    {
      LostForever(steps, more);
    }
  }

  // ---- When the promise holds ----

  /** The run loop has returned and nobody can do anything more. */
  ghost predicate Quiet(s: State) {
    Past(s.worker) && forall step | ShutdownStep(step) :: Next(s, step).None?
  }

  ghost predicate EveryoneAnswered(s: State) {
    && (forall c | 0 <= c < |s.calls| :: s.calls[c].phase.Done?)
    && (forall c | 0 <= c < |s.calls| && s.calls[c].expecting :: |s.calls[c].results| == 1)
  }

  /** What the run loop left behind or let in: what was queued when it returned,
      and what was sent after that, in order. */
  ghost function Late(steps: seq<Step>): seq<nat>
    requires Run(steps).Some?
  {
    if steps == [] then []
    else
      var l := |steps| - 1;
      if !Past(Run(steps[..l]).value.worker) then
        if Past(Run(steps).value.worker) then Run(steps).value.requestChan else []
      else Late(steps[..l]) + if steps[l].Send? then [steps[l].call] else []
  }

  /** No request that expects a response comes behind one that does not. */
  ghost predicate NoneBehindOneWay(calls: seq<Call>, late: seq<nat>) {
    forall i, j | 0 <= i < j < |late| && late[i] < |calls| && late[j] < |calls| && !calls[late[i]].expecting ::
      !calls[late[j]].expecting
  }

  /** A caller holds the mutex and waits for room in the full request channel. */
  ghost predicate SomeoneBlocked(s: State) {
    |s.requestChan| >= Router.CAPACITY && exists c | 0 <= c < |s.calls| :: s.calls[c].phase.Checked?
  }

  /** The drainer has taken the first `k` late requests; all but the last of them
      expected a response, and the last one if it was answered. */
  ghost predicate Drained(s: State, late: seq<nat>, k: nat) {
    && k <= |late| && late[k..] == s.requestChan
    && (forall i | 0 <= i < |late| :: late[i] < |s.calls|)
    && (forall i | 0 <= i < k - 1 :: s.calls[late[i]].expecting)
    && (k > 0 ==> (s.calls[late[k - 1]].expecting && !s.drainer.Lost?) || s.drainer == Holding(late[k - 1])
                  || (s.drainer.Lost? && !s.calls[late[k - 1]].expecting))
    && (s.drainer.Holding? ==> k > 0 && late[k - 1] == s.drainer.call)
    && (s.drainer.Lost? ==> k > 0)
    && (s.drainer.NotStarted? ==> k == 0)
  }

  /** The calls a state knows are there later, and expect what they expected. */
  ghost predicate MoreCalls(s: State, t: State) {
    |s.calls| <= |t.calls| && forall c | 0 <= c < |s.calls| :: t.calls[c].expecting == s.calls[c].expecting
  }

  lemma CallsStay(s: State, step: Step)
    requires Known(s) && Next(s, step).Some?
    ensures MoreCalls(s, Next(s, step).value)
  {
    hide CallerNext, LoopNext, ReadNext, StopNext, Known;
    if CallerStep(step) {
      CallerSame(s, step);
    } else if LoopStep(step) {
      LoopKnown(s, step);
    } else if ReadStep(step) {
      ReadKnown(s, step);
    } else if StopStep(step) {
      StopKnown(s, step);
    }
  }

  lemma DrainedSend(s: State, c: nat, late: seq<nat>, k: nat)
    requires Drained(s, late, k) && CallerNext(s, Send(c)).Some? && !s.closed
    ensures Drained(CallerNext(s, Send(c)).value, late + [c], k)
  {
    var t := CallerNext(s, Send(c)).value;
    CallerSame(s, Send(c));
    assert (late + [c])[k..] == late[k..] + [c];
  }

  lemma DrainedTake(s: State, late: seq<nat>, k: nat)
    requires Drained(s, late, k) && StopNext(s, DrainTake).Some?
    ensures Drained(StopNext(s, DrainTake).value, late, k + 1)
  {
    var t := StopNext(s, DrainTake).value;
    assert late[k] == s.requestChan[0] && late[k + 1..] == late[k..][1..];
  }

  lemma DrainedAnswer(s: State, late: seq<nat>, k: nat)
    requires Drained(s, late, k) && Known(s) && StopNext(s, DrainAnswer).Some?
    ensures Drained(StopNext(s, DrainAnswer).value, late, k)
  {
    hide Known;
    StopKnown(s, DrainAnswer);
    var t := StopNext(s, DrainAnswer).value;
    assert t.requestChan == s.requestChan && |t.calls| == |s.calls|;
  }

  lemma OtherSteps(s: State, step: Step)
    requires Past(s.worker) && Known(s) && Next(s, step).Some? && !step.Send? && !step.DrainTake? && !step.DrainAnswer?
    ensures Next(s, step).value.requestChan == s.requestChan
    ensures Next(s, step).value.drainer == s.drainer || ((step.StartDrain? || step.DrainEnd?) &&
      (s.drainer.NotStarted? || s.drainer.Receiving?) && (Next(s, step).value.drainer.Receiving? || Next(s, step).value.drainer.Finished?))
  {
  }

  lemma DrainedStep(s: State, step: Step, late: seq<nat>, k: nat) returns (k': nat)
    requires Past(s.worker) && Inv(s) && Drained(s, late, k) && Next(s, step).Some?
    ensures Drained(Next(s, step).value, late + if step.Send? then [step.call] else [], k')
  {
    hide CallerNext, LoopNext, ReadNext, StopNext, Conserved, Known, DistinctIds, OneWait, Routed, Past;
    var t := Next(s, step).value;
    assert late + [] == late;
    k' := k;
    if step.Send? {
      OpenForSend(s, step.call);
      DrainedSend(s, step.call, late, k);
    } else if step.DrainTake? {
      DrainedTake(s, late, k);
      k' := k + 1;
    } else if step.DrainAnswer? {
      DrainedAnswer(s, late, k);
    } else {
      CallsStay(s, step);
      OtherSteps(s, step);
    }
  }

  lemma OpenForSend(s: State, c: nat)
    requires Exclusive(s) && CallerNext(s, Send(c)).Some?
    ensures !s.closed
  {
  }

  /** In every run the queue is the part of the late requests not yet drained. */
  lemma {:induction false} LateIsDrained(steps: seq<Step>) returns (k: nat)
    requires Run(steps).Some? && Past(Run(steps).value.worker)
    ensures Drained(Run(steps).value, Late(steps), k)
    decreases |steps|
  {
    hide Next, Drained, Past, Inv;
    k := 0;
    NotPast();
    if steps != [] {
      var l := |steps| - 1;
      var front := steps[..l];
      RunInv(front);
      if Past(Run(front).value.worker) {
        k := LateIsDrained(front);
        k := DrainedStep(Run(front).value, steps[l], Late(front), k);
      } else {
        RunInv(steps);
        LoopReturns(Run(front).value, steps[l]);
      }
    }
  }

  lemma NotPast()
    ensures !Past(INITIAL.worker)
  {
  }

  lemma LoopReturns(s: State, step: Step)
    requires !Past(s.worker) && Next(s, step).Some? && Past(Next(s, step).value.worker) && Inv(Next(s, step).value)
    ensures Drained(Next(s, step).value, Next(s, step).value.requestChan, 0)
  {
    hide Conserved, DistinctIds, Exclusive, OneWait, Routed;
    var t := Next(s, step).value;
    ReturnsFailing(s, step);
    assert forall i | 0 <= i < |t.requestChan| :: t.requestChan[i] in t.requestChan;
  }

  lemma ReturnsFailing(s: State, step: Step)
    requires !Past(s.worker) && Next(s, step).Some? && Past(Next(s, step).value.worker)
    ensures Next(s, step).value.worker.Failing?
  {
  }

  // ---- The exact condition, run by run ----

  /** At rest the worker has answered its responders. */
  lemma QuietStops(steps: seq<Step>, s: State)
    requires Run(steps) == Some(s) && Quiet(s)
    ensures s.worker.Locking? || s.worker.Ended?
  {
    hide Run, ShutdownStep;
    if s.worker.Failing? || s.worker.Answering? || s.worker.Closing? || s.worker.HandleClosed? {
      var step := WorkerMoves(steps, s);
      assert false;
    }
  }

  /** At rest nobody is on the way in, unless a caller is stuck on the full queue. */
  lemma QuietIsBack(steps: seq<Step>, s: State, c: nat)
    requires Run(steps) == Some(s) && Quiet(s) && c < |s.calls| && !s.calls[c].phase.Done?
    ensures SomeoneBlocked(s)
  {
    hide Run;
    RunInv(steps);
    QuietStops(steps, s);
    assert Next(s, Lock(c)).None? && Next(s, Check(c)).None? && Next(s, Send(c)).None?;
    if s.calls[c].phase.Entering? {
      assert s.mutex.HeldByCaller?;
      var d := s.mutex.call;
      assert HasMutex(s, d);
      assert Next(s, Check(d)).None? && Next(s, Send(d)).None?;
    }
  }

  /** A request that the worker, the drainer and the queue are done with has its
      result. */
  lemma DoneHasResult(s: State, c: nat)
    requires Conserved(s) && c < |s.calls| && s.calls[c].expecting && s.calls[c].phase.Done? && c !in s.requestChan
    requires (s.worker.Locking? || s.worker.Ended?) && s.drainer.Lost?
    ensures |s.calls[c].results| == 1
  {
    assert Places(s, c) == 1;
  }

  lemma AnsweredMeans(steps: seq<Step>, s: State, late: seq<nat>, k: nat)
    requires Run(steps) == Some(s) && Quiet(s) && Drained(s, late, k) && s.drainer.Lost?
    ensures EveryoneAnswered(s) ==> NoneBehindOneWay(s.calls, late) && !SomeoneBlocked(s)
  {
    hide Run, Quiet, Known, DistinctIds, Exclusive, OneWait, Routed;
    RunInv(steps);
    if EveryoneAnswered(s) {
      forall j | k <= j < |late| ensures !s.calls[late[j]].expecting {
        assert late[j] == late[k..][j - k] == s.requestChan[j - k] && late[j] in s.requestChan;
        if s.calls[late[j]].expecting {
          QueuedHasNoResult(s, late[j]);
          assert false;
        }
      }
    }
  }

  lemma QueueIsOneWay(s: State, late: seq<nat>, k: nat)
    requires Drained(s, late, k) && s.drainer.Lost? && NoneBehindOneWay(s.calls, late)
    ensures forall j | 0 <= j < |s.requestChan| :: s.requestChan[j] < |s.calls| && !s.calls[s.requestChan[j]].expecting
  {
    forall j | 0 <= j < |s.requestChan| ensures s.requestChan[j] < |s.calls| && !s.calls[s.requestChan[j]].expecting {
      assert late[k + j] == late[k..][j] == s.requestChan[j];
      assert late[k - 1] < |s.calls| && late[k + j] < |s.calls| && !s.calls[late[k - 1]].expecting;
    }
  }

  lemma LostButAnswered(steps: seq<Step>, s: State, late: seq<nat>, k: nat)
    requires Run(steps) == Some(s) && Quiet(s) && Drained(s, late, k) && s.drainer.Lost?
    requires NoneBehindOneWay(s.calls, late) && !SomeoneBlocked(s)
    ensures EveryoneAnswered(s)
  {
    hide Run, Quiet, Known, DistinctIds, Exclusive, OneWait, Routed, SomeoneBlocked;
    RunInv(steps);
    QuietStops(steps, s);
    QueueIsOneWay(s, late, k);
    forall c | 0 <= c < |s.calls| ensures s.calls[c].phase.Done? {
      if !s.calls[c].phase.Done? {
        QuietIsBack(steps, s, c);
        assert false;
      }
    }
    forall c | 0 <= c < |s.calls| && s.calls[c].expecting ensures |s.calls[c].results| == 1 {
      assert c !in s.requestChan;
      DoneHasResult(s, c);
    }
  }

  lemma NotLostIsAnswered(steps: seq<Step>, s: State, late: seq<nat>, k: nat)
    requires Run(steps) == Some(s) && Quiet(s) && Drained(s, late, k) && !s.drainer.Lost?
    ensures EveryoneAnswered(s) && NoneBehindOneWay(s.calls, late) && !SomeoneBlocked(s)
  {
    hide Run, Next, Work, ShutdownStep, Past, Known, Accounts, OneWait, Routed;
    assert steps + [] == steps;
    RunInv(steps);
    ShutdownAnswersEveryone(steps, []);
  }

  /** A router that has come to rest has answered everyone if and only if, among
      what the run loop left behind or let in, no request that expects a response
      came behind one that does not, and no caller is stuck on the full queue. */
  lemma AnsweredExactly(steps: seq<Step>)
    requires Run(steps).Some? && Quiet(Run(steps).value)
    ensures EveryoneAnswered(Run(steps).value) <==>
      NoneBehindOneWay(Run(steps).value.calls, Late(steps)) && !SomeoneBlocked(Run(steps).value)
  {
    hide Run, Quiet, EveryoneAnswered, NoneBehindOneWay, SomeoneBlocked, Drained, Late, Past;
    var s := Run(steps).value;
    QuietIsPast(s);
    var k := LateIsDrained(steps);
    if s.drainer.Lost? {
      AnsweredMeans(steps, s, Late(steps), k);
      if NoneBehindOneWay(s.calls, Late(steps)) && !SomeoneBlocked(s) {
        LostButAnswered(steps, s, Late(steps), k);
      }
    } else {
      NotLostIsAnswered(steps, s, Late(steps), k);
    }
  }

  lemma QuietIsPast(s: State)
    requires Quiet(s)
    ensures Past(s.worker)
  {
  }
}
