/**
  Whether calls of the async waiter return: always, as long as its worker is not
  stuck on a response channel that is full; and when that can happen.
*/
module WaiterLiveness {
  import opened Wire
  import opened WaiterProtocol

  // ---- Internal steps come to an end ----

  function Weight(phase: Phase): nat {
    match phase
    case Sending => 9
    case Waking => 6
    case Receiving => 1
    case Returned => 0
  }

  function CallsWeight(calls: seq<Call>): nat {
    if calls == [] then 0 else CallsWeight(calls[..|calls| - 1]) + Weight(calls[|calls| - 1].phase)
  }

  function WorkerWeight(worker: Worker): nat {
    match worker
    case Woken => 1
    case Blocked => 2
    case Responding(todo) => 3 + |todo|
    case Draining => 3
    case Canceling(_) => 4
  }

  /** What is left to do when no new call comes in. */
  function Work(s: State): nat {
    CallsWeight(s.calls) + |s.waitChan| + 2 * |s.cancelChan| + (if s.signal then 4 else 0) + WorkerWeight(s.worker)
  }

  lemma {:induction false} CallsWeightUpdate(calls: seq<Call>, c: nat, call: Call)
    requires c < |calls|
    ensures CallsWeight(calls[c := call]) == CallsWeight(calls) - Weight(calls[c].phase) + Weight(call.phase)
    decreases |calls|
  {
    var l := |calls| - 1;
    if c < l {
      CallsWeightUpdate(calls[..l], c, call);
      assert calls[c := call][..l] == calls[..l][c := call];
    } else {
      assert calls[c := call][..l] == calls[..l];
    }
  }

  lemma CallerWork(s: State, step: Step)
    requires Internal(step) && IsCallerStep(step) && CallerNext(s, step).Some?
    ensures Work(CallerNext(s, step).value) < Work(s)
  {
    hide WorkerWeight;
    var t := CallerNext(s, step).value;
    CallsWeightUpdate(s.calls, step.call, t.calls[step.call]);
  }

  lemma AnswerWork(s: State, c: nat, worker: Worker)
    requires Pending(s, c)
    ensures CallsWeight(Answer(s, c, worker).calls) == CallsWeight(s.calls)
  {
    CallsWeightUpdate(s.calls, c, s.calls[c].(answered := true));
  }

  lemma WorkerWork(s: State, step: Step)
    requires Internal(step) && WorkerNext(s, step).Some? && (s.worker.Woken? ==> s.signal)
    ensures Work(WorkerNext(s, step).value) < Work(s)
  {
    hide CallsWeight;
    if step.Respond? && s.worker.todo != [] {
      AnswerWork(s, s.worker.todo[0], Responding(s.worker.todo[1..]));
    } else if step.AnswerCancel? {
      AnswerWork(s, s.worker.call, Draining);
    } else if step.TakeWait? {
      CallsWeightUpdate(s.calls, s.waitChan[0], WorkerNext(s, step).value.calls[s.waitChan[0]]);
    }
  }

  lemma WorkDecreases(s: State, step: Step)
    requires Inv(s) && Internal(step) && Next(s, step).Some?
    ensures Work(Next(s, step).value) < Work(s)
  {
    hide Work, CallerNext, WorkerNext, Noticed, Answering, UniqueIds, Bounded;
    if IsCallerStep(step) {
      CallerWork(s, step);
    } else {
      WorkerWork(s, step);
    }
  }

  lemma Extend(steps: seq<Step>, step: Step)
    requires Run(steps).Some?
    ensures Run(steps + [step]) == Next(Run(steps).value, step)
  {
    assert (steps + [step])[..|steps|] == steps;
  }

  lemma {:induction false} WorkBounds(steps: seq<Step>, more: seq<Step>)
    requires Run(steps + more).Some? && forall step | step in more :: Internal(step)
    ensures Run(steps).Some?
    ensures Work(Run(steps + more).value) + |more| <= Work(Run(steps).value)
    decreases |more|
  {
    hide Next, Work, Internal, Inv;
    if more == [] {
      assert steps + more == steps;
    } else {
      var l := |more| - 1;
      assert (steps + more)[..|steps + more| - 1] == steps + more[..l];
      WorkBounds(steps, more[..l]);
      RunInv(steps + more[..l]);
      assert more[l] in more;
      WorkDecreases(Run(steps + more[..l]).value, more[l]);
    }
  }

  /** Nothing can happen without a new call, a reader or a ready handle. */
  ghost predicate Quiet(s: State) {
    forall step | Internal(step) :: Next(s, step).None?
  }

  ghost predicate AllReturned(s: State) {
    s.worker.Blocked? && !s.signal && !Queued(s) && forall c | 0 <= c < |s.calls| :: s.calls[c].phase.Returned?
  }

  lemma QuietMeans(steps: seq<Step>)
    requires Run(steps).Some? && Quiet(Run(steps).value) && !Stuck(Run(steps).value)
    ensures AllReturned(Run(steps).value)
  {
    hide Run, Stuck;
    var s := Run(steps).value;
    if !s.worker.Blocked? {
      var step := WorkerMoves(steps);
      assert false;
    }
    assert Next(s, WaitManyReturns([])).None?;
    if Queued(s) {
      var step := QueueMoves(steps);
      assert false;
    }
    forall c | 0 <= c < |s.calls| ensures s.calls[c].phase.Returned? {
      if !s.calls[c].phase.Returned? {
        var step := NoDeadlock(steps, c);
        assert false;
      }
    }
  }

  /** Progress: once no new call comes in, callers and worker together take only a
      bounded number of steps. When none is left, every call has returned and both
      queues are empty, or the worker is stuck on a full response channel. */
  lemma EveryCallReturns(steps: seq<Step>, more: seq<Step>)
    requires Run(steps + more).Some? && forall step | step in more :: Internal(step)
    ensures Run(steps).Some? && |more| <= Work(Run(steps).value)
    ensures Quiet(Run(steps + more).value) ==> Stuck(Run(steps + more).value) || AllReturned(Run(steps + more).value)
  {
    hide Run, Work, Quiet, Stuck, AllReturned, Internal;
    WorkBounds(steps, more);
    if Quiet(Run(steps + more).value) && !Stuck(Run(steps + more).value) {
      QuietMeans(steps + more);
    }
  }

  // ---- Response channels and what is still to be sent on them ----

  predicate Unanswered(call: Call, ch: nat) {
    call.request == AsyncWait(ch) && !call.answered
  }

  /** The responses that are still to be sent on a channel. */
  function Demand(calls: seq<Call>, ch: nat): nat {
    if calls == [] then 0
    else Demand(calls[..|calls| - 1], ch) + if Unanswered(calls[|calls| - 1], ch) then 1 else 0
  }

  /** More responses are to come than the channel takes as it is. */
  ghost predicate Overdrawn(s: State, ch: nat) {
    ch < |s.channels| && Demand(s.calls, ch) > s.channels[ch].Room()
  }

  function One(b: bool): nat { if b then 1 else 0 }

  lemma {:induction false} DemandUpdate(calls: seq<Call>, c: nat, call: Call, ch: nat)
    requires c < |calls|
    ensures Demand(calls[c := call], ch) == Demand(calls, ch) - One(Unanswered(calls[c], ch)) + One(Unanswered(call, ch))
    decreases |calls|
  {
    var l := |calls| - 1;
    if c < l {
      DemandUpdate(calls[..l], c, call, ch);
      assert calls[c := call][..l] == calls[..l][c := call];
    } else {
      assert calls[c := call][..l] == calls[..l];
    }
  }

  lemma {:induction false} DemandOf(calls: seq<Call>, c: nat, ch: nat)
    requires c < |calls| && Unanswered(calls[c], ch)
    ensures Demand(calls, ch) >= 1
    decreases |calls|
  {
    if c < |calls| - 1 {
      DemandOf(calls[..|calls| - 1], c, ch);
    }
  }

  /** A step of callers and worker only: no new call or channel, no reader. */
  predicate Closed(step: Step) {
    !step.NewChannel? && !step.StartWait? && !step.StartCancel? && !step.ReadResponse?
  }

  lemma CallerBalance(s: State, step: Step, ch: nat)
    requires Closed(step) && IsCallerStep(step) && CallerNext(s, step).Some? && ch < |s.channels|
    ensures var t := CallerNext(s, step).value;
      t.channels == s.channels && Demand(t.calls, ch) == Demand(s.calls, ch)
  {
    hide Demand;
    var t := CallerNext(s, step).value;
    DemandUpdate(s.calls, step.call, t.calls[step.call], ch);
  }

  lemma AnswerBalance(s: State, c: nat, worker: Worker, ch: nat)
    requires CanAnswer(s, c) && ch < |s.channels|
    ensures var t := Answer(s, c, worker);
      |t.channels| == |s.channels| && Demand(t.calls, ch) - t.channels[ch].Room() == Demand(s.calls, ch) - s.channels[ch].Room()
  {
    hide Demand;
    DemandUpdate(s.calls, c, s.calls[c].(answered := true), ch);
  }

  lemma WorkerBalance(s: State, step: Step, ch: nat)
    requires WorkerNext(s, step).Some? && ch < |s.channels|
    ensures var t := WorkerNext(s, step).value;
      |t.channels| == |s.channels| && Demand(t.calls, ch) - t.channels[ch].Room() == Demand(s.calls, ch) - s.channels[ch].Room()
  {
    hide Demand, Answer;
    if step.Respond? && s.worker.todo != [] {
      AnswerBalance(s, s.worker.todo[0], Responding(s.worker.todo[1..]), ch);
    } else if step.AnswerCancel? {
      AnswerBalance(s, s.worker.call, Draining, ch);
    } else if step.TakeWait? {
      DemandUpdate(s.calls, s.waitChan[0], WorkerNext(s, step).value.calls[s.waitChan[0]], ch);
    }
  }

  /** Callers and worker alone neither overdraw a channel nor make up for it. */
  lemma Balance(s: State, step: Step, ch: nat)
    requires Closed(step) && Next(s, step).Some?
    ensures |Next(s, step).value.channels| == |s.channels|
    ensures Overdrawn(Next(s, step).value, ch) <==> Overdrawn(s, ch)
  {
    hide CallerNext, WorkerNext, Demand;
    if ch < |s.channels| {
      if IsCallerStep(step) {
        CallerBalance(s, step, ch);
      } else {
        WorkerBalance(s, step, ch);
      }
    } else if |s.channels| > 0 {
      if IsCallerStep(step) {
        CallerBalance(s, step, 0);
      } else {
        WorkerBalance(s, step, 0);
      }
    } else {
      NoChannels(s, step);
    }
  }

  lemma NoChannels(s: State, step: Step)
    requires Closed(step) && Next(s, step).Some? && s.channels == []
    ensures Next(s, step).value.channels == []
  {
  }

  /** A worker that is stuck has an overdrawn channel in front of it. */
  lemma StuckIsOverdrawn(s: State) returns (ch: nat)
    requires Tabled(s) && Stuck(s)
    ensures Overdrawn(s, ch)
  {
    var c := if s.worker.Responding? then s.worker.todo[0] else s.worker.call;
    assert Pending(s, c);
    ch := s.calls[c].request.channel;
    DemandOf(s.calls, c, ch);
  }

  // ---- When the worker can be brought to a halt ----

  ghost predicate AllClosed(steps: seq<Step>) {
    forall step | step in steps :: Closed(step)
  }

  lemma {:induction false} RunBalance(steps: seq<Step>, more: seq<Step>, ch: nat)
    requires Run(steps + more).Some? && AllClosed(more)
    ensures Run(steps).Some? && (Overdrawn(Run(steps + more).value, ch) <==> Overdrawn(Run(steps).value, ch))
    decreases |more|
  {
    hide Next, Overdrawn, Closed;
    if more == [] {
      assert steps + more == steps;
    } else {
      var front := more[..|more| - 1];
      assert (steps + more)[..|steps + more| - 1] == steps + front;
      assert more[|more| - 1] in more;
      RunBalance(steps, front, ch);
      Balance(Run(steps + front).value, more[|more| - 1], ch);
    }
  }

  /** Callers and worker run until nothing more is possible. */
  lemma {:induction false} RunDown(steps: seq<Step>) returns (more: seq<Step>)
    requires Run(steps).Some?
    ensures Run(steps + more).Some? && (forall step | step in more :: Internal(step)) && Quiet(Run(steps + more).value)
    decreases Work(Run(steps).value)
  {
    hide Run, Next, Work, Internal, Inv;
    assert steps + [] == steps;
    if step :| Internal(step) && Next(Run(steps).value, step).Some? {
      Extend(steps, step);
      RunInv(steps);
      WorkDecreases(Run(steps).value, step);
      var rest := RunDown(steps + [step]);
      more := [step] + rest;
      assert steps + more == steps + [step] + rest;
    } else {
      more := [];
    }
  }

  /** No buffer holds more than it can. */
  lemma {:induction false} NotOverfull(steps: seq<Step>, ch: nat)
    requires Run(steps).Some? && ch < |Run(steps).value.channels|
    ensures Run(steps).value.channels[ch].used <= Run(steps).value.channels[ch].capacity
    decreases |steps|
  {
    hide Next;
    if steps != [] {
      var front := steps[..|steps| - 1];
      if ch < |Run(front).value.channels| {
        NotOverfull(front, ch);
      }
      UsedStep(Run(front).value, steps[|steps| - 1], ch);
    }
  }

  lemma UsedStep(s: State, step: Step, ch: nat)
    requires Next(s, step).Some? && ch < |Next(s, step).value.channels|
    requires ch < |s.channels| ==> s.channels[ch].used <= s.channels[ch].capacity
    ensures Next(s, step).value.channels[ch].used <= Next(s, step).value.channels[ch].capacity
  {
  }

  /** The calls whose responses are still to be sent on the channel. */
  function Waiters(calls: seq<Call>, ch: nat): (cs: seq<nat>)
    ensures |cs| == Demand(calls, ch)
    ensures forall i | 0 <= i < |cs| :: cs[i] < |calls| && Unanswered(calls[cs[i]], ch)
    ensures forall i, j | 0 <= i < j < |cs| :: cs[i] < cs[j]
  {
    if calls == [] then []
    else
      var l := |calls| - 1;
      Waiters(calls[..l], ch) + if Unanswered(calls[l], ch) then [l] else []
  }

  /** All that is left to answer goes to one channel, which is too small for it. */
  ghost predicate Crowded(s: State, ch: nat) {
    && s.worker.Responding? && ch < |s.channels| && |s.worker.todo| > s.channels[ch].Room()
    && DistinctPending(s, s.worker.todo)
    && forall i | 0 <= i < |s.worker.todo| :: s.calls[s.worker.todo[i]].request == AsyncWait(ch)
  }

  lemma CrowdedStep(s: State, ch: nat)
    requires Crowded(s, ch) && Tabled(s) && s.worker.todo != [] && CanAnswer(s, s.worker.todo[0])
    ensures Next(s, Respond).Some? && Crowded(Next(s, Respond).value, ch)
  {
    var t := Next(s, Respond).value;
    WorkerTabled(s, Respond);
    assert forall i | 0 <= i < |t.worker.todo| :: t.worker.todo[i] == s.worker.todo[i + 1];
  }

  /** Answering them one by one ends with the worker stuck. */
  lemma {:induction false} CrowdedGetsStuck(steps: seq<Step>, ch: nat) returns (more: seq<Step>)
    requires Run(steps).Some? && Crowded(Run(steps).value, ch)
    ensures AllClosed(more) && Run(steps + more).Some? && Stuck(Run(steps + more).value)
    decreases |Run(steps).value.worker.todo|
  {
    hide Run;
    var s := Run(steps).value;
    NotOverfull(steps, ch);
    RunInv(steps);
    assert steps + [] == steps;
    if CanAnswer(s, s.worker.todo[0]) {
      CrowdedStep(s, ch);
      Extend(steps, Respond);
      var rest := CrowdedGetsStuck(steps + [Respond], ch);
      more := [Respond] + rest;
      assert steps + more == steps + [Respond] + rest;
    } else {
      more := [];
    }
  }

  lemma AllReady(steps: seq<Step>, ch: nat)
    requires Run(steps).Some? && AllReturned(Run(steps).value) && Overdrawn(Run(steps).value, ch)
    ensures var s := Run(steps).value; var cs := Waiters(s.calls, ch);
      && Next(s, WaitManyReturns(cs)).Some? && Crowded(Next(s, WaitManyReturns(cs)).value, ch)
  {
    hide Run;
    var s := Run(steps).value;
    RunInv(steps);
    NotOverfull(steps, ch);
    var cs := Waiters(s.calls, ch);
    forall i | 0 <= i < |cs| ensures Pending(s, cs[i]) {
      assert InPhase(s.calls[cs[i]], cs[i] in s.waitChan);
    }
    OnlyTable(s, s.(worker := Responding(cs)));
  }

  /** From an overdrawn channel callers, worker and ready handles can bring the
      worker to a halt. */
  lemma OverdrawnHalts(steps: seq<Step>, ch: nat) returns (more: seq<Step>)
    requires Run(steps).Some? && Overdrawn(Run(steps).value, ch)
    ensures AllClosed(more) && Run(steps + more).Some? && Stuck(Run(steps + more).value)
  {
    hide Run, Next, Overdrawn, Stuck, Quiet, AllReturned, Crowded;
    var down := RunDown(steps);
    assert AllClosed(down);
    RunBalance(steps, down, ch);
    if Stuck(Run(steps + down).value) {
      more := down;
    } else {
      QuietMeans(steps + down);
      AllReady(steps + down, ch);
      var ready := WaitManyReturns(Waiters(Run(steps + down).value.calls, ch));
      Extend(steps + down, ready);
      var rest := CrowdedGetsStuck(steps + down + [ready], ch);
      more := down + [ready] + rest;
      assert steps + more == steps + down + [ready] + rest;
    }
  }

  /** Without readers and new calls the worker can get stuck. */
  ghost predicate CanHalt(steps: seq<Step>) {
    exists more :: AllClosed(more) && Run(steps + more).Some? && Stuck(Run(steps + more).value)
  }

  /** The worker can be brought to a halt if and only if, on some channel, more
      responses are still to be sent than it takes. */
  lemma HaltsExactly(steps: seq<Step>)
    requires Run(steps).Some?
    ensures CanHalt(steps) <==> exists ch :: Overdrawn(Run(steps).value, ch)
  {
    hide Run, Overdrawn, Stuck, AllClosed;
    if CanHalt(steps) {
      var more :| AllClosed(more) && Run(steps + more).Some? && Stuck(Run(steps + more).value);
      RunInv(steps + more);
      var ch := StuckIsOverdrawn(Run(steps + more).value);
      RunBalance(steps, more, ch);
    }
    if ch :| Overdrawn(Run(steps).value, ch) {
      var more := OverdrawnHalts(steps, ch);
    }
  }

  // ---- Careful callers ----

  /** Every wait was started with room for its response on its channel, next to
      all that were still to come. */
  ghost predicate Careful(steps: seq<Step>) {
    forall k | 0 <= k < |steps| && steps[k].StartWait? && Run(steps[..k]).Some? ::
      SpareRoom(Run(steps[..k]).value, steps[k].channel)
  }

  ghost predicate SpareRoom(s: State, ch: nat) {
    ch < |s.channels| ==> Demand(s.calls, ch) < s.channels[ch].Room()
  }

  lemma OpenBalance(s: State, step: Step, ch: nat)
    requires !Closed(step) && Next(s, step).Some? && !Overdrawn(s, ch)
    requires step.StartWait? ==> SpareRoom(s, step.channel)
    requires ch >= |s.channels| ==> Demand(s.calls, ch) == 0
    ensures !Overdrawn(Next(s, step).value, ch)
  {
    var t := Next(s, step).value;
    if step.StartWait? || step.StartCancel? {
      assert t.calls[..|t.calls| - 1] == s.calls;
    }
  }

  lemma {:induction false} NoDemandYet(calls: seq<Call>, ch: nat)
    requires forall c | 0 <= c < |calls| && calls[c].request.AsyncWait? :: calls[c].request.channel < ch
    ensures Demand(calls, ch) == 0
  {
    if calls != [] {
      NoDemandYet(calls[..|calls| - 1], ch);
    }
  }

  lemma {:induction false} CarefulIsCovered(steps: seq<Step>, ch: nat)
    requires Run(steps).Some? && Careful(steps)
    ensures !Overdrawn(Run(steps).value, ch)
    decreases |steps|
  {
    hide Next, Overdrawn, SpareRoom, Closed;
    if steps == [] {
      NothingOverdrawn(ch);
    } else {
      var l := |steps| - 1;
      var front, s := steps[..l], Run(steps[..l]).value;
      forall k | 0 <= k < l && front[k].StartWait? && Run(front[..k]).Some? ensures SpareRoom(Run(front[..k]).value, front[k].channel) {
        assert front[..k] == steps[..k];
      }
      CarefulIsCovered(front, ch);
      RunInv(front);
      if Closed(steps[l]) {
        Balance(s, steps[l], ch);
      } else {
        if ch >= |s.channels| {
          Unborn(s, ch);
        }
        OpenBalance(s, steps[l], ch);
      }
    }
  }

  lemma Unborn(s: State, ch: nat)
    requires Tabled(s) && ch >= |s.channels|
    ensures Demand(s.calls, ch) == 0
  {
    NoDemandYet(s.calls, ch);
  }

  lemma NothingOverdrawn(ch: nat)
    ensures !Overdrawn(INITIAL, ch)
  {
  }

  /** With careful callers the worker is never stuck, so every call returns. A
      channel of capacity 1 with one wait at a time is careful use. */
  lemma CarefulNeverStuck(steps: seq<Step>)
    requires Run(steps).Some? && Careful(steps)
    ensures !Stuck(Run(steps).value)
    ensures Quiet(Run(steps).value) ==> AllReturned(Run(steps).value)
  {
    hide Run, Stuck, Overdrawn, Quiet, AllReturned;
    RunInv(steps);
    if Stuck(Run(steps).value) {
      var ch := StuckIsOverdrawn(Run(steps).value);
      CarefulIsCovered(steps, ch);
      assert false;
    }
    if Quiet(Run(steps).value) {
      QuietMeans(steps);
    }
  }

  // ---- Careless callers ----

  /** The channel that the worker is stuck on. */
  ghost function StuckOn(s: State): nat
    requires Tabled(s) && Stuck(s)
  {
    var c := if s.worker.Responding? then s.worker.todo[0] else s.worker.call;
    assert Pending(s, c);
    s.calls[c].request.channel
  }

  lemma StuckStep(s: State, step: Step)
    requires Tabled(s) && Stuck(s) && Next(s, step).Some? && !(step.ReadResponse? && step.channel == StuckOn(s))
    ensures var t := Next(s, step).value;
      && Tabled(t) && Stuck(t) && StuckOn(t) == StuckOn(s) && |t.calls| >= |s.calls|
      && forall c | 0 <= c < |s.calls| :: t.calls[c].idChan == s.calls[c].idChan && t.calls[c].request == s.calls[c].request
  {
    hide CallerNext, WorkerNext;
    StuckWorker(s, step);
    CallerTabled(s, step);
    CallerKeepsCalls(s, step, StuckOn(s));
    var c := if s.worker.Responding? then s.worker.todo[0] else s.worker.call;
    assert Pending(s, c) && Pending(Next(s, step).value, c);
  }

  lemma StuckWorker(s: State, step: Step)
    requires Tabled(s) && Stuck(s) && Next(s, step).Some?
    ensures IsCallerStep(step)
  {
    hide CallerNext, CanAnswer;
  }

  lemma CallerKeepsCalls(s: State, step: Step, ch: nat)
    requires IsCallerStep(step) && CallerNext(s, step).Some? && ch < |s.channels| && !(step.ReadResponse? && step.channel == ch)
    ensures var t := CallerNext(s, step).value;
      && t.worker == s.worker && |t.calls| >= |s.calls| && ch < |t.channels| && t.channels[ch] == s.channels[ch]
      && forall c | 0 <= c < |s.calls| :: t.calls[c].idChan == s.calls[c].idChan && t.calls[c].request == s.calls[c].request
           && t.calls[c].answered == s.calls[c].answered
  {
  }

  /** A stuck worker stays stuck until somebody reads from the channel, and no call
      that has no id by then gets one. */
  lemma {:induction false} StuckForever(steps: seq<Step>, more: seq<Step>)
    requires Run(steps).Some? && Tabled(Run(steps).value) && Stuck(Run(steps).value) && Run(steps + more).Some?
    requires forall step | step in more && step.ReadResponse? :: step.channel != StuckOn(Run(steps).value)
    ensures var s := Run(steps).value; var t := Run(steps + more).value;
      && Tabled(t) && Stuck(t) && StuckOn(t) == StuckOn(s) && |t.calls| >= |s.calls|
      && forall c | 0 <= c < |s.calls| :: t.calls[c].idChan == s.calls[c].idChan && t.calls[c].request == s.calls[c].request
    decreases |more|
  {
    hide Next, Tabled, Stuck, StuckOn;
    if more == [] {
      assert steps + more == steps;
    } else {
      var front := more[..|more| - 1];
      assert (steps + more)[..|steps + more| - 1] == steps + front;
      assert more[|more| - 1] in more;
      StuckForever(steps, front);
      StuckStep(Run(steps + front).value, more[|more| - 1]);
    }
  }

  /** One wait on an unbuffered channel that nobody reads, its handle ready: a wait
      that another caller starts then never returns. */
  lemma BlockedRun() returns (steps: seq<Step>, c: nat)
    ensures Run(steps).Some? && c < |Run(steps).value.calls| && Run(steps).value.calls[c].request.AsyncWait?
    ensures forall more | Run(steps + more).Some? && (forall step | step in more :: !step.ReadResponse?) ::
      c < |Run(steps + more).value.calls| && !Run(steps + more).value.calls[c].phase.Returned?
  {
    hide Run, Stuck, StuckOn, Tabled;
    steps := OneUnbufferedWait();
    var more := OverdrawnHalts(steps, 0);
    steps := steps + more;
    RunInv(steps);
    var s := Run(steps).value;
    c := |s.calls|;
    AnotherCall(s);
    Extend(steps, StartWait(0));
    StuckStep(s, StartWait(0));
    steps := steps + [StartWait(0)];
    forall more | Run(steps + more).Some? && (forall step | step in more :: !step.ReadResponse?)
      ensures c < |Run(steps + more).value.calls| && !Run(steps + more).value.calls[c].phase.Returned?
    {
      StuckForever(steps, more);
      RunInv(steps + more);
      var t := Run(steps + more).value;
      assert InPhase(t.calls[c], c in t.waitChan);
    }
  }

  lemma OneUnbufferedWait() returns (steps: seq<Step>)
    ensures Run(steps).Some? && Overdrawn(Run(steps).value, 0)
  {
    assert Run([]) == Some(INITIAL);
    Extend([], NewChannel(0));
    steps := [] + [NewChannel(0)];
    Extend(steps, StartWait(0));
    steps := steps + [StartWait(0)];
    var s := Run(steps).value;
    assert s.calls == [Call(AsyncWait(0), Sending, None, false)] && s.channels == [Channel(0, 0, 0)];
    assert s.calls[..0] == [];
  }

  lemma AnotherCall(s: State)
    requires Tabled(s) && Stuck(s)
    ensures Next(s, StartWait(0)) == Some(s.(calls := s.calls + [Call(AsyncWait(0), Sending, None, false)]))
  {
  }
}
