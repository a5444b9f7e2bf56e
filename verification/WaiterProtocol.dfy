/**
  The protocol between callers of the async waiter and its worker: two bounded
  channels, one level-triggered wake signal, one id channel per wait call, and
  the response channels that callers bring along, which can block the worker.
  A run interleaves any number of calls and readers with the worker.
*/
module WaiterProtocol {
  import opened Wire

  /** Where a caller is: about to push its request, between the push and the
      wake signal, blocked on the id channel, or back. */
  datatype Phase = Sending | Waking | Receiving | Returned

  datatype Request = AsyncWait(channel: nat) | CancelWait(id: nat)

  /** A call. `idChan` is the capacity-1 channel of one wait call; `answered` says
      that its response was sent. */
  datatype Call = Call(request: Request, phase: Phase, idChan: Option<nat>, answered: bool)

  /** A response channel: its buffer and the readers that block on it. */
  datatype Channel = Channel(capacity: nat, used: nat, readers: nat)
  {
    predicate HasRoom() { readers > 0 || used < capacity }

    function Sent(): Channel {
      if readers > 0 then this.(readers := readers - 1) else this.(used := used + 1)
    }

    function Read(): Channel {
      if used > 0 then this.(used := used - 1) else this.(readers := readers + 1)
    }

    /** How many more responses it takes as it is. */
    function Room(): int { capacity + readers - used }
  }

  /** `Blocked` is inside WaitMany; `Responding` has waits to answer; `Woken` has
      seen the signal and not yet cleared it; `Draining` serves the queues until
      both are empty; `Canceling` is about to answer one wait of a cancel call. */
  datatype Worker = Blocked | Responding(todo: seq<nat>) | Woken | Draining | Canceling(call: nat)

  datatype State = State(
    calls: seq<Call>,
    channels: seq<Channel>,
    waitChan: seq<nat>,
    cancelChan: seq<nat>,
    signal: bool,
    worker: Worker,
    ids: nat
  )

  datatype Step =
    | NewChannel(capacity: nat)
    | StartWait(channel: nat)
    | StartCancel(id: nat)
    | ReadResponse(channel: nat)
    | Push(call: nat)
    | Wake(call: nat)
    | Receive(call: nat)
    | WaitManyReturns(ready: seq<nat>)
    | Respond
    | ClearSignal
    | TakeWait
    | TakeCancel(call: nat)
    | TakeStaleCancel
    | AnswerCancel
    | DrainDone

  const CAPACITY := 10

  const INITIAL := State([], [], [], [], false, Blocked, 0)

  /** The wait of call `c` is in the worker's table. */
  predicate Pending(s: State, c: int) {
    && 0 <= c < |s.calls| && s.calls[c].request.AsyncWait? && s.calls[c].request.channel < |s.channels|
    && s.calls[c].idChan.Some? && !s.calls[c].answered
  }

  predicate DistinctPending(s: State, cs: seq<nat>) {
    && (forall i | 0 <= i < |cs| :: Pending(s, cs[i]))
    && (forall i, j | 0 <= i < j < |cs| :: cs[i] != cs[j])
  }

  /** The response channel of a pending wait has room. */
  predicate CanAnswer(s: State, c: int) {
    Pending(s, c) && s.channels[s.calls[c].request.channel].HasRoom()
  }

  function Answer(s: State, c: nat, worker: Worker): State
    requires Pending(s, c)
  {
    var ch := s.calls[c].request.channel;
    s.(calls := s.calls[c := s.calls[c].(answered := true)], channels := s.channels[ch := s.channels[ch].Sent()], worker := worker)
  }

  /** A caller's or a reader's step. */
  function CallerNext(s: State, step: Step): Option<State> {
    match step
    case NewChannel(capacity) => Some(s.(channels := s.channels + [Channel(capacity, 0, 0)]))
    case StartWait(ch) =>
      if ch < |s.channels| then Some(s.(calls := s.calls + [Call(AsyncWait(ch), Sending, None, false)])) else None
    case StartCancel(id) => Some(s.(calls := s.calls + [Call(CancelWait(id), Sending, None, false)]))
    case ReadResponse(ch) =>
      if ch < |s.channels| then Some(s.(channels := s.channels[ch := s.channels[ch].Read()])) else None
    case Push(c) =>
      if c >= |s.calls| || !s.calls[c].phase.Sending? then None
      else if s.calls[c].request.AsyncWait? then
        if |s.waitChan| == CAPACITY then None
        else Some(s.(waitChan := s.waitChan + [c], calls := s.calls[c := s.calls[c].(phase := Waking)]))
      else
        if |s.cancelChan| == CAPACITY then None
        else Some(s.(cancelChan := s.cancelChan + [s.calls[c].request.id],
                     calls := s.calls[c := s.calls[c].(phase := Waking)]))
    case Wake(c) =>
      if c >= |s.calls| || !s.calls[c].phase.Waking? then None
      else Some(s.(signal := true, calls := s.calls[c :=
             s.calls[c].(phase := if s.calls[c].request.AsyncWait? then Receiving else Returned)]))
    case Receive(c) =>
      if c >= |s.calls| || !s.calls[c].request.AsyncWait? || !s.calls[c].phase.Receiving? || s.calls[c].idChan.None? then None
      else Some(s.(calls := s.calls[c := s.calls[c].(phase := Returned)]))
    case _ => None
  }

  predicate IsCallerStep(step: Step) {
    step.NewChannel? || step.StartWait? || step.StartCancel? || step.ReadResponse? || step.Push? || step.Wake? || step.Receive?
  }

  /** The worker's step. WaitMany returns on the signal, or with handles of pending
      waits that are ready. */
  ghost function WorkerNext(s: State, step: Step): Option<State> {
    match step
    case WaitManyReturns(ready) =>
      if !s.worker.Blocked? then None
      else if s.signal then Some(s.(worker := Woken))
      else if ready != [] && DistinctPending(s, ready) then Some(s.(worker := Responding(ready)))
      else None
    case Respond =>
      if !s.worker.Responding? then None
      else if s.worker.todo == [] then Some(s.(worker := Blocked))
      else if CanAnswer(s, s.worker.todo[0]) then Some(Answer(s, s.worker.todo[0], Responding(s.worker.todo[1..])))
      else None
    case ClearSignal =>
      if s.worker.Woken? then Some(s.(worker := Draining, signal := false)) else None
    case TakeWait =>
      if !s.worker.Draining? || s.waitChan == [] then None
      else
        var c := s.waitChan[0];
        if c < |s.calls| && s.calls[c].request.AsyncWait? && s.calls[c].idChan.None? then
          Some(s.(waitChan := s.waitChan[1..], ids := s.ids + 1,
                  calls := s.calls[c := s.calls[c].(idChan := Some(s.ids + 1))]))
        else None
    case TakeCancel(c) =>
      if s.worker.Draining? && s.cancelChan != [] && Pending(s, c) && s.calls[c].idChan == Some(s.cancelChan[0])
      then Some(s.(cancelChan := s.cancelChan[1..], worker := Canceling(c))) else None
    case TakeStaleCancel =>
      if s.worker.Draining? && s.cancelChan != [] && (forall c: int :: !(Pending(s, c) && s.calls[c].idChan == Some(s.cancelChan[0])))
      then Some(s.(cancelChan := s.cancelChan[1..])) else None
    case AnswerCancel =>
      if s.worker.Canceling? && CanAnswer(s, s.worker.call) then Some(Answer(s, s.worker.call, Draining)) else None
    case DrainDone =>
      if s.worker.Draining? && s.waitChan == [] && s.cancelChan == [] then Some(s.(worker := Blocked)) else None
    case _ => None
  }

  /** The state after a step, or none when the step is not possible, which for a
      channel operation means that it blocks. */
  ghost function Next(s: State, step: Step): Option<State> {
    if IsCallerStep(step) then CallerNext(s, step) else WorkerNext(s, step)
  }

  /** The state at the end of a run, or none when some step was not possible. */
  ghost function Run(steps: seq<Step>): Option<State> {
    if steps == [] then Some(INITIAL)
    else
      var before := Run(steps[..|steps| - 1]);
      if before.None? then None else Next(before.value, steps[|steps| - 1])
  }

  ghost predicate Queued(s: State) {
    s.waitChan != [] || s.cancelChan != []
  }

  /** Some caller has pushed and is about to signal. */
  ghost predicate SomeoneWaking(s: State) {
    exists c | 0 <= c < |s.calls| :: s.calls[c].phase.Waking?
  }

  /** A queued request keeps the worker from sleeping on. */
  ghost predicate Noticed(s: State) {
    Queued(s) && (s.worker.Blocked? || s.worker.Responding?) ==> s.signal || SomeoneWaking(s)
  }

  /** A wait call is queued from its push until its id arrives, exactly once. */
  ghost predicate Answering(s: State) {
    && (forall i | 0 <= i < |s.waitChan| :: s.waitChan[i] < |s.calls| && s.calls[s.waitChan[i]].request.AsyncWait?)
    && (forall i, j | 0 <= i < j < |s.waitChan| :: s.waitChan[i] != s.waitChan[j])
    && (forall c | 0 <= c < |s.calls| && s.calls[c].request.AsyncWait? :: InPhase(s.calls[c], c in s.waitChan))
  }

  ghost predicate InPhase(call: Call, queued: bool) {
    if call.phase.Sending? then call.idChan.None? && !queued
    else if call.phase.Returned? then call.idChan.Some? && !queued
    else call.idChan.None? <==> queued
  }

  /** Ids are handed out once, from 1 up to the counter. */
  ghost predicate UniqueIds(s: State) {
    && (forall c | Holds(s, c) :: 1 <= s.calls[c].idChan.value <= s.ids)
    && (forall c, d | Holds(s, c) && Holds(s, d) && c != d :: s.calls[c].idChan.value != s.calls[d].idChan.value)
  }

  ghost predicate Holds(s: State, c: int) {
    0 <= c < |s.calls| && s.calls[c].idChan.Some?
  }

  ghost predicate Bounded(s: State) {
    |s.waitChan| <= CAPACITY && |s.cancelChan| <= CAPACITY
  }

  /** What the worker is about to answer is in its table; waits have channels; only
      waits with an id are answered. */
  ghost predicate Tabled(s: State) {
    && (s.worker.Responding? ==> DistinctPending(s, s.worker.todo))
    && (s.worker.Canceling? ==> Pending(s, s.worker.call))
    && (forall c | 0 <= c < |s.calls| && s.calls[c].request.AsyncWait? ::
          s.calls[c].request.channel < |s.channels| && (s.calls[c].answered ==> s.calls[c].idChan.Some?))
    && (forall c | 0 <= c < |s.calls| && s.calls[c].request.CancelWait? ::
          s.calls[c].idChan.None? && !s.calls[c].answered && !s.calls[c].phase.Receiving?)
    && (s.worker.Woken? ==> s.signal)
  }

  ghost predicate Inv(s: State) {
    Noticed(s) && Answering(s) && UniqueIds(s) && Bounded(s) && Tabled(s)
  }

  // ---- Every step keeps the invariant ----

  lemma CallerNoticed(s: State, step: Step)
    requires Noticed(s) && IsCallerStep(step) && CallerNext(s, step).Some?
    ensures Noticed(CallerNext(s, step).value)
  {
    var t := CallerNext(s, step).value;
    if SomeoneWaking(s) && !step.Wake? {
      var c :| 0 <= c < |s.calls| && s.calls[c].phase.Waking?;
      assert c < |t.calls| && t.calls[c].phase.Waking?;
    }
    if step.Push? {
      assert t.calls[step.call].phase.Waking?;
    }
  }

  lemma WorkerNoticed(s: State, step: Step)
    requires Noticed(s) && WorkerNext(s, step).Some?
    ensures Noticed(WorkerNext(s, step).value)
  {
    var t := WorkerNext(s, step).value;
    assert |t.calls| == |s.calls|;
    if SomeoneWaking(s) {
      var c :| 0 <= c < |s.calls| && s.calls[c].phase.Waking?;
      assert t.calls[c].phase.Waking?;
    }
  }

  lemma CallerAnswering(s: State, step: Step)
    requires Answering(s) && IsCallerStep(step) && CallerNext(s, step).Some?
    ensures Answering(CallerNext(s, step).value)
  {
    if step.Push? {
      PushedOnce(s, step.call, CallerNext(s, step).value);
    }
  }

  lemma PushedOnce(s: State, c: nat, t: State)
    requires Answering(s) && CallerNext(s, Push(c)) == Some(t)
    ensures Answering(t)
  {
    if s.calls[c].request.AsyncWait? {
      assert t.waitChan == s.waitChan + [c];
      assert forall d :: d in t.waitChan <==> d in s.waitChan || d == c;
    }
  }

  lemma WorkerAnswering(s: State, step: Step)
    requires Answering(s) && WorkerNext(s, step).Some?
    ensures Answering(WorkerNext(s, step).value)
  {
    var t := WorkerNext(s, step).value;
    if step.TakeWait? {
      TakenOnce(s, t);
    } else {
      assert t.waitChan == s.waitChan && |t.calls| == |s.calls|;
      assert forall c | 0 <= c < |s.calls| ::
        t.calls[c].phase == s.calls[c].phase && t.calls[c].idChan == s.calls[c].idChan && t.calls[c].request == s.calls[c].request;
    }
  }

  lemma TakenOnce(s: State, t: State)
    requires Answering(s) && WorkerNext(s, TakeWait) == Some(t)
    ensures Answering(t)
  {
    var c := s.waitChan[0];
    assert c in s.waitChan;
    assert s.waitChan == [c] + t.waitChan;
    assert forall i | 0 <= i < |t.waitChan| :: t.waitChan[i] == s.waitChan[i + 1];
    assert forall d :: d in t.waitChan <==> d in s.waitChan && d != c;
    assert forall d | 0 <= d < |t.calls| && d != c :: t.calls[d] == s.calls[d];
  }

  lemma UniqueIdsStep(s: State, step: Step)
    requires UniqueIds(s) && Next(s, step).Some?
    ensures UniqueIds(Next(s, step).value)
  {
    hide CallerNext, WorkerNext;
    var t := Next(s, step).value;
    if step.TakeWait? {
      TakeGivesId(s);
    } else {
      OtherStepsKeepIds(s, step);
    }
  }

  lemma TakeGivesId(s: State)
    requires UniqueIds(s) && WorkerNext(s, TakeWait).Some?
    ensures UniqueIds(WorkerNext(s, TakeWait).value)
  {
    var t, c := WorkerNext(s, TakeWait).value, s.waitChan[0];
    assert forall d | Holds(t, d) && d != c :: Holds(s, d) && t.calls[d] == s.calls[d];
  }

  lemma OtherStepsKeepIds(s: State, step: Step)
    requires Next(s, step).Some? && !step.TakeWait?
    ensures var t := Next(s, step).value;
      t.ids == s.ids && forall d | Holds(t, d) :: Holds(s, d) && t.calls[d].idChan == s.calls[d].idChan
  {
  }

  lemma BoundedStep(s: State, step: Step)
    requires Bounded(s) && Next(s, step).Some?
    ensures Bounded(Next(s, step).value)
  {
  }

  /** Waits stay in the table while callers and readers do their part. */
  lemma CallerTabled(s: State, step: Step)
    requires Tabled(s) && IsCallerStep(step) && CallerNext(s, step).Some?
    ensures Tabled(CallerNext(s, step).value)
  {
    var t := CallerNext(s, step).value;
    assert |t.channels| >= |s.channels| && |t.calls| >= |s.calls| && t.worker == s.worker;
    assert forall c | 0 <= c < |s.calls| ::
      t.calls[c].idChan == s.calls[c].idChan && t.calls[c].request == s.calls[c].request && t.calls[c].answered == s.calls[c].answered;
    assert forall c: int :: Pending(s, c) ==> Pending(t, c);
  }

  lemma AnswerTabled(s: State, c: nat, worker: Worker)
    requires Tabled(s) && Pending(s, c) && !worker.Woken?
    requires worker.Responding? ==> DistinctPending(s, [c] + worker.todo)
    requires !worker.Canceling?
    ensures Tabled(Answer(s, c, worker))
  {
    var t := Answer(s, c, worker);
    if worker.Responding? {
      var cs := [c] + worker.todo;
      forall i | 0 <= i < |worker.todo| ensures Pending(t, worker.todo[i]) {
        assert cs[i + 1] == worker.todo[i] && cs[0] == c;
        assert Pending(s, cs[i + 1]) && cs[0] != cs[i + 1];
      }
      forall i, j | 0 <= i < j < |worker.todo| ensures worker.todo[i] != worker.todo[j] {
        assert cs[i + 1] == worker.todo[i] && cs[j + 1] == worker.todo[j];
      }
    }
  }

  lemma WorkerTabled(s: State, step: Step)
    requires Tabled(s) && WorkerNext(s, step).Some?
    ensures Tabled(WorkerNext(s, step).value)
  {
    hide Answer, DistinctPending, Pending;
    var t := WorkerNext(s, step).value;
    if step.Respond? && s.worker.todo != [] {
      assert s.worker.todo == [s.worker.todo[0]] + s.worker.todo[1..];
      AnswerTabled(s, s.worker.todo[0], Responding(s.worker.todo[1..]));
    } else if step.AnswerCancel? {
      AnswerTabled(s, s.worker.call, Draining);
    } else if step.TakeWait? {
      TakeTabled(s);
    } else {
      assert t.calls == s.calls && t.channels == s.channels;
      OnlyTable(s, t);
    }
  }

  lemma OnlyTable(s: State, t: State)
    requires t.calls == s.calls && t.channels == s.channels
    ensures forall c: int :: Pending(t, c) == Pending(s, c)
    ensures forall cs :: DistinctPending(t, cs) == DistinctPending(s, cs)
  {
  }

  lemma TakeTabled(s: State)
    requires Tabled(s) && WorkerNext(s, TakeWait).Some?
    ensures Tabled(WorkerNext(s, TakeWait).value)
  {
  }

  lemma InvStep(s: State, step: Step)
    requires Inv(s) && Next(s, step).Some?
    ensures Inv(Next(s, step).value)
  {
    hide CallerNext, WorkerNext, Noticed, Answering, UniqueIds, Bounded, Tabled;
    if IsCallerStep(step) {
      CallerNoticed(s, step);
      CallerAnswering(s, step);
      CallerTabled(s, step);
    } else {
      WorkerNoticed(s, step);
      WorkerAnswering(s, step);
      WorkerTabled(s, step);
    }
    UniqueIdsStep(s, step);
    BoundedStep(s, step);
  }

  lemma InitialInv()
    ensures Inv(INITIAL)
  {
  }

  /** Every state of every run satisfies the invariant. */
  lemma {:induction false} RunInv(steps: seq<Step>)
    requires Run(steps).Some?
    ensures Inv(Run(steps).value)
    decreases |steps|
  {
    hide Next, Inv;
    if steps == [] {
      InitialInv();
    } else {
      RunInv(steps[..|steps| - 1]);
      InvStep(Run(steps[..|steps| - 1]).value, steps[|steps| - 1]);
    }
  }

  /** No lost wakeup: while the worker sleeps on a queued request, the signal is
      set or some caller is just about to set it. */
  lemma NoLostWakeup(steps: seq<Step>)
    requires Run(steps).Some?
    ensures var s := Run(steps).value;
      s.worker.Blocked? && Queued(s) ==> s.signal || SomeoneWaking(s)
  {
    RunInv(steps);
  }

  /** The worker never blocks handing over an id, and no two calls get the same. */
  lemma IdsAreHandedOver(steps: seq<Step>)
    requires Run(steps).Some?
    ensures var s := Run(steps).value;
      && (s.worker.Draining? && s.waitChan != [] ==> Next(s, TakeWait).Some?)
      && UniqueIds(s)
  {
    RunInv(steps);
    var s := Run(steps).value;
    if s.waitChan != [] {
      assert s.waitChan[0] in s.waitChan;
    }
  }

  // ---- Progress ----

  /** The worker is about to answer a wait whose response channel is full. */
  ghost predicate Stuck(s: State) {
    || (s.worker.Responding? && s.worker.todo != [] && !CanAnswer(s, s.worker.todo[0]))
    || (s.worker.Canceling? && !CanAnswer(s, s.worker.call))
  }

  /** A step that no new call, no reader and no ready handle is needed for. */
  predicate Internal(step: Step) {
    !step.NewChannel? && !step.StartWait? && !step.StartCancel? && !step.ReadResponse? && (step.WaitManyReturns? ==> step.ready == [])
  }

  /** The worker blocks only inside WaitMany and on a full response channel. */
  lemma WorkerMoves(steps: seq<Step>) returns (step: Step)
    requires Run(steps).Some? && !Run(steps).value.worker.Blocked? && !Stuck(Run(steps).value)
    ensures Internal(step) && Next(Run(steps).value, step).Some?
  {
    hide Run, CanAnswer, Answering;
    IdsAreHandedOver(steps);
    RunInv(steps);
    var s := Run(steps).value;
    match s.worker
    case Responding(_) => step := Respond;
    case Woken => step := ClearSignal;
    case Canceling(_) => step := AnswerCancel;
    case Draining =>
      if s.waitChan != [] {
        step := TakeWait;
      } else if s.cancelChan == [] {
        step := DrainDone;
      } else if c: int :| Pending(s, c) && s.calls[c].idChan == Some(s.cancelChan[0]) {
        step := TakeCancel(c);
      } else {
        step := TakeStaleCancel;
      }
  }

  /** Something queued gets the worker or a caller going. */
  lemma QueueMoves(steps: seq<Step>) returns (step: Step)
    requires Run(steps).Some? && Queued(Run(steps).value) && !Stuck(Run(steps).value)
    ensures Internal(step) && Next(Run(steps).value, step).Some?
  {
    RunInv(steps);
    var s := Run(steps).value;
    if !s.worker.Blocked? {
      step := WorkerMoves(steps);
    } else if s.signal {
      step := WaitManyReturns([]);
    } else {
      var d :| 0 <= d < |s.calls| && s.calls[d].phase.Waking?;
      step := Wake(d);
    }
  }

  /** No deadlock: as long as a call has not returned and the worker is not stuck,
      a caller or the worker can take a step without help from outside. */
  lemma NoDeadlock(steps: seq<Step>, c: nat) returns (step: Step)
    requires Run(steps).Some? && !Stuck(Run(steps).value)
    requires c < |Run(steps).value.calls| && !Run(steps).value.calls[c].phase.Returned?
    ensures Internal(step) && Next(Run(steps).value, step).Some?
  {
    RunInv(steps);
    var s := Run(steps).value;
    if !s.worker.Blocked? {
      step := WorkerMoves(steps);
    } else if s.signal {
      step := WaitManyReturns([]);
    } else if SomeoneWaking(s) {
      var d :| 0 <= d < |s.calls| && s.calls[d].phase.Waking?;
      step := Wake(d);
    } else {
      assert !Queued(s);
      step := if s.calls[c].phase.Sending? then Push(c) else Receive(c);
    }
  }
}
