/**
  The router: callers that queue requests under a mutex, a worker that writes
  them, waits for messages and routes responses by request id, and the goroutine
  that answers what is still queued once the worker has stopped. A run
  interleaves any number of calls with the worker and the outside world.
*/
module Router {
  import opened Wire

  /** A result sent to a caller: the message with some request id, or an error. */
  datatype Result = Reply(id: nat) | Failed

  /** Where a caller is: before the mutex, holding it, having seen a valid handle
      under it, or back. */
  datatype Phase = Entering | Locked | Checked | Done

  /** One call; `expecting` ones wait for a result on their own channel of
      capacity 1, from which `taken` results have been received. */
  datatype Call = Call(expecting: bool, id: nat, phase: Phase, results: seq<Result>, taken: nat)

  datatype Mutex = Unlocked | HeldByCaller(call: nat) | HeldByWorker

  /** Program points of the worker. `Stuck` is a send on a channel that does not
      exist, for a message nobody waits for. */
  datatype Worker =
    | Select | InHand(call: nat) | Dispatch | Stuck
    | Failing | Answering(todo: set<nat>) | Locking | Closing | HandleClosed | Ended

  /** The goroutine that drains the request channel. `Lost` is a send on the
      channel that a request without response does not have. */
  datatype Drainer = NotStarted | Receiving | Holding(call: nat) | Lost | Finished

  datatype State = State(
    calls: seq<Call>,
    requestChan: seq<nat>,
    closed: bool,
    handleValid: bool,
    done: bool,
    mutex: Mutex,
    responders: map<nat, nat>,
    waitId: nat,
    registered: nat,
    waitChan: seq<bool>,
    worker: Worker,
    drainer: Drainer,
    panicked: bool
  )

  datatype Step =
    | NewCall(expecting: bool, id: nat)
    | Lock(call: nat) | Check(call: nat) | Send(call: nat) | Take(call: nat)
    | Close
    | WaitAnswered(failed: bool)
    | SelectWait | SelectRequest | SelectDone
    | Write(failed: bool)
    | DispatchDone | ReadMessage(id: nat) | ReadShouldWait(waitId: nat) | ReadFails
    | Cancel | AnswerResponder(id: nat) | StartDrain | LockToClose | CloseHandle | CloseRequests
    | DrainTake | DrainAnswer | DrainEnd

  const CAPACITY := 10

  const INITIAL := State([], [], false, true, false, Unlocked, map[], 0, 0, [], Select, NotStarted, false)

  /** Requests that wait for a response have ids of their own. */
  ghost predicate FreshId(s: State, id: nat) {
    forall c | 0 <= c < |s.calls| && s.calls[c].expecting :: s.calls[c].id != id
  }

  predicate IsCall(s: State, c: nat, phase: Phase) {
    c < |s.calls| && s.calls[c].phase == phase
  }

  function To(calls: seq<Call>, c: nat, phase: Phase): seq<Call>
    requires c < |calls|
  {
    calls[c := calls[c].(phase := phase)]
  }

  /** The response channel of a call has room. */
  predicate Room(s: State, c: nat) {
    c < |s.calls| && |s.calls[c].results| <= s.calls[c].taken
  }

  function Deliver(calls: seq<Call>, c: nat, result: Result): seq<Call>
    requires c < |calls|
  {
    calls[c := calls[c].(results := calls[c].results + [result])]
  }

  /** A caller's step. A send on a closed channel panics. */
  function CallerNext(s: State, step: Step): Option<State> {
    match step
    case Lock(c) =>
      if IsCall(s, c, Entering) && s.mutex.Unlocked? then Some(s.(calls := To(s.calls, c, Locked), mutex := HeldByCaller(c)))
      else None
    case Check(c) =>
      if !IsCall(s, c, Locked) then None
      else if s.handleValid then Some(s.(calls := To(s.calls, c, Checked)))
      else
        var back := To(s.calls, c, Done);
        Some(s.(calls := if s.calls[c].expecting then Deliver(back, c, Failed) else back, mutex := Unlocked))
    case Send(c) =>
      if !IsCall(s, c, Checked) then None
      else if s.closed then Some(s.(panicked := true))
      else if |s.requestChan| >= CAPACITY then None
      else Some(s.(calls := To(s.calls, c, Done), mutex := Unlocked, requestChan := s.requestChan + [c]))
    case Take(c) =>
      if c < |s.calls| && s.calls[c].taken < |s.calls[c].results| then
        Some(s.(calls := s.calls[c := s.calls[c].(taken := s.calls[c].taken + 1)]))
      else None
    case _ => None
  }

  /** A new call. A zero id where one is needed, or the other way round, is
      answered at once; otherwise callers issue each id once. */
  ghost function NewCallNext(s: State, expecting: bool, id: nat): Option<State> {
    if expecting && id != 0 && !FreshId(s, id) then None
    else
      var results := if expecting && id == 0 then [Failed] else [];
      Some(s.(calls := s.calls + [Call(expecting, id, if expecting == (id != 0) then Entering else Done, results, 0)]))
  }

  /** The worker's run loop and the async waiter that answers its waits. */
  function LoopNext(s: State, step: Step): Option<State> {
    match step
    case WaitAnswered(failed) =>
      if s.registered > 0 && |s.waitChan| < 1 then
        Some(s.(registered := s.registered - 1, waitChan := s.waitChan + [failed]))
      else None
    case SelectWait =>
      if s.worker.Select? && s.waitChan != [] then
        Some(s.(waitId := 0, waitChan := s.waitChan[1..], worker := if s.waitChan[0] then Failing else Dispatch))
      else None
    case SelectRequest =>
      if s.worker.Select? && s.requestChan != [] then
        Some(s.(requestChan := s.requestChan[1..], worker := InHand(s.requestChan[0])))
      else None
    case SelectDone =>
      if s.worker.Select? && s.done then Some(s.(worker := Failing)) else None
    case Write(failed) =>
      if s.worker.InHand? && s.worker.call < |s.calls| then
        var c := s.worker.call;
        Some(s.(worker := if failed then Failing else Dispatch,
                responders := if s.calls[c].expecting then s.responders[s.calls[c].id := c] else s.responders))
      else None
    case DispatchDone =>
      if s.worker.Dispatch? && (s.waitId != 0 || s.responders == map[]) then Some(s.(worker := Select)) else None
    case _ => None
  }

  predicate Reading(s: State) {
    s.worker.Dispatch? && s.waitId == 0 && s.responders != map[]
  }

  /** Reading the next message while somebody waits for a response. */
  function ReadNext(s: State, step: Step): Option<State> {
    match step
    case ReadMessage(id) =>
      if !Reading(s) then None
      else if id !in s.responders then Some(s.(worker := Stuck))
      else if Room(s, s.responders[id]) then
        Some(s.(calls := Deliver(s.calls, s.responders[id], Reply(id)), responders := s.responders - {id}))
      else None
    case ReadShouldWait(waitId) =>
      if Reading(s) && waitId != 0 then
        Some(s.(waitId := waitId, registered := s.registered + 1, worker := Select))
      else None
    case ReadFails =>
      if Reading(s) then Some(s.(worker := Failing)) else None
    case _ => None
  }

  /** What happens once the run loop has returned an error. */
  function StopNext(s: State, step: Step): Option<State> {
    match step
    case Cancel =>
      if s.worker.Failing? then Some(s.(waitId := 0, worker := Answering(s.responders.Keys))) else None
    case AnswerResponder(id) =>
      if s.worker.Answering? && id in s.worker.todo && id in s.responders && Room(s, s.responders[id]) then
        Some(s.(calls := Deliver(s.calls, s.responders[id], Failed), worker := Answering(s.worker.todo - {id})))
      else None
    case StartDrain =>
      if s.worker == Answering({}) then Some(s.(worker := Locking, drainer := Receiving)) else None
    case LockToClose =>
      if s.worker.Locking? && s.mutex.Unlocked? then Some(s.(worker := Closing, mutex := HeldByWorker)) else None
    case CloseHandle =>
      if s.worker.Closing? then Some(s.(worker := HandleClosed, handleValid := false)) else None
    case CloseRequests =>
      if s.worker.HandleClosed? then Some(s.(worker := Ended, closed := true, mutex := Unlocked)) else None
    case DrainTake =>
      if s.drainer.Receiving? && s.requestChan != [] then
        Some(s.(requestChan := s.requestChan[1..], drainer := Holding(s.requestChan[0])))
      else None
    case DrainAnswer =>
      if s.drainer.Holding? && s.drainer.call < |s.calls| then
        if !s.calls[s.drainer.call].expecting then Some(s.(drainer := Lost))
        else if Room(s, s.drainer.call) then Some(s.(calls := Deliver(s.calls, s.drainer.call, Failed), drainer := Receiving))
        else None
      else None
    case DrainEnd =>
      if s.drainer.Receiving? && s.requestChan == [] && s.closed then Some(s.(drainer := Finished)) else None
    case _ => None
  }

  predicate CallerStep(step: Step) { step.Lock? || step.Check? || step.Send? || step.Take? }

  predicate LoopStep(step: Step) {
    step.WaitAnswered? || step.SelectWait? || step.SelectRequest? || step.SelectDone? || step.Write? || step.DispatchDone?
  }

  predicate ReadStep(step: Step) { step.ReadMessage? || step.ReadShouldWait? || step.ReadFails? }

  /** The state after a step, or none when the step is not possible, which for a
      channel or mutex operation means that it blocks. */
  ghost function Next(s: State, step: Step): Option<State> {
    if s.panicked then None
    else if step.NewCall? then NewCallNext(s, step.expecting, step.id)
    else if step.Close? then Some(s.(done := true))
    else if CallerStep(step) then CallerNext(s, step)
    else if LoopStep(step) then LoopNext(s, step)
    else if ReadStep(step) then ReadNext(s, step)
    else StopNext(s, step)
  }

  /** The state at the end of a run, or none when some step was not possible. */
  ghost function Run(steps: seq<Step>): Option<State> {
    if steps == [] then Some(INITIAL)
    else
      var before := Run(steps[..|steps| - 1]);
      if before.None? then None else Next(before.value, steps[|steps| - 1])
  }

  // ---- Conservation of requests ----

  /** The responders that have not been answered yet. */
  ghost function Waiting(worker: Worker, responders: map<nat, nat>): set<nat> {
    match worker
    case Answering(todo) => todo
    case Locking => {}
    case Closing => {}
    case HandleClosed => {}
    case Ended => {}
    case _ => responders.Keys
  }

  ghost predicate InTable(c: int, id: nat, worker: Worker, responders: map<nat, nat>) {
    id in Waiting(worker, responders) && id in responders && responders[id] == c
  }

  ghost function One(b: bool): nat { if b then 1 else 0 }

  /** In how many places a call is: on its way in, in the request queue, in the
      worker's or the drainer's hand, in the table under its own id, answered. */
  ghost function Places(s: State, c: int): nat
    requires 0 <= c < |s.calls|
  {
    Kept(s.calls[c]) + multiset(s.requestChan)[c] + Held(c, s.worker, s.drainer)
      + One(InTable(c, s.calls[c].id, s.worker, s.responders))
  }

  ghost function Kept(call: Call): nat {
    One(!call.phase.Done?) + |call.results|
  }

  ghost function Held(c: nat, worker: Worker, drainer: Drainer): nat {
    One(worker == InHand(c)) + One(drainer == Holding(c))
  }

  ghost predicate Conserved(s: State) {
    forall c | 0 <= c < |s.calls| && s.calls[c].expecting :: Places(s, c) == 1
  }

  /** The worker has answered its responders. */
  predicate Stopping(worker: Worker) {
    worker.Locking? || worker.Closing? || worker.HandleClosed? || worker.Ended?
  }

  /** Whatever is queued, held or registered is a call, the last under its id. */
  ghost predicate Known(s: State) {
    && (s.drainer.NotStarted? <==> !Stopping(s.worker))
    && (forall c | c in s.requestChan :: c < |s.calls|)
    && (s.worker.InHand? ==> s.worker.call < |s.calls|)
    && (s.drainer.Holding? ==> s.drainer.call < |s.calls|)
    && (forall id | id in s.responders :: s.responders[id] < |s.calls| && s.calls[s.responders[id]].id == id
         && s.calls[s.responders[id]].expecting)
    && Waiting(s.worker, s.responders) <= s.responders.Keys
    && (forall c | 0 <= c < |s.calls| && s.calls[c].expecting && s.calls[c].id == 0 :: s.calls[c].results != [])
  }

  ghost predicate DistinctIds(s: State) {
    forall c, d | 0 <= c < d < |s.calls| && s.calls[c].expecting && s.calls[d].expecting && s.calls[c].id != 0 ::
      s.calls[c].id != s.calls[d].id
  }

  /** Replies reach the request they answer. */
  ghost predicate Routed(calls: seq<Call>) {
    forall c | 0 <= c < |calls| :: RoutedCall(calls[c])
  }

  ghost predicate RoutedCall(call: Call) {
    forall r | r in call.results :: r.Reply? ==> r.id == call.id
  }

  ghost predicate Accounts(s: State) {
    Conserved(s) && Known(s) && DistinctIds(s)
  }

  lemma PopCount(q: seq<nat>, c: int)
    requires q != []
    ensures multiset(q)[c] == multiset(q[1..])[c] + One(q[0] == c)
  {
    assert q == [q[0]] + q[1..];
  }

  lemma PushCount(q: seq<nat>, x: nat, c: int)
    ensures multiset(q + [x])[c] == multiset(q)[c] + One(x == c)
  {
  }

  /** The calls are the same ones. */
  ghost predicate SameCalls(s: State, t: State) {
    && |t.calls| == |s.calls|
    && (forall c | 0 <= c < |s.calls| :: t.calls[c].expecting == s.calls[c].expecting && t.calls[c].id == s.calls[c].id
          && s.calls[c].results <= t.calls[c].results)
  }

  lemma Reassemble(s: State, t: State)
    requires Accounts(s) && SameCalls(s, t) && Known(t)
    requires forall c | 0 <= c < |s.calls| && s.calls[c].expecting :: Places(t, c) == Places(s, c)
    ensures Accounts(t)
  {
    hide Places, Known;
    assert DistinctIds(t);
  }

  lemma SameTable(s: State, t: State)
    requires Known(s) && SameCalls(s, t) && t.responders == s.responders
    requires Waiting(t.worker, t.responders) <= Waiting(s.worker, s.responders)
    requires forall c | c in t.requestChan :: c < |s.calls|
    requires t.drainer.NotStarted? <==> !Stopping(t.worker)
    requires t.worker == s.worker || !t.worker.InHand? || t.worker.call < |s.calls|
    requires t.drainer == s.drainer || !t.drainer.Holding? || t.drainer.call < |s.calls|
    ensures Known(t)
  {
  }

  lemma CallerPlaces(s: State, step: Step, c: nat)
    requires CallerStep(step) && CallerNext(s, step).Some? && c < |s.calls|
    requires s.calls[c].expecting
    ensures c < |CallerNext(s, step).value.calls|
    ensures Places(CallerNext(s, step).value, c) == Places(s, c)
  {
    hide Waiting, InTable, Held;
    if step.Send? {
      PushCount(s.requestChan, step.call, c);
    }
  }

  lemma CallerSame(s: State, step: Step)
    requires CallerStep(step) && CallerNext(s, step).Some?
    ensures SameCalls(s, CallerNext(s, step).value)
  {
  }

  lemma CallerKnown(s: State, step: Step)
    requires Known(s) && CallerStep(step) && CallerNext(s, step).Some?
    ensures Known(CallerNext(s, step).value)
  {
    hide Waiting;
    CallerSame(s, step);
    SameTable(s, CallerNext(s, step).value);
  }

  lemma CallerAccounts(s: State, step: Step)
    requires Accounts(s) && CallerStep(step) && CallerNext(s, step).Some?
    ensures Accounts(CallerNext(s, step).value)
  {
    hide Places, CallerNext, Known;
    var t := CallerNext(s, step).value;
    CallerSame(s, step);
    forall c | 0 <= c < |s.calls| && s.calls[c].expecting ensures Places(t, c) == Places(s, c) {
      CallerPlaces(s, step, c);
    }
    CallerKnown(s, step);
    Reassemble(s, t);
  }

  lemma LoopPlaces(s: State, step: Step, c: nat)
    requires LoopStep(step) && LoopNext(s, step).Some? && !step.Write? && c < |s.calls|
    ensures Places(LoopNext(s, step).value, c) == Places(s, c)
  {
    if step.SelectRequest? {
      PopCount(s.requestChan, c);
    }
  }

  /** Registering a responder moves the request out of the worker's hand. */
  lemma WritePlaces(s: State, failed: bool, c: nat)
    requires Accounts(s) && LoopNext(s, Write(failed)).Some? && c < |s.calls| && s.calls[c].expecting
    ensures Places(LoopNext(s, Write(failed)).value, c) == Places(s, c)
  {
    var h := s.worker.call;
    assert Places(s, c) == 1;
    if s.calls[h].expecting {
      assert Places(s, h) == 1;
    }
  }

  lemma PopKnown(s: State)
    requires Known(s) && s.requestChan != []
    ensures s.requestChan[0] < |s.calls|
    ensures forall c | c in s.requestChan[1..] :: c < |s.calls|
  {
    assert s.requestChan[0] in s.requestChan;
    assert forall c | c in s.requestChan[1..] :: c in s.requestChan;
  }

  lemma LoopKnown(s: State, step: Step)
    requires Known(s) && LoopStep(step) && LoopNext(s, step).Some?
    ensures SameCalls(s, LoopNext(s, step).value)
    ensures Known(LoopNext(s, step).value)
  {
    var t := LoopNext(s, step).value;
    if step.Write? {
      assert t.requestChan == s.requestChan && t.drainer == s.drainer;
    } else if step.SelectRequest? {
      PopKnown(s);
      SameTable(s, t);
    } else {
      SameTable(s, t);
    }
  }

  lemma LoopAccounts(s: State, step: Step)
    requires Accounts(s) && LoopStep(step) && LoopNext(s, step).Some?
    ensures Accounts(LoopNext(s, step).value)
  {
    hide Places, LoopNext, Known;
    var t := LoopNext(s, step).value;
    LoopKnown(s, step);
    forall c | 0 <= c < |s.calls| && s.calls[c].expecting ensures Places(t, c) == Places(s, c) {
      if step.Write? {
        WritePlaces(s, step.failed, c);
      } else {
        LoopPlaces(s, step, c);
      }
    }
    Reassemble(s, t);
  }

  lemma DeliverAt(calls: seq<Call>, c: nat, result: Result, d: nat)
    requires c < |calls| && d < |calls|
    ensures |Deliver(calls, c, result)| == |calls|
    ensures var call := Deliver(calls, c, result)[d];
      && call.id == calls[d].id && call.expecting == calls[d].expecting
      && calls[d].results <= call.results && Kept(call) == Kept(calls[d]) + One(c == d)
  {
  }

  lemma DeliverSame(s: State, t: State, c: nat, result: Result)
    requires c < |s.calls| && t.calls == Deliver(s.calls, c, result)
    ensures SameCalls(s, t)
  {
  }

  /** A reply moves its request from the table to the answered ones. */
  lemma ReplyPlaces(s: State, id: nat, c: nat)
    requires Known(s) && ReadNext(s, ReadMessage(id)).Some? && c < |s.calls|
    ensures Places(ReadNext(s, ReadMessage(id)).value, c) == Places(s, c)
  {
    hide Deliver, Kept;
    if id in s.responders {
      DeliverAt(s.calls, s.responders[id], Reply(id), c);
    }
  }

  lemma ReadPlaces(s: State, step: Step, c: nat)
    requires Known(s) && ReadStep(step) && ReadNext(s, step).Some? && c < |s.calls|
    ensures Places(ReadNext(s, step).value, c) == Places(s, c)
  {
    hide Kept;
    if step.ReadMessage? {
      ReplyPlaces(s, step.id, c);
    }
  }

  lemma ReadKnown(s: State, step: Step)
    requires Known(s) && ReadStep(step) && ReadNext(s, step).Some?
    ensures SameCalls(s, ReadNext(s, step).value)
    ensures Known(ReadNext(s, step).value)
  {
    hide Deliver;
    var t := ReadNext(s, step).value;
    if step.ReadMessage? && step.id in s.responders {
      DeliverSame(s, t, s.responders[step.id], Reply(step.id));
      assert t.requestChan == s.requestChan && t.drainer == s.drainer;
    } else {
      SameTable(s, t);
    }
  }

  lemma ReadAccounts(s: State, step: Step)
    requires Accounts(s) && ReadStep(step) && ReadNext(s, step).Some?
    ensures Accounts(ReadNext(s, step).value)
  {
    hide Places, ReadNext, Known;
    var t := ReadNext(s, step).value;
    ReadKnown(s, step);
    forall c | 0 <= c < |s.calls| && s.calls[c].expecting ensures Places(t, c) == Places(s, c) {
      ReadPlaces(s, step, c);
    }
    Reassemble(s, t);
  }

  predicate StopStep(step: Step) {
    !step.NewCall? && !step.Close? && !CallerStep(step) && !LoopStep(step) && !ReadStep(step)
  }

  lemma AnswerPlaces(s: State, id: nat, c: nat)
    requires Known(s) && StopNext(s, AnswerResponder(id)).Some? && c < |s.calls|
    ensures Places(StopNext(s, AnswerResponder(id)).value, c) == Places(s, c)
  {
    hide Deliver, Kept;
    DeliverAt(s.calls, s.responders[id], Failed, c);
  }

  lemma DrainPlaces(s: State, c: nat)
    requires StopNext(s, DrainAnswer).Some? && c < |s.calls| && s.calls[c].expecting
    ensures c < |StopNext(s, DrainAnswer).value.calls|
    ensures Places(StopNext(s, DrainAnswer).value, c) == Places(s, c)
  {
    hide Deliver, Kept, InTable, Waiting;
    DeliverAt(s.calls, s.drainer.call, Failed, c);
  }

  lemma StopPlaces(s: State, step: Step, c: nat)
    requires Known(s) && StopStep(step) && StopNext(s, step).Some? && c < |s.calls| && s.calls[c].expecting
    ensures Places(StopNext(s, step).value, c) == Places(s, c)
  {
    hide Deliver, Kept;
    if step.DrainTake? {
      PopCount(s.requestChan, c);
    } else if step.DrainAnswer? {
      DrainPlaces(s, c);
    } else if step.AnswerResponder? {
      AnswerPlaces(s, step.id, c);
    }
  }

  lemma StopKnown(s: State, step: Step)
    requires Known(s) && StopStep(step) && StopNext(s, step).Some?
    ensures SameCalls(s, StopNext(s, step).value)
    ensures Known(StopNext(s, step).value)
  {
    hide Deliver;
    var t := StopNext(s, step).value;
    if step.DrainTake? {
      PopKnown(s);
    } else if step.DrainAnswer? && s.calls[s.drainer.call].expecting {
      DeliverSame(s, t, s.drainer.call, Failed);
    } else if step.AnswerResponder? {
      DeliverSame(s, t, s.responders[step.id], Failed);
    }
    SameTable(s, t);
  }

  lemma StopAccounts(s: State, step: Step)
    requires Accounts(s) && StopStep(step) && StopNext(s, step).Some?
    ensures Accounts(StopNext(s, step).value)
  {
    hide Places, StopNext, Known;
    var t := StopNext(s, step).value;
    StopKnown(s, step);
    forall c | 0 <= c < |s.calls| && s.calls[c].expecting ensures Places(t, c) == Places(s, c) {
      StopPlaces(s, step, c);
    }
    Reassemble(s, t);
  }

  lemma NewCallAccounts(s: State, expecting: bool, id: nat)
    requires Accounts(s) && NewCallNext(s, expecting, id).Some?
    ensures Accounts(NewCallNext(s, expecting, id).value)
  {
    var t := NewCallNext(s, expecting, id).value;
    forall c | 0 <= c < |t.calls| && t.calls[c].expecting ensures Places(t, c) == 1 {
      if c < |s.calls| {
        assert Places(s, c) == 1;
      } else {
        assert c !in s.requestChan;
      }
    }
    assert Known(t);
  }

  lemma AccountsStep(s: State, step: Step)
    requires Accounts(s) && Next(s, step).Some?
    ensures Accounts(Next(s, step).value)
  {
    hide Accounts, CallerNext, LoopNext, ReadNext, StopNext, NewCallNext;
    if step.NewCall? {
      NewCallAccounts(s, step.expecting, step.id);
    } else if step.Close? {
      SameAccounts(s, s.(done := true));
    } else if CallerStep(step) {
      CallerAccounts(s, step);
    } else if LoopStep(step) {
      LoopAccounts(s, step);
    } else if ReadStep(step) {
      ReadAccounts(s, step);
    } else {
      StopAccounts(s, step);
    }
  }

  lemma SameAccounts(s: State, t: State)
    requires Accounts(s) && t == s.(done := true)
    ensures Accounts(t)
  {
    SameTable(s, t);
    Reassemble(s, t);
  }
}
