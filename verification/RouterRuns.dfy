/**
  What holds in every state of every run of the router, and how a router that
  has stopped answers everyone.
*/
module RouterRuns {
  import opened Wire
  import opened Router

  // ---- The mutex, and the request channel that is closed once ----

  ghost predicate HasMutex(s: State, c: int) {
    s.mutex.HeldByCaller? && s.mutex.call == c
  }

  ghost predicate Exclusive(s: State) {
    && !s.panicked
    && (forall c | 0 <= c < |s.calls| :: (s.calls[c].phase.Locked? || s.calls[c].phase.Checked?) <==> HasMutex(s, c))
    && (s.mutex.HeldByCaller? ==> s.mutex.call < |s.calls|)
    && (s.mutex.HeldByWorker? <==> s.worker.Closing? || s.worker.HandleClosed?)
    && (s.handleValid <==> !s.worker.HandleClosed? && !s.worker.Ended?)
    && (s.closed <==> s.worker.Ended?)
    && (forall c | 0 <= c < |s.calls| && s.calls[c].phase.Checked? :: s.handleValid)
    && (s.drainer.Finished? ==> s.closed && s.requestChan == [])
  }

  lemma CallerExclusive(s: State, step: Step)
    requires Exclusive(s) && CallerStep(step) && CallerNext(s, step).Some?
    ensures Exclusive(CallerNext(s, step).value)
  {
  }

  ghost predicate SamePhases(s: State, t: State) {
    |t.calls| == |s.calls| && forall c | 0 <= c < |s.calls| :: t.calls[c].phase == s.calls[c].phase
  }

  lemma SameExclusive(s: State, t: State)
    requires Exclusive(s) && SamePhases(s, t)
    requires t.mutex == s.mutex && t.handleValid == s.handleValid && t.closed == s.closed && t.panicked == s.panicked
    requires t.worker == s.worker || (!Stopping(s.worker) && (!Stopping(t.worker) || t.worker.Locking?))
    requires s.drainer.Finished? <==> t.drainer.Finished?
    requires t.requestChan == s.requestChan || !t.drainer.Finished?
    ensures Exclusive(t)
  {
    hide Stopping;
    StoppingMeans(s.worker);
    StoppingMeans(t.worker);
    assert forall c | 0 <= c < |t.calls| :: HasMutex(t, c) == HasMutex(s, c);
  }

  lemma StoppingMeans(worker: Worker)
    ensures !Stopping(worker) ==> !worker.Locking? && !worker.Closing? && !worker.HandleClosed? && !worker.Ended?
  {
  }

  lemma LoopExclusive(s: State, step: Step)
    requires Exclusive(s) && Known(s) && LoopStep(step) && LoopNext(s, step).Some?
    ensures Exclusive(LoopNext(s, step).value)
  {
    hide Exclusive;
    SameExclusive(s, LoopNext(s, step).value);
  }

  lemma ReadExclusive(s: State, step: Step)
    requires Exclusive(s) && Known(s) && ReadStep(step) && ReadNext(s, step).Some?
    ensures Exclusive(ReadNext(s, step).value)
  {
    hide Exclusive;
    SameExclusive(s, ReadNext(s, step).value);
  }

  predicate CloseStep(step: Step) { step.LockToClose? || step.CloseHandle? || step.CloseRequests? }

  lemma CloseExclusive(s: State, step: Step)
    requires Exclusive(s) && CloseStep(step) && StopNext(s, step).Some?
    ensures Exclusive(StopNext(s, step).value)
  {
    var t := StopNext(s, step).value;
    assert t.calls == s.calls;
    assert forall c | 0 <= c < |t.calls| :: HasMutex(t, c) == HasMutex(s, c);
  }

  lemma DrainExclusive(s: State, step: Step)
    requires Exclusive(s) && Known(s) && (step.DrainTake? || step.DrainAnswer?) && StopNext(s, step).Some?
    ensures Exclusive(StopNext(s, step).value)
  {
    hide Exclusive;
    SameExclusive(s, StopNext(s, step).value);
  }

  lemma StopExclusive(s: State, step: Step)
    requires Exclusive(s) && Known(s) && StopStep(step) && StopNext(s, step).Some?
    ensures Exclusive(StopNext(s, step).value)
  {
    if CloseStep(step) {
      CloseExclusive(s, step);
    } else if step.DrainTake? || step.DrainAnswer? {
      DrainExclusive(s, step);
    } else if step.DrainEnd? {
      assert StopNext(s, step).value == s.(drainer := Finished);
    } else {
      SameExclusive(s, StopNext(s, step).value);
    }
  }

  lemma NewCallExclusive(s: State, expecting: bool, id: nat)
    requires Exclusive(s) && NewCallNext(s, expecting, id).Some?
    ensures Exclusive(NewCallNext(s, expecting, id).value)
  {
    var t := NewCallNext(s, expecting, id).value;
    assert forall c | 0 <= c < |s.calls| :: t.calls[c] == s.calls[c] && HasMutex(t, c) == HasMutex(s, c);
  }

  lemma ExclusiveStep(s: State, step: Step)
    requires Exclusive(s) && Known(s) && Next(s, step).Some?
    ensures Exclusive(Next(s, step).value)
  {
    hide Exclusive, Known, CallerNext, LoopNext, ReadNext, StopNext, NewCallNext;
    if step.NewCall? {
      NewCallExclusive(s, step.expecting, step.id);
    } else if step.Close? {
      SameExclusive(s, Next(s, step).value);
    } else if CallerStep(step) {
      CallerExclusive(s, step);
    } else if LoopStep(step) {
      LoopExclusive(s, step);
    } else if ReadStep(step) {
      ReadExclusive(s, step);
    } else {
      StopExclusive(s, step);
    }
  }

  // ---- The wait on the message channel ----

  /** The wait the worker knows of is the one that the waiter still has to answer
      or has answered into the wait channel; in the run loop there is one exactly
      when a responder is pending. */
  ghost predicate OneWait(s: State) {
    && s.registered + |s.waitChan| <= 1
    && (!s.worker.Answering? && !Stopping(s.worker) ==> s.registered + |s.waitChan| == One(s.waitId != 0))
    && (s.worker.Select? || s.worker.InHand? ==> (s.waitId != 0 <==> s.responders != map[]))
    && (s.worker.Dispatch? && s.waitId != 0 ==> s.responders != map[])
  }

  lemma LoopOneWait(s: State, step: Step)
    requires OneWait(s) && LoopStep(step) && LoopNext(s, step).Some?
    ensures OneWait(LoopNext(s, step).value)
  {
    var t := LoopNext(s, step).value;
    if step.Write? && s.calls[s.worker.call].expecting {
      assert s.calls[s.worker.call].id in t.responders;
    }
  }

  lemma ReadOneWait(s: State, step: Step)
    requires OneWait(s) && ReadStep(step) && ReadNext(s, step).Some?
    ensures OneWait(ReadNext(s, step).value)
  {
  }

  lemma StopOneWait(s: State, step: Step)
    requires OneWait(s) && StopStep(step) && StopNext(s, step).Some?
    ensures OneWait(StopNext(s, step).value)
  {
  }

  lemma OneWaitStep(s: State, step: Step)
    requires OneWait(s) && Next(s, step).Some?
    ensures OneWait(Next(s, step).value)
  {
    hide LoopNext, ReadNext, StopNext;
    if LoopStep(step) {
      LoopOneWait(s, step);
    } else if ReadStep(step) {
      ReadOneWait(s, step);
    } else if StopStep(step) {
      StopOneWait(s, step);
    } else {
      var t := Next(s, step).value;
      assert t.worker == s.worker && t.responders == s.responders && t.waitId == s.waitId
          && t.registered == s.registered && t.waitChan == s.waitChan;
    }
  }

  // ---- Replies ----

  lemma DeliverRouted(calls: seq<Call>, c: nat, result: Result)
    requires Routed(calls) && c < |calls| && (result.Reply? ==> result.id == calls[c].id)
    ensures Routed(Deliver(calls, c, result))
  {
  }

  lemma CallerRouted(s: State, step: Step)
    requires Routed(s.calls) && CallerStep(step) && CallerNext(s, step).Some?
    ensures Routed(CallerNext(s, step).value.calls)
  {
    if step.Check? && !s.handleValid {
      assert Routed(To(s.calls, step.call, Done));
      DeliverRouted(To(s.calls, step.call, Done), step.call, Failed);
    }
  }

  /** Any result that a step adds is an error or the reply with the call's id. */
  lemma RoutedStep(s: State, step: Step)
    requires Routed(s.calls) && Known(s) && Next(s, step).Some?
    ensures Routed(Next(s, step).value.calls)
  {
    hide Routed, Waiting, Deliver, CallerNext;
    var t := Next(s, step).value;
    if step.NewCall? {
      NewCallRouted(s, step.expecting, step.id);
    } else if CallerStep(step) {
      CallerRouted(s, step);
    } else if step.ReadMessage? && step.id in s.responders {
      DeliverRouted(s.calls, s.responders[step.id], Reply(step.id));
    } else if step.AnswerResponder? {
      DeliverRouted(s.calls, s.responders[step.id], Failed);
    } else if step.DrainAnswer? {
      DeliverRouted(s.calls, s.drainer.call, Failed);
    } else {
      assert t.calls == s.calls;
    }
  }

  lemma NewCallRouted(s: State, expecting: bool, id: nat)
    requires Routed(s.calls) && NewCallNext(s, expecting, id).Some?
    ensures Routed(NewCallNext(s, expecting, id).value.calls)
  {
    var t := NewCallNext(s, expecting, id).value;
    assert forall c | 0 <= c < |s.calls| :: t.calls[c] == s.calls[c];
  }

  ghost predicate Inv(s: State) {
    Accounts(s) && Exclusive(s) && OneWait(s) && Routed(s.calls)
  }

  lemma InitialInv()
    ensures Inv(INITIAL)
  {
  }

  lemma InvStep(s: State, step: Step)
    requires Inv(s) && Next(s, step).Some?
    ensures Inv(Next(s, step).value)
  {
    hide Conserved, Known, DistinctIds, Exclusive, OneWait, Routed, CallerNext, LoopNext, ReadNext, StopNext, NewCallNext;
    AccountsStep(s, step);
    ExclusiveStep(s, step);
    OneWaitStep(s, step);
    RoutedStep(s, step);
  }

  /** Every state of every run satisfies the invariant. */
  lemma {:induction false} RunInv(steps: seq<Step>)
    requires Run(steps).Some?
    ensures Inv(Run(steps).value)
    decreases |steps|
  {
    hide Inv, Next;
    if steps == [] {
      InitialInv();
    } else {
      RunInv(steps[..|steps| - 1]);
      InvStep(Run(steps[..|steps| - 1]).value, steps[|steps| - 1]);
    }
  }

  /** Conservation: every request that expects a response is in exactly one
      place, so its channel gets at most one result, and a reply only under the
      id it was sent with. */
  lemma Conservation(steps: seq<Step>)
    requires Run(steps).Some?
    ensures forall c | 0 <= c < |Run(steps).value.calls| && Run(steps).value.calls[c].expecting ::
      Places(Run(steps).value, c) == 1 && |Run(steps).value.calls[c].results| <= 1 && RoutedCall(Run(steps).value.calls[c])
  {
    hide Run, Known, DistinctIds, Exclusive, OneWait, InTable;
    RunInv(steps);
  }

  lemma PlacedHasRoom(s: State, c: nat)
    requires c < |s.calls| && Places(s, c) == 1
    requires InTable(c, s.calls[c].id, s.worker, s.responders) || s.drainer == Holding(c)
    ensures Room(s, c)
  {
  }

  /** A send on a response channel never blocks: not for a reply, not when the
      worker stops, not when the queue is drained. */
  lemma ResponsesNeverBlock(steps: seq<Step>)
    requires Run(steps).Some?
    ensures var s := Run(steps).value;
      && (forall id | id in s.responders && Reading(s) :: Next(s, ReadMessage(id)).Some?)
      && (s.worker.Answering? ==> forall id | id in s.worker.todo :: Next(s, AnswerResponder(id)).Some?)
      && (s.drainer.Holding? ==> Next(s, DrainAnswer).Some?)
  {
    hide Run, DistinctIds, OneWait, Routed, Places, Room;
    RunInv(steps);
    var s := Run(steps).value;
    forall id | id in Waiting(s.worker, s.responders) ensures Room(s, s.responders[id]) {
      PlacedHasRoom(s, s.responders[id]);
    }
    if s.drainer.Holding? && s.calls[s.drainer.call].expecting {
      PlacedHasRoom(s, s.drainer.call);
    }
  }

  /** Nothing is sent on the request channel once it is closed. */
  lemma NoSendAfterClose(steps: seq<Step>)
    requires Run(steps).Some?
    ensures var s := Run(steps).value;
      !s.panicked && (s.closed ==> forall c | 0 <= c < |s.calls| :: !s.calls[c].phase.Checked?)
  {
    RunInv(steps);
  }

  /** Back at its select, the worker waits for messages exactly when a responder
      is pending, and never holds two waits, so the waiter never blocks either. */
  lemma WaitsWhenNeeded(steps: seq<Step>)
    requires Run(steps).Some?
    ensures var s := Run(steps).value;
      && (s.worker.Select? ==> (s.waitId != 0 <==> s.responders != map[]))
      && (s.worker.Select? ==> s.registered + |s.waitChan| == One(s.waitId != 0))
      && (s.registered > 0 ==> s.waitChan == [])
  {
    RunInv(steps);
  }
}
