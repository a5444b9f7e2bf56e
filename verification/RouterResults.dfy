/**
  Which result a caller of the router gets: the reply, exactly if a message with its
  id was read while it was registered, and an error, exactly if it was turned away,
  or still waiting when the router stopped.
*/
module RouterResults {
  import opened Wire
  import opened Router
  import opened RouterRuns

  /** The step reads the message that call `c` is registered for. */
  predicate Replies(s: State, step: Step, c: nat) {
    c < |s.calls| && step == ReadMessage(s.calls[c].id) && s.calls[c].id in s.responders && s.responders[s.calls[c].id] == c
  }

  /** The step turns call `c` away: its id is zero, the handle is closed, the router
      stops while it is registered, or finds it in the queue. */
  predicate Fails(s: State, step: Step, c: nat) {
    if c < |s.calls| then s.calls[c].expecting && TurnsAway(s, step, c) else c == |s.calls| && step == NewCall(true, 0)
  }

  predicate TurnsAway(s: State, step: Step, c: nat)
    requires c < |s.calls|
  {
    || (step == Check(c) && !s.handleValid)
    || (step == AnswerResponder(s.calls[c].id) && s.calls[c].id in s.responders && s.responders[s.calls[c].id] == c)
    || (step == DrainAnswer && s.drainer == Holding(c))
  }

  ghost predicate RepliedAt(steps: seq<Step>, k: int, c: nat) {
    0 <= k < |steps| && Run(steps[..k]).Some? && Replies(Run(steps[..k]).value, steps[k], c)
  }

  ghost predicate FailedAt(steps: seq<Step>, k: int, c: nat) {
    0 <= k < |steps| && Run(steps[..k]).Some? && Fails(Run(steps[..k]).value, steps[k], c)
  }

  function Before(s: State, c: nat): seq<Result> { if c < |s.calls| then s.calls[c].results else [] }

  /** The results of call `c` in the new state are the old ones and these. */
  ghost predicate Adds(s: State, t: State, c: nat, more: seq<Result>) {
    c < |s.calls| ==> |t.calls| == |s.calls| && t.calls[c].id == s.calls[c].id && t.calls[c].results == s.calls[c].results + more
  }

  /** What one step adds to the results of a call. */
  lemma StepResults(s: State, step: Step, c: nat)
    requires Known(s) && Next(s, step).Some? && c < |Next(s, step).value.calls|
    ensures var t := Next(s, step).value;
      t.calls[c].results ==
        Before(s, c) + if Replies(s, step, c) then [Reply(t.calls[c].id)] else if Fails(s, step, c) then [Failed] else []
    ensures c < |s.calls| ==> Next(s, step).value.calls[c].id == s.calls[c].id
  {
    hide Known, Replies, Fails, CallerNext, LoopNext, ReadNext, StopNext, NewCallNext;
    if step.NewCall? {
      NewCallResults(s, step.expecting, step.id, c);
    } else if step.Close? {
      CloseResults(s, c);
    } else if CallerStep(step) {
      CallerResults(s, step, c);
    } else if LoopStep(step) {
      LoopResults(s, step, c);
    } else if ReadStep(step) {
      ReadResults(s, step, c);
    } else {
      StopResults(s, step, c);
    }
  }

  lemma CloseResults(s: State, c: nat)
    requires c < |s.calls|
    ensures !Replies(s, Close, c) && !Fails(s, Close, c)
  {
  }

  lemma NewCallResults(s: State, expecting: bool, id: nat, c: nat)
    requires NewCallNext(s, expecting, id).Some? && c < |NewCallNext(s, expecting, id).value.calls|
    ensures var t, step := NewCallNext(s, expecting, id).value, NewCall(expecting, id);
      && |t.calls| == |s.calls| + 1 && !Replies(s, step, c) && (c < |s.calls| ==> t.calls[c] == s.calls[c])
      && t.calls[c].results == Before(s, c) + if Fails(s, step, c) then [Failed] else []
  {
  }

  lemma CallerResults(s: State, step: Step, c: nat)
    requires CallerStep(step) && CallerNext(s, step).Some?
    ensures |CallerNext(s, step).value.calls| == |s.calls| && !Replies(s, step, c)
    ensures Adds(s, CallerNext(s, step).value, c, if Fails(s, step, c) then [Failed] else [])
  {
  }

  lemma LoopResults(s: State, step: Step, c: nat)
    requires LoopStep(step) && LoopNext(s, step).Some?
    ensures LoopNext(s, step).value.calls == s.calls && !Replies(s, step, c)
    ensures c < |s.calls| ==> !Fails(s, step, c)
  {
  }

  lemma DeliverResults(s: State, t: State, c: nat, result: Result, d: nat)
    requires c < |s.calls| && t.calls == Deliver(s.calls, c, result)
    ensures |t.calls| == |s.calls| && Adds(s, t, d, if d == c then [result] else [])
  {
  }

  lemma ReadResults(s: State, step: Step, c: nat)
    requires Known(s) && ReadStep(step) && ReadNext(s, step).Some?
    ensures |ReadNext(s, step).value.calls| == |s.calls| && !Fails(s, step, c)
    ensures Adds(s, ReadNext(s, step).value, c, if Replies(s, step, c) then [Reply(s.calls[c].id)] else [])
  {
    hide Waiting, Deliver;
    if step.ReadMessage? && step.id in s.responders {
      DeliverResults(s, ReadNext(s, step).value, s.responders[step.id], Reply(step.id), c);
    }
  }

  lemma StopResults(s: State, step: Step, c: nat)
    requires Known(s) && StopStep(step) && StopNext(s, step).Some?
    ensures |StopNext(s, step).value.calls| == |s.calls| && !Replies(s, step, c)
    ensures Adds(s, StopNext(s, step).value, c, if Fails(s, step, c) then [Failed] else [])
  {
    hide Deliver, Room, Waiting;
    if step.AnswerResponder? {
      AnswerResults(s, step, c);
    } else if step.DrainAnswer? {
      DrainResults(s, c);
    } else {
      SilentStop(s, step, c);
    }
  }

  lemma AnswerResults(s: State, step: Step, c: nat)
    requires Known(s) && step.AnswerResponder? && StopNext(s, step).Some?
    ensures |StopNext(s, step).value.calls| == |s.calls| && !Replies(s, step, c)
    ensures Adds(s, StopNext(s, step).value, c, if Fails(s, step, c) then [Failed] else [])
  {
    hide Deliver, Room, Waiting;
    DeliverResults(s, StopNext(s, step).value, s.responders[step.id], Failed, c);
  }

  lemma DrainResults(s: State, c: nat)
    requires StopNext(s, DrainAnswer).Some?
    ensures |StopNext(s, DrainAnswer).value.calls| == |s.calls| && !Replies(s, DrainAnswer, c)
    ensures Adds(s, StopNext(s, DrainAnswer).value, c, if Fails(s, DrainAnswer, c) then [Failed] else [])
  {
    hide Deliver, Room;
    if s.calls[s.drainer.call].expecting {
      DeliverResults(s, StopNext(s, DrainAnswer).value, s.drainer.call, Failed, c);
    }
  }

  lemma SilentStop(s: State, step: Step, c: nat)
    requires StopStep(step) && !step.AnswerResponder? && !step.DrainAnswer? && StopNext(s, step).Some?
    ensures StopNext(s, step).value.calls == s.calls && !Replies(s, step, c) && !Fails(s, step, c)
  {
  }

  /** The results of a call are these two kinds, and each is there exactly if one of
      the steps of the run sent it. */
  ghost predicate Told(steps: seq<Step>, c: nat)
    requires Run(steps).Some?
  {
    c < |Run(steps).value.calls| ==>
      var call := Run(steps).value.calls[c];
      && (Reply(call.id) in call.results <==> exists k :: RepliedAt(steps, k, c))
      && (Failed in call.results <==> exists k :: FailedAt(steps, k, c))
      && forall r | r in call.results :: r == Reply(call.id) || r == Failed
  }

  lemma SameAt(steps: seq<Step>, k: int, c: nat)
    requires steps != [] && k < |steps| - 1
    ensures RepliedAt(steps, k, c) == RepliedAt(steps[..|steps| - 1], k, c)
    ensures FailedAt(steps, k, c) == FailedAt(steps[..|steps| - 1], k, c)
  {
    hide Run, Replies, Fails;
    if 0 <= k {
      assert steps[..|steps| - 1][..k] == steps[..k];
    }
  }

  /** The calls of a shorter run are fewer, and nothing has happened to one before it
      was made. */
  lemma {:induction false} NotYet(steps: seq<Step>, c: nat, k: int)
    requires Run(steps).Some? && c >= |Run(steps).value.calls|
    ensures !RepliedAt(steps, k, c) && !FailedAt(steps, k, c)
    decreases |steps|
  {
    hide Next, Replies, Fails;
    if 0 <= k < |steps| {
      var l := |steps| - 1;
      var s := Run(steps[..l]).value;
      CallsGrow(s, steps[l], c);
      if k < l {
        SameAt(steps, k, c);
        NotYet(steps[..l], c, k);
      }
    }
  }

  lemma CallsGrow(s: State, step: Step, c: nat)
    requires Next(s, step).Some? && c >= |Next(s, step).value.calls|
    ensures c >= |s.calls| && !Replies(s, step, c) && !Fails(s, step, c)
  {
    hide Waiting;
  }

  /** Only the last step is new. */
  lemma Earlier(steps: seq<Step>, c: nat)
    requires steps != [] && Run(steps).Some?
    ensures var l := |steps| - 1;
      && Run(steps[..l]).Some?
      && ((exists k :: RepliedAt(steps, k, c)) <==> Replies(Run(steps[..l]).value, steps[l], c) || exists k :: RepliedAt(steps[..l], k, c))
      && ((exists k :: FailedAt(steps, k, c)) <==> Fails(Run(steps[..l]).value, steps[l], c) || exists k :: FailedAt(steps[..l], k, c))
  {
    hide Replies, Fails, Run, RepliedAt, FailedAt;
    var l := |steps| - 1;
    LastRuns(steps);
    AtLast(steps, c);
    if exists k :: RepliedAt(steps[..l], k, c) {
      var k :| RepliedAt(steps[..l], k, c);
      Inside(steps[..l], k, c);
      SameAt(steps, k, c);
    }
    if exists k :: FailedAt(steps[..l], k, c) {
      var k :| FailedAt(steps[..l], k, c);
      Inside(steps[..l], k, c);
      SameAt(steps, k, c);
    }
    if exists k :: RepliedAt(steps, k, c) {
      var k :| RepliedAt(steps, k, c);
      Inside(steps, k, c);
      if k < l {
        SameAt(steps, k, c);
      }
    }
    if exists k :: FailedAt(steps, k, c) {
      var k :| FailedAt(steps, k, c);
      Inside(steps, k, c);
      if k < l {
        SameAt(steps, k, c);
      }
    }
  }

  lemma Inside(steps: seq<Step>, k: int, c: nat)
    ensures RepliedAt(steps, k, c) || FailedAt(steps, k, c) ==> 0 <= k < |steps|
  {
  }

  lemma AtLast(steps: seq<Step>, c: nat)
    requires steps != [] && Run(steps[..|steps| - 1]).Some?
    ensures var l := |steps| - 1;
      && RepliedAt(steps, l, c) == Replies(Run(steps[..l]).value, steps[l], c)
      && FailedAt(steps, l, c) == Fails(Run(steps[..l]).value, steps[l], c)
  {
    hide Replies, Fails, Run;
  }

  lemma LastRuns(steps: seq<Step>)
    requires steps != [] && Run(steps).Some?
    ensures Run(steps[..|steps| - 1]).Some? && Next(Run(steps[..|steps| - 1]).value, steps[|steps| - 1]) == Run(steps)
  {
    hide Next;
  }

  /** Every result of every run: a reply if and only if the message with the call's id
      was read while the call was registered, an error if and only if the call was
      turned away. */
  lemma {:induction false} ResultsExactly(steps: seq<Step>, c: nat)
    requires Run(steps).Some?
    ensures Told(steps, c)
    decreases |steps|
  {
    hide Next, Replies, Fails, Run, RepliedAt, FailedAt;
    if steps == [] {
      NoCalls();
    } else {
      var l := |steps| - 1;
      var front := steps[..l];
      LastRuns(steps);
      var s, step := Run(front).value, steps[l];
      if c < |Run(steps).value.calls| {
        ResultsExactly(front, c);
        RunKnown(front);
        StepResults(s, step, c);
        NotBoth(s, step, c);
        Earlier(steps, c);
        if c >= |s.calls| {
          forall k ensures !RepliedAt(front, k, c) && !FailedAt(front, k, c) {
            NotYet(front, c, k);
          }
        }
      }
    }
  }

  lemma NoCalls()
    ensures Run([]) == Some(INITIAL)
  {
  }

  lemma NotBoth(s: State, step: Step, c: nat)
    ensures !(Replies(s, step, c) && Fails(s, step, c))
  {
  }

  lemma RunKnown(steps: seq<Step>)
    requires Run(steps).Some?
    ensures Known(Run(steps).value)
  {
    hide Run;
    RunInv(steps);
  }
}
