/**
  The worker of the async waiter: three parallel slices whose index 0 is the
  waking event, with swap-removal, seen as a table of pending waits by id.
*/
module Waiter {

  type Signals = set<nat>

  /** `pending` is what the last wait on the handle reported. */
  datatype WaitItem = WaitItem(handle: nat, waitFor: Signals, pending: Signals)
  {
    predicate Satisfied() { pending * waitFor != {} }
  }

  datatype Wait = Wait(handle: nat, signals: Signals, channel: nat)

  datatype Response = Ready(pending: Signals) | Canceled

  /** A response that went out: for which wait, on which channel. */
  datatype Sent = Sent(id: nat, channel: nat, response: Response)

  function Ids(sent: seq<Sent>): set<nat> {
    set i | 0 <= i < |sent| :: sent[i].id
  }

  ghost predicate DistinctIds(sent: seq<Sent>) {
    forall i, j | 0 <= i < j < |sent| :: sent[i].id != sent[j].id
  }

  lemma SendOne(sent: seq<Sent>, s: Sent)
    ensures Ids(sent + [s]) == Ids(sent) + {s.id}
    ensures DistinctIds(sent) && s.id !in Ids(sent) ==> DistinctIds(sent + [s])
  {
    var r := sent + [s];
    assert r[|sent|] == s;
    assert forall i | 0 <= i < |sent| :: r[i] == sent[i] && sent[i].id in Ids(sent);
    assert Ids(r) == Ids(sent) + {s.id};
  }

  lemma SentNone()
    ensures Ids([]) == {}
  {
  }

  lemma SentIds(sent: seq<Sent>)
    ensures forall s | s in sent :: s.id in Ids(sent)
  {
  }

  class AsyncWaiterWorker {
    var items: seq<WaitItem>
    var asyncWaitIds: seq<nat>
    var responses: seq<nat>
    var ids: nat
    /** Everything the worker has sent on response channels. */
    var sent: seq<Sent>
    /** Every wait that was ever given an id. */
    ghost var issued: map<nat, Wait>

    ghost function PendingIds(): set<nat>
      reads this
    {
      set i | 1 <= i < |asyncWaitIds| :: asyncWaitIds[i]
    }

    /** The slices go together and list each pending wait once. */
    ghost predicate Slices()
      reads this
    {
      && |items| == |asyncWaitIds| == |responses| && |items| >= 1
      && asyncWaitIds[0] == 0
      && (forall i | 1 <= i < |items| ::
            && asyncWaitIds[i] in issued
            && issued[asyncWaitIds[i]] == Wait(items[i].handle, items[i].waitFor, responses[i]))
      && (forall i, j | 1 <= i < j < |items| :: asyncWaitIds[i] != asyncWaitIds[j])
    }

    /** Issued ids are 1 up to the counter; each is pending or was answered, not
        both, at most once, and on its own channel. */
    ghost predicate Valid()
      reads this
    {
      && Slices()
      && (forall id: nat :: id in issued <==> 1 <= id <= ids)
      && PendingIds() !! Ids(sent)
      && PendingIds() + Ids(sent) == issued.Keys
      && DistinctIds(sent)
      && (forall s | s in sent :: s.id in issued && s.channel == issued[s.id].channel)
    }

    constructor (wake: nat, signal: nat, channel: nat)
      ensures Valid() && ids == 0 && sent == [] && items == [WaitItem(wake, {signal}, {})]
      ensures PendingIds() == {}
    {
      items := [WaitItem(wake, {signal}, {})];
      asyncWaitIds := [0];
      responses := [channel];
      ids, sent, issued := 0, [], map[];
    }

    /** Overwrite the entry with the last one and drop the last one. */
    method RemoveHandle(index: nat)
      requires Slices() && 1 <= index < |items|
      modifies this`items, this`asyncWaitIds, this`responses
      ensures Slices() && |items| == old(|items|) - 1 && items[0] == old(items[0])
      ensures forall i | 1 <= i < |items| :: var j := if i == index then old(|items|) - 1 else i;
        items[i] == old(items)[j] && asyncWaitIds[i] == old(asyncWaitIds)[j]
      ensures PendingIds() == old(PendingIds()) - {old(asyncWaitIds[index])}
    {
      ghost var was := asyncWaitIds;
      var l := |items| - 1;
      items := items[index := items[l]][..l];
      asyncWaitIds := asyncWaitIds[index := asyncWaitIds[l]][..l];
      responses := responses[index := responses[l]][..l];
      forall id | id in old(PendingIds()) && id != was[index] ensures id in PendingIds() {
        var j :| 1 <= j < |was| && was[j] == id;
        assert asyncWaitIds[if j == l then index else j] == id;
      }
      forall id | id in PendingIds() ensures id in old(PendingIds()) && id != was[index] {
        var i :| 1 <= i < |asyncWaitIds| && asyncWaitIds[i] == id;
        assert was[if i == index then l else i] == id;
      }
    }

    /** Answer one wait on its own channel and forget it. */
    method SendWaitResponseAndRemove(index: nat, response: Response)
      requires Valid() && 1 <= index < |items|
      modifies this`items, this`asyncWaitIds, this`responses, this`sent
      ensures Valid() && |items| == old(|items|) - 1 && items[0] == old(items[0])
      ensures forall i | 1 <= i < |items| :: var j := if i == index then old(|items|) - 1 else i;
        items[i] == old(items)[j] && asyncWaitIds[i] == old(asyncWaitIds)[j]
      ensures PendingIds() == old(PendingIds()) - {old(asyncWaitIds[index])}
      ensures sent == old(sent) + [Sent(old(asyncWaitIds[index]), old(responses[index]), response)]
    {
      ghost var s := Sent(asyncWaitIds[index], responses[index], response);
      assert asyncWaitIds[index] in PendingIds();
      SendOne(sent, s);
      sent := sent + [Sent(asyncWaitIds[index], responses[index], response)];
      RemoveHandle(index);
    }

    /** The waits that have a satisfied signal. */
    ghost function SatisfiedIds(): set<nat>
      requires |items| == |asyncWaitIds|
      reads this
    {
      set i | 1 <= i < |items| && items[i].Satisfied() :: asyncWaitIds[i]
    }

    /** Answers exactly the waits for a signal that is pending, each with what was
        pending on it. */
    method RespondToSatisfiedWaits()
      requires Valid()
      modifies this`items, this`asyncWaitIds, this`responses, this`sent
      ensures Valid() && items[0] == old(items[0])
      ensures PendingIds() == old(PendingIds()) - old(SatisfiedIds())
      ensures old(sent) <= sent
      ensures Ids(sent[|old(sent)|..]) == old(SatisfiedIds())
      ensures forall i | 1 <= i < |old(items)| ::
        old(asyncWaitIds)[i] in Ids(sent[|old(sent)|..]) <==> exists x :: x in old(items)[i].pending && x in old(items)[i].waitFor
      ensures forall s | s in sent[|old(sent)|..] :: ReportsPending(old(items), old(asyncWaitIds), s)
    {
      hide Ids, DistinctIds, ReportsPending, ListedAs;
      SentNone();
      ghost var was, satisfied, before := PendingIds(), SatisfiedIds(), sent;
      ghost var items0, ids0 := items, asyncWaitIds;
      ghost var answered: set<nat> := {};
      assert sent[|before|..] == [];
      SatisfiedAre(items, asyncWaitIds);
      var i := 1;
      while i < |items|
        invariant Valid() && 1 <= i <= |items| && items[0] == items0[0]
        invariant PendingIds() == was - answered && answered <= satisfied
        invariant before <= sent && Ids(sent[|before|..]) == answered
        invariant forall j | 1 <= j < |items| :: ListedAs(items0, ids0, asyncWaitIds[j], items[j])
        invariant forall j | 1 <= j < |items| :: asyncWaitIds[j] in satisfied <==> items[j].Satisfied()
        invariant forall j | 1 <= j < i :: !items[j].Satisfied()
        invariant forall s | s in sent[|before|..] :: ReportsPending(items0, ids0, s)
        decreases |items| - i
      {
        if items[i].Satisfied() {
          ghost var tail, s := sent[|before|..], Sent(asyncWaitIds[i], responses[i], Ready(items[i].pending));
          SendOne(tail, s);
          answered := answered + {asyncWaitIds[i]};
          ReportsItem(items0, ids0, items[i], s);
          SendWaitResponseAndRemove(i, Ready(items[i].pending));
          assert sent[|before|..] == tail + [s];
        } else {
          i := i + 1;
        }
      }
      NoneSatisfiedLeft(items, asyncWaitIds, satisfied);
      forall k | 1 <= k < |items0|
        ensures ids0[k] in satisfied <==> exists x :: x in items0[k].pending && x in items0[k].waitFor
      {
        SatisfiedMeans(items0[k]);
      }
    }

    /** A new wait gets the next id. */
    method AddWait(handle: nat, signals: Signals, channel: nat) returns (id: nat)
      requires Valid()
      modifies this
      ensures Valid() && id == ids == old(ids) + 1 && items[0] == old(items[0])
      ensures sent == old(sent) && issued == old(issued)[id := Wait(handle, signals, channel)]
      ensures PendingIds() == old(PendingIds()) + {id}
    {
      hide Ids, DistinctIds;
      ghost var was := asyncWaitIds;
      SentIds(sent);
      assert forall i | 1 <= i < |was| :: was[i] in issued && was[i] <= ids;
      items := items + [WaitItem(handle, signals, {})];
      responses := responses + [channel];
      ids := ids + 1;
      id := ids;
      asyncWaitIds := asyncWaitIds + [id];
      issued := issued[id := Wait(handle, signals, channel)];
      PendingAppend(was, id);
    }

    /** A canceled wait is answered as such; an id that is not pending, because
        its wait was answered or never issued, is ignored. */
    method CancelWait(id: nat)
      requires Valid()
      modifies this`items, this`asyncWaitIds, this`responses, this`sent
      ensures Valid() && items[0] == old(items[0])
      ensures PendingIds() == old(PendingIds()) - {id}
      ensures id in old(PendingIds()) ==> sent == old(sent) + [Sent(id, issued[id].channel, Canceled)]
      ensures id !in old(PendingIds()) ==> sent == old(sent)
    {
      var index, i := 0, 1;
      while i < |asyncWaitIds| && index == 0
        invariant 1 <= i <= |asyncWaitIds|
        invariant 0 <= index < |asyncWaitIds| && (index > 0 ==> asyncWaitIds[index] == id)
        invariant index == 0 ==> forall j | 1 <= j < i :: asyncWaitIds[j] != id
        decreases |asyncWaitIds| - i, index == 0
      {
        if asyncWaitIds[i] == id {
          index := i;
        } else {
          i := i + 1;
        }
      }
      if index > 0 {
        assert id in PendingIds();
        SendWaitResponseAndRemove(index, Canceled);
      }
    }
  }

  /** Wait `id` is listed with item `item`. */
  ghost predicate ListedAs(items: seq<WaitItem>, asyncWaitIds: seq<nat>, id: nat, item: WaitItem) {
    exists i :: 1 <= i < |items| && i < |asyncWaitIds| && asyncWaitIds[i] == id && items[i] == item
  }

  /** `s` answers a listed wait with what is pending on it. */
  ghost predicate ReportsPending(items: seq<WaitItem>, asyncWaitIds: seq<nat>, s: Sent) {
    exists i :: 1 <= i < |items| && i < |asyncWaitIds| && asyncWaitIds[i] == s.id && s.response == Ready(items[i].pending)
  }

  lemma SatisfiedMeans(item: WaitItem)
    ensures item.Satisfied() <==> exists x :: x in item.pending && x in item.waitFor
  {
    if item.Satisfied() {
      var x :| x in item.pending * item.waitFor;
      assert x in item.pending && x in item.waitFor;
    }
    if exists x :: x in item.pending && x in item.waitFor {
      var x :| x in item.pending && x in item.waitFor;
      assert x in item.pending * item.waitFor;
    }
  }

  lemma ReportsItem(items: seq<WaitItem>, asyncWaitIds: seq<nat>, item: WaitItem, s: Sent)
    requires ListedAs(items, asyncWaitIds, s.id, item) && s.response == Ready(item.pending)
    ensures ReportsPending(items, asyncWaitIds, s)
  {
  }

  lemma SatisfiedAre(items: seq<WaitItem>, asyncWaitIds: seq<nat>)
    requires |items| == |asyncWaitIds|
    requires forall i, j | 1 <= i < j < |items| :: asyncWaitIds[i] != asyncWaitIds[j]
    ensures var satisfied := set i | 1 <= i < |items| && items[i].Satisfied() :: asyncWaitIds[i];
      forall j | 1 <= j < |items| ::
        (asyncWaitIds[j] in satisfied <==> items[j].Satisfied()) && ListedAs(items, asyncWaitIds, asyncWaitIds[j], items[j])
  {
  }

  lemma NoneSatisfiedLeft(items: seq<WaitItem>, asyncWaitIds: seq<nat>, satisfied: set<nat>)
    requires |items| == |asyncWaitIds|
    requires forall j | 1 <= j < |items| :: asyncWaitIds[j] in satisfied <==> items[j].Satisfied()
    requires forall j | 1 <= j < |items| :: !items[j].Satisfied()
    ensures (set i | 1 <= i < |asyncWaitIds| :: asyncWaitIds[i]) !! satisfied
  {
  }

  lemma PendingAppend(was: seq<nat>, id: nat)
    requires |was| >= 1
    ensures (set i | 1 <= i < |was + [id]| :: (was + [id])[i]) == (set i | 1 <= i < |was| :: was[i]) + {id}
  {
    var r := was + [id];
    assert r[|was|] == id;
    assert forall i | 1 <= i < |was| :: r[i] == was[i];
    var a, b := set i | 1 <= i < |r| :: r[i], set i | 1 <= i < |was| :: was[i];
    forall x | x in b ensures x in a {
      var i :| 1 <= i < |was| && was[i] == x;
      assert r[i] == x;
    }
  }
}
