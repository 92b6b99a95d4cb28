/**
 * llama-am-api/src/main/java/com/cloudera/llama/am/impl/MultiQueueLlamaAM.java:
 * the application master that routes every reservation to a per-queue
 * delegate, creating (and starting) one delegate per queue the first time the
 * queue is used, and remembering which queue each reservation id went to.
 *
 * The delegates (SingleQueueLlamaAM, not part of this model) are represented
 * by whether each one is running and by the log of the calls made to them;
 * what a delegate answers, and which delegates fail, are parameters.  The
 * listener fan-out of `handle` and the configuration lookups are left out.
 */
module MultiQueue {

  import opened Common
  import opened LlamaApi
  import opened LlamaAm

  type Listener = nat

  /** One per-queue application master. */
  datatype Delegate = Delegate(running: bool)

  datatype DelegateOp =
    | StartOp
    | StopOp
    | GetNodesOp
    | ReserveOp(reservation: AmReservation)
    | GetReservationOp(reservationId: Uuid)
    | ReleaseReservationOp(reservationId: Uuid)
    | ReleaseReservationsForClientIdOp(clientId: Uuid)

  /** A call made to the delegate of `queue`. */
  datatype DelegateCall = DelegateCall(queue: string, op: DelegateOp)

  const NO_ACTIVE_AM := AmFailure("There is not active LlamaAM for any queue")

  /** The failure a delegate's call raises. */
  function DelegateFailure(queue: string): LlamaError
  {
    AmFailure(queue)
  }

  /** `made` addresses `op` to each of `queues` exactly once: what a loop over the delegates makes. */
  predicate OneCallEach(made: seq<DelegateCall>, queues: set<string>, op: DelegateOp)
  {
    |made| == |queues|
    && (forall j :: 0 <= j < |made| ==> made[j].queue in queues && made[j].op == op)
    && (forall q :: q in queues ==> exists j :: 0 <= j < |made| && made[j].queue == q)
  }

  /** One call with `op` to each queue of `order`, in that order. */
  function CallsTo(order: seq<string>, op: DelegateOp): (r: seq<DelegateCall>)
    ensures |r| == |order|
    ensures forall j :: 0 <= j < |order| ==> r[j] == DelegateCall(order[j], op)
  {
    seq(|order|, j requires 0 <= j < |order| => DelegateCall(order[j], op))
  }

  /** After one stop per queue of an order covering every delegate, none of them runs. */
  lemma OrderStopsAll(d: map<string, Delegate>, order: seq<string>)
    requires forall q :: q in order <==> q in d
    requires forall j :: 0 <= j < |order| ==> order[j] in d && !d[order[j]].running
    ensures forall q :: q in d ==> !d[q].running
  {
    forall q | q in d
      ensures !d[q].running
    {
      var j :| 0 <= j < |order| && order[j] == q;
    }
  }

  /** The stop loop: each delegate of `order` stopped in turn, with one stop call each. */
  method StopEach(d0: map<string, Delegate>, order: seq<string>) returns (d: map<string, Delegate>, made: seq<DelegateCall>)
    requires forall q :: q in order <==> q in d0
    ensures d.Keys == d0.Keys
    ensures forall q :: q in d ==> !d[q].running
    ensures made == CallsTo(order, StopOp)
  {
    d := d0;
    made := [];
    for i := 0 to |order|
      invariant d.Keys == d0.Keys
      invariant forall j :: 0 <= j < i ==> order[j] in d && !d[order[j]].running
      invariant made == CallsTo(order[..i], StopOp)
    {
      CallsToStep(order, i, StopOp);
      made := made + [DelegateCall(order[i], StopOp)];
      d := d[order[i] := Delegate(false)];
    }
    OrderStopsAll(d, order);
    assert order[..|order|] == order;
  }

  lemma CallsToStep(order: seq<string>, i: int, op: DelegateOp)
    requires 0 <= i < |order|
    ensures CallsTo(order[..i + 1], op) == CallsTo(order[..i], op) + [DelegateCall(order[i], op)]
  {
  }

  lemma OrderGivesOneCallEach(order: seq<string>, queues: set<string>, op: DelegateOp)
    requires NoDuplicates(order) && |order| == |queues|
    requires forall q :: q in order <==> q in queues
    ensures OneCallEach(CallsTo(order, op), queues, op)
  {
    var made := CallsTo(order, op);
    forall q | q in queues
      ensures exists j :: 0 <= j < |made| && made[j].queue == q
    {
      var j :| 0 <= j < |order| && order[j] == q;
      assert made[j].queue == q;
    }
  }

  /** The failure a loop that remembers the last exception raises after making the calls `made`. */
  function LastFailure(made: seq<DelegateCall>, failing: set<string>): Option<LlamaError>
    decreases |made|
  {
    if made == [] then None
    else if made[|made| - 1].queue in failing then Some(DelegateFailure(made[|made| - 1].queue))
    else LastFailure(made[..|made| - 1], failing)
  }

  lemma LastFailureStep(made: seq<DelegateCall>, c: DelegateCall, failing: set<string>)
    ensures LastFailure(made + [c], failing)
         == if c.queue in failing then Some(DelegateFailure(c.queue)) else LastFailure(made, failing)
  {
    assert (made + [c])[..|made|] == made;
  }

  /** Some call failed exactly when an error is raised, and the error raised is that of the last failing call. */
  predicate RaisesLastFailure(made: seq<DelegateCall>, failing: set<string>, err: Option<LlamaError>)
  {
    (err.None? <==> forall j :: 0 <= j < |made| ==> made[j].queue !in failing)
    && (err.Some? ==>
          exists j :: 0 <= j < |made| && made[j].queue in failing && err == Some(DelegateFailure(made[j].queue))
                      && forall k :: j < k < |made| ==> made[k].queue !in failing)
  }

  lemma {:induction false} LastFailureRaises(made: seq<DelegateCall>, failing: set<string>)
    ensures RaisesLastFailure(made, failing, LastFailure(made, failing))
    decreases |made|
  {
    if made != [] {
      var n := |made| - 1;
      var init := made[..n];
      var err := LastFailure(made, failing);
      if made[n].queue in failing {
        assert err == Some(DelegateFailure(made[n].queue));
        assert made[n].queue in failing;
      } else {
        assert err == LastFailure(init, failing);
        LastFailureRaises(init, failing);
        assert forall j :: 0 <= j < n ==> made[j] == init[j];
        if err.Some? {
          var j :| 0 <= j < |init| && init[j].queue in failing
                   && err == Some(DelegateFailure(init[j].queue))
                   && forall k :: j < k < |init| ==> init[k].queue !in failing;
          forall k | j < k < |made|
            ensures made[k].queue !in failing
          {
            if k < n { assert made[k] == init[k]; }
          }
          assert made[j].queue in failing;
        } else {
          forall j | 0 <= j < |made|
            ensures made[j].queue !in failing
          {
            if j < n { assert made[j] == init[j]; }
          }
        }
      }
    }
  }

  /**
   * Creating the router fails with IllegalArgumentException when no resource
   * manager connector class is configured; otherwise it starts with no
   * delegate, no routing entry, no listener, and not running.
   */
  method NewMultiQueueLlamaAM(rmConnectorClass: Option<string>) returns (r: Result<MultiQueueLlamaAM, LlamaError>)
    ensures r.Failure? <==> rmConnectorClass.None?
    ensures r.Failure? ==> r.error.IllegalArgument?
    ensures r.Success? ==>
      fresh(r.value) && r.value.Valid() && r.value.delegates == map[] && r.value.reservationToQueue == map[]
      && r.value.listeners == {} && !r.value.running && r.value.calls == []
  {
    var am := new MultiQueueLlamaAM();
    if rmConnectorClass.None? {
      return Failure(IllegalArgument("RMLlamaAMConnector class not defined in the configuration"));
    }
    r := Success(am);
  }

  class MultiQueueLlamaAM {
    var delegates: map<string, Delegate>
    var reservationToQueue: map<Uuid, string>
    var listeners: set<Listener>
    var running: bool
    /** The calls made to the delegates, oldest first. */
    var calls: seq<DelegateCall>

    /** Every reservation id is routed to a queue that has a delegate. */
    predicate Valid()
      reads this
    {
      forall id :: id in reservationToQueue ==> reservationToQueue[id] in delegates
    }

    constructor()
      ensures Valid() && delegates == map[] && reservationToQueue == map[] && listeners == {}
      ensures !running && calls == []
    {
      delegates := map[];
      reservationToQueue := map[];
      listeners := {};
      running := false;
      calls := [];
    }

    /**
     * getLlamaAM: the queue's delegate, created and started the first time
     * only.  A delegate whose start fails is not kept.
     */
    method GetLlamaAM(queue: string, startFails: bool) returns (err: Option<LlamaError>)
      requires Valid()
      modifies this
      ensures Valid()
      ensures queue in old(delegates) ==> err.None? && delegates == old(delegates) && calls == old(calls)
      ensures queue !in old(delegates) ==> calls == old(calls) + [DelegateCall(queue, StartOp)]
      ensures queue !in old(delegates) && startFails ==> err == Some(DelegateFailure(queue)) && delegates == old(delegates)
      ensures queue !in old(delegates) && !startFails ==> err.None? && delegates == old(delegates)[queue := Delegate(true)]
      ensures reservationToQueue == old(reservationToQueue) && listeners == old(listeners) && running == old(running)
    {
      if queue in delegates {
        return None;
      }
      calls := calls + [DelegateCall(queue, StartOp)];
      if startFails {
        return Some(DelegateFailure(queue));
      }
      delegates := delegates[queue := Delegate(true)];
      err := None;
    }

    /** getAnyLlama: some existing delegate's queue, or a failure when there is none. */
    method GetAnyLlama() returns (r: Result<string, LlamaError>)
      ensures delegates == map[] ==> r == Failure(NO_ACTIVE_AM)
      ensures delegates != map[] ==> r.Success? && r.value in delegates
    {
      if delegates == map[] {
        return Failure(NO_ACTIVE_AM);
      }
      var q :| q in delegates;
      r := Success(q);
    }

    /**
     * start: a delegate for every initial queue; the first one that fails
     * to start stops everything and its failure is raised.  `running` is set
     * only when all of them started.
     */
    method Start(initialQueues: seq<string>, failing: set<string>) returns (err: Option<LlamaError>)
      requires Valid()
      modifies this
      ensures Valid()
      ensures err.None? <==> forall q :: q in initialQueues ==> q in old(delegates) || q !in failing
      ensures err.None? ==> running && delegates.Keys == old(delegates).Keys + set q | q in initialQueues
      ensures err.Some? ==> !running && forall q :: q in delegates ==> !delegates[q].running
      ensures reservationToQueue == old(reservationToQueue) && listeners == old(listeners)
    {
      var i := 0;
      while i < |initialQueues|
        invariant 0 <= i <= |initialQueues|
        invariant Valid()
        invariant delegates.Keys == old(delegates).Keys + set k | 0 <= k < i :: initialQueues[k]
        invariant forall k :: 0 <= k < i ==> initialQueues[k] in old(delegates) || initialQueues[k] !in failing
        invariant reservationToQueue == old(reservationToQueue) && listeners == old(listeners)
        invariant running == old(running)
      {
        var q := initialQueues[i];
        var e := GetLlamaAM(q, q in failing);
        if e.Some? {
          Stop();
          return e;
        }
        i := i + 1;
      }
      running := true;
      err := None;
      assert (set k | 0 <= k < |initialQueues| :: initialQueues[k]) == set q | q in initialQueues;
    }

    /** stop: not running any more, and every delegate is stopped, each once. */
    method Stop()
      requires Valid()
      modifies this
      ensures Valid()
      ensures !running
      ensures delegates.Keys == old(delegates).Keys && forall q :: q in delegates ==> !delegates[q].running
      ensures |calls| >= |old(calls)| && calls[..|old(calls)|] == old(calls)
      ensures OneCallEach(calls[|old(calls)|..], delegates.Keys, StopOp)
      ensures reservationToQueue == old(reservationToQueue) && listeners == old(listeners)
    {
      running := false;
      var order := IterationOrder(delegates.Keys);
      var d, made := StopEach(delegates, order);
      OrderGivesOneCallEach(order, delegates.Keys, StopOp);
      assert (calls + made)[|calls|..] == made;
      delegates, calls := d, calls + made;
    }

    predicate IsRunning()
      reads this
    {
      running
    }

    /** getNodes: asked of any one delegate; fails when there is none. */
    method GetNodes(nodes: seq<string>) returns (r: Result<seq<string>, LlamaError>)
      modifies this
      ensures delegates == map[] ==> r == Failure(NO_ACTIVE_AM) && calls == old(calls)
      ensures delegates != map[] ==>
        r == Success(nodes) && |calls| == |old(calls)| + 1 && calls[..|old(calls)|] == old(calls)
        && calls[|old(calls)|].queue in delegates && calls[|old(calls)|].op == GetNodesOp
      ensures delegates == old(delegates) && reservationToQueue == old(reservationToQueue)
      ensures listeners == old(listeners) && running == old(running)
    {
      var q := GetAnyLlama();
      if q.Failure? {
        return Failure(q.error);
      }
      calls := calls + [DelegateCall(q.value, GetNodesOp)];
      r := Success(nodes);
    }

    method AddListener(listener: Listener)
      modifies this
      ensures listeners == old(listeners) + {listener}
      ensures delegates == old(delegates) && reservationToQueue == old(reservationToQueue)
      ensures running == old(running) && calls == old(calls)
    {
      listeners := listeners + {listener};
    }

    method RemoveListener(listener: Listener)
      modifies this
      ensures listeners == old(listeners) - {listener}
      ensures delegates == old(delegates) && reservationToQueue == old(reservationToQueue)
      ensures running == old(running) && calls == old(calls)
    {
      listeners := listeners - {listener};
    }

    /**
     * reserve: the reservation goes to its queue's delegate (created on
     * first use) and the id the delegate hands out is routed to that queue.
     */
    method Reserve(reservation: AmReservation, startFails: bool, outcome: Result<Uuid, LlamaError>)
      returns (r: Result<Uuid, LlamaError>)
      requires Valid()
      modifies this
      ensures Valid()
      ensures var q := reservation.queue;
        if q !in old(delegates) && startFails then
          r == Failure(DelegateFailure(q)) && reservationToQueue == old(reservationToQueue)
        else
          q in delegates && |calls| > 0 && calls[|calls| - 1] == DelegateCall(q, ReserveOp(reservation)) && r == outcome
          && reservationToQueue == (if outcome.Success? then old(reservationToQueue)[outcome.value := q]
                                    else old(reservationToQueue))
      ensures listeners == old(listeners) && running == old(running)
    {
      var e := GetLlamaAM(reservation.queue, startFails);
      if e.Some? {
        return Failure(e.value);
      }
      calls := calls + [DelegateCall(reservation.queue, ReserveOp(reservation))];
      if outcome.Failure? {
        return outcome;
      }
      reservationToQueue := reservationToQueue[outcome.value := reservation.queue];
      r := outcome;
    }

    /** getReservation: null, with no delegate asked, for an id that was never routed; otherwise its delegate's answer. */
    method GetReservation(reservationId: Uuid, answer: Option<AmPlacedReservation>)
      returns (r: Option<AmPlacedReservation>)
      requires Valid()
      modifies this
      ensures Valid()
      ensures reservationId !in reservationToQueue ==> r.None? && calls == old(calls)
      ensures reservationId in reservationToQueue ==>
        r == answer && calls == old(calls) + [DelegateCall(reservationToQueue[reservationId], GetReservationOp(reservationId))]
      ensures delegates == old(delegates) && reservationToQueue == old(reservationToQueue)
      ensures listeners == old(listeners) && running == old(running)
    {
      if reservationId !in reservationToQueue {
        return None;
      }
      var q := reservationToQueue[reservationId];
      var e := GetLlamaAM(q, false);
      calls := calls + [DelegateCall(q, GetReservationOp(reservationId))];
      r := answer;
    }

    /** releaseReservation: the routing entry is dropped before the delegate is called; an unknown id does nothing. */
    method ReleaseReservation(reservationId: Uuid)
      requires Valid()
      modifies this
      ensures Valid()
      ensures reservationToQueue == old(reservationToQueue) - {reservationId}
      ensures reservationId !in old(reservationToQueue) ==> calls == old(calls)
      ensures reservationId in old(reservationToQueue) ==>
        calls == old(calls) + [DelegateCall(old(reservationToQueue)[reservationId], ReleaseReservationOp(reservationId))]
      ensures delegates == old(delegates) && listeners == old(listeners) && running == old(running)
    {
      if reservationId !in reservationToQueue {
        return;
      }
      var q := reservationToQueue[reservationId];
      reservationToQueue := reservationToQueue - {reservationId};
      var e := GetLlamaAM(q, false);
      calls := calls + [DelegateCall(q, ReleaseReservationOp(reservationId))];
    }

    /**
     * releaseReservationsForClientId: every delegate is asked once, whatever
     * the others did; when some failed, the failure of the last one asked is
     * raised.
     */
    method ReleaseReservationsForClientId(clientId: Uuid, failing: set<string>) returns (err: Option<LlamaError>)
      modifies this
      ensures |calls| >= |old(calls)| && calls[..|old(calls)|] == old(calls)
      ensures OneCallEach(calls[|old(calls)|..], delegates.Keys, ReleaseReservationsForClientIdOp(clientId))
      ensures RaisesLastFailure(calls[|old(calls)|..], failing, err)
      ensures err.None? <==> forall q :: q in delegates ==> q !in failing
      ensures delegates == old(delegates) && reservationToQueue == old(reservationToQueue)
      ensures listeners == old(listeners) && running == old(running)
    {
      var op := ReleaseReservationsForClientIdOp(clientId);
      var order := IterationOrder(delegates.Keys);
      var before := calls;
      var thrown: Option<LlamaError> := None;
      for i := 0 to |order|
        invariant calls == before + CallsTo(order[..i], op)
        invariant thrown == LastFailure(CallsTo(order[..i], op), failing)
        invariant delegates == old(delegates) && reservationToQueue == old(reservationToQueue)
        invariant listeners == old(listeners) && running == old(running)
      {
        CallsToStep(order, i, op);
        LastFailureStep(CallsTo(order[..i], op), DelegateCall(order[i], op), failing);
        calls := calls + [DelegateCall(order[i], op)];
        if order[i] in failing {
          thrown := Some(DelegateFailure(order[i]));
        }
      }
      assert order[..|order|] == order;
      var made := CallsTo(order, op);
      assert calls[|before|..] == made;
      OrderGivesOneCallEach(order, delegates.Keys, op);
      LastFailureRaises(made, failing);
      err := thrown;
      if err.Some? {
        var j :| 0 <= j < |made| && made[j].queue in failing;
        assert made[j].queue in delegates;
      } else {
        forall q | q in delegates
          ensures q !in failing
        {
          var j :| 0 <= j < |made| && made[j].queue == q;
        }
      }
    }
  }
}
