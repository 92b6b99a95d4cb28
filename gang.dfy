/**
 * llama/src/main/java/com/cloudera/llama/am/impl/GangAntiDeadlockLlamaAM.java:
 * the wrapper that keeps gang reservations from deadlocking the cluster.  It
 * holds every gang reservation locally, knows which of them are submitted to
 * the wrapped application master, and when no allocation has happened for a
 * while it backs off a share of the submitted resources, re-submitting the
 * backed-off reservations after a random delay.
 *
 * The clock is the parameter `now`; the random choices (the victim of a back
 * off, the back-off delay) are nondeterministic choices; the wrapped
 * application master is represented by the log of the calls made to it, and
 * which of those calls fail is a parameter.  The delay queue holds at most one
 * entry per reservation id, so it is a map from the id to the entry, polled
 * earliest deadline first.  The client id of a placed reservation is its
 * handle.  The resolver thread, its sleeps and the metrics are left out.
 */
module GangAntiDeadlock {

  import opened Common
  import opened LlamaApi
  import opened PlacedReservations

  /** Long.MAX_VALUE: the delay reported when nothing is backed off. */
  const LONG_MAX: int := 0x7fff_ffff_ffff_ffff
  /** Integer.MAX_VALUE: the widest range Random.nextInt accepts. */
  const INT_MAX: int := 0x7fff_ffff

  /** A reservation waiting in the delay queue until `delayedUntil`. */
  datatype BackedOff = BackedOff(reservation: PlacedReservationImpl, delayedUntil: int)

  /** A call made to the wrapped application master. */
  datatype AmCall =
    | ReserveCall(reservationId: Uuid, reservation: PlacedReservationImpl)
    | GetReservationCall(reservationId: Uuid)
    | ReleaseCall(reservationId: Uuid)
    | ReleaseForClientIdCall(clientId: Uuid)

  /** The parts of an event this wrapper reads. */
  datatype GangEvent = GangEvent(
    allocatedGangResources: seq<PlacedResource>,
    allocatedReservationIds: seq<Uuid>,
    rejectedReservationIds: seq<Uuid>)

  /** The event dispatched when a backed-off reservation cannot be re-reserved. */
  datatype Rejection = Rejection(clientId: Option<Uuid>, reservationId: Uuid)

  /** Java's int division, which truncates toward zero. */
  function TruncDiv(a: int, b: int): (q: int)
    requires b > 0
    ensures a >= 0 ==> q * b <= a < q * b + b
    ensures a < 0 ==> q * b >= a > q * b - b
  {
    if a >= 0 then a / b else -((-a) / b)
  }

  ghost function Pick(ids: set<Uuid>): (k: Uuid)
    requires ids != {}
    ensures k in ids
  {
    var k :| k in ids; k
  }

  /** The number of resources the reservations `ids` hold. */
  ghost function ResourceCount(ids: set<Uuid>, local: map<Uuid, PlacedReservationImpl>): nat
    requires ids <= local.Keys
    decreases ids
  {
    if ids == {} then 0
    else
      var k := Pick(ids);
      |local[k].resources| + ResourceCount(ids - {k}, local)
  }

  /** The count does not depend on the order the reservations are taken in. */
  lemma {:induction false} ResourceCountRemove(ids: set<Uuid>, local: map<Uuid, PlacedReservationImpl>, k: Uuid)
    requires ids <= local.Keys && k in ids
    ensures ResourceCount(ids, local) == |local[k].resources| + ResourceCount(ids - {k}, local)
    decreases ids
  {
    var p := Pick(ids);
    if p != k {
      ResourceCountRemove(ids - {p}, local, k);
      ResourceCountRemove(ids - {k}, local, p);
      assert ids - {p} - {k} == ids - {k} - {p};
    }
  }

  /** The back-off target: the given percentage of `total` resources, in Java int arithmetic. */
  function BackOffTarget(total: int, percent: int): int
  {
    TruncDiv(total * percent, 100)
  }

  /**
   * Submitted reservations are held locally; a local reservation is held
   * under its own id and has at least one resource; a queued reservation is
   * queued under its own id and is not submitted.
   */
  predicate Consistent(local: map<Uuid, PlacedReservationImpl>, submitted: set<Uuid>, backedOff: map<Uuid, BackedOff>)
  {
    submitted <= local.Keys
    && (forall k :: k in local ==> local[k].reservationId == Some(k) && |local[k].resources| > 0)
    && (forall k :: k in backedOff ==> k !in submitted && backedOff[k].reservation.reservationId == Some(k))
  }

  lemma ForgetKeepsConsistent(local: map<Uuid, PlacedReservationImpl>, submitted: set<Uuid>,
                              backedOff: map<Uuid, BackedOff>, id: Uuid)
    requires Consistent(local, submitted, backedOff)
    ensures Consistent(local - {id}, submitted - {id}, backedOff)
  {
  }

  lemma BackOffKeepsConsistent(local: map<Uuid, PlacedReservationImpl>, submitted: set<Uuid>,
                               backedOff: map<Uuid, BackedOff>, v: Uuid, e: BackedOff)
    requires Consistent(local, submitted, backedOff) && v in submitted && e.reservation == local[v]
    ensures Consistent(local, submitted - {v}, backedOff[v := e])
  {
  }

  lemma PollKeepsConsistent(local: map<Uuid, PlacedReservationImpl>, submitted: set<Uuid>,
                            backedOff: map<Uuid, BackedOff>, id: Uuid)
    requires Consistent(local, submitted, backedOff) && id in backedOff
    ensures Consistent(local, submitted, backedOff - {id})
    ensures id in local ==> Consistent(local, submitted + {id}, backedOff - {id})
    ensures Consistent(local - {id}, submitted, backedOff - {id})
  {
  }

  /**
   * The part of a back off done so far: the victims (submitted0 minus
   * submitted1) released without failure, left the submitted set and were
   * queued, with their local reservation and a delay in [min, max); nothing
   * queued before changed.
   */
  ghost predicate BackedOffSoFar(local: map<Uuid, PlacedReservationImpl>,
                                 submitted0: set<Uuid>, backedOff0: map<Uuid, BackedOff>,
                                 submitted1: set<Uuid>, backedOff1: map<Uuid, BackedOff>,
                                 now: int, failing: set<Uuid>, minDelay: int, maxDelay: int)
    requires submitted0 <= local.Keys
  {
    submitted1 <= submitted0
    && (forall v :: v in submitted0 - submitted1 ==> v !in failing)
    && backedOff1.Keys == backedOff0.Keys + (submitted0 - submitted1)
    && (forall k :: k in backedOff0 ==> backedOff1[k] == backedOff0[k])
    && (forall v :: v in submitted0 - submitted1 ==>
          backedOff1[v].reservation == local[v]
          && minDelay <= backedOff1[v].delayedUntil - now < maxDelay)
  }

  lemma BackedOffSoFarStep(local: map<Uuid, PlacedReservationImpl>,
                           submitted0: set<Uuid>, backedOff0: map<Uuid, BackedOff>,
                           submitted1: set<Uuid>, backedOff1: map<Uuid, BackedOff>,
                           now: int, failing: set<Uuid>, minDelay: int, maxDelay: int, v: Uuid, d: int)
    requires submitted0 <= local.Keys
    requires BackedOffSoFar(local, submitted0, backedOff0, submitted1, backedOff1, now, failing, minDelay, maxDelay)
    requires v in submitted1 && v !in failing && v !in backedOff0 && minDelay <= d < maxDelay
    ensures BackedOffSoFar(local, submitted0, backedOff0, submitted1 - {v},
                           backedOff1[v := BackedOff(local[v], now + d)], now, failing, minDelay, maxDelay)
    ensures submitted0 - (submitted1 - {v}) == (submitted0 - submitted1) + {v}
    ensures v !in submitted0 - submitted1
  {
  }

  /**
   * The counting side of a back off in progress: `got` counts at least the
   * victims' resources, exactly them when no release fails, and leaving out
   * the last victim stays under the target.
   */
  ghost predicate Progress(local: map<Uuid, PlacedReservationImpl>, submitted0: set<Uuid>, submitted1: set<Uuid>,
                           failing: set<Uuid>, got: int, target: int, last: Uuid)
    requires submitted0 <= local.Keys
  {
    var victims := submitted0 - submitted1;
    got >= ResourceCount(victims, local)
    && ((forall v :: v in submitted0 ==> v !in failing) ==> got == ResourceCount(victims, local))
    && (victims != {} ==> last in victims && ResourceCount(victims - {last}, local) < target)
  }

  /** A release that fails leaves the victims as they were and only adds to the count. */
  lemma ProgressFailedRelease(local: map<Uuid, PlacedReservationImpl>, submitted0: set<Uuid>, submitted1: set<Uuid>,
                              failing: set<Uuid>, got: int, target: int, last: Uuid, v: Uuid)
    requires submitted0 <= local.Keys && submitted1 <= submitted0 && v in submitted1 && v in failing
    requires Progress(local, submitted0, submitted1, failing, got, target, last)
    ensures Progress(local, submitted0, submitted1, failing, got + |local[v].resources|, target, last)
  {
  }

  /** Backing off one more victim while under the target keeps the count exact and the last victim needed. */
  lemma ProgressBackedOff(local: map<Uuid, PlacedReservationImpl>, submitted0: set<Uuid>, submitted1: set<Uuid>,
                          failing: set<Uuid>, got: int, target: int, last: Uuid, v: Uuid)
    requires submitted0 <= local.Keys && submitted1 <= submitted0 && v in submitted1 && got < target
    requires Progress(local, submitted0, submitted1, failing, got, target, last)
    ensures Progress(local, submitted0, submitted1 - {v}, failing, got + |local[v].resources|, target, v)
  {
    var victims := submitted0 - submitted1;
    assert submitted0 - (submitted1 - {v}) == victims + {v};
    assert victims + {v} - {v} == victims;
    ResourceCountRemove(victims + {v}, local, v);
  }

  /** The calls made since `calls0` are all releases of reservations in `ids`. */
  predicate ReleasesSince(calls0: seq<AmCall>, calls: seq<AmCall>, ids: set<Uuid>)
  {
    |calls| >= |calls0| && calls[..|calls0|] == calls0
    && forall j :: |calls0| <= j < |calls| ==> calls[j].ReleaseCall? && calls[j].reservationId in ids
  }

  lemma ReleasesSinceStep(calls0: seq<AmCall>, calls: seq<AmCall>, ids: set<Uuid>, v: Uuid)
    requires ReleasesSince(calls0, calls, ids) && v in ids
    ensures ReleasesSince(calls0, calls + [ReleaseCall(v)], ids)
    ensures ReleasedSince(calls0, calls + [ReleaseCall(v)]) == ReleasedSince(calls0, calls) + {v}
  {
    var calls1 := calls + [ReleaseCall(v)];
    assert calls1[..|calls0|] == calls[..|calls0|];
    assert calls1[|calls|].reservationId == v;
    forall k | k in ReleasedSince(calls0, calls1)
      ensures k in ReleasedSince(calls0, calls) + {v}
    {
      var j :| |calls0| <= j < |calls1| && calls1[j].ReleaseCall? && calls1[j].reservationId == k;
      if j < |calls| {
        assert calls[j] == calls1[j];
      }
    }
    forall k | k in ReleasedSince(calls0, calls)
      ensures k in ReleasedSince(calls0, calls1)
    {
      var j :| |calls0| <= j < |calls| && calls[j].ReleaseCall? && calls[j].reservationId == k;
      assert calls1[j] == calls[j];
    }
  }

  /**
   * One more release of a submitted reservation keeps the back-off calls
   * exact: the reservation becomes a victim unless its release fails.
   */
  lemma BackOffCallsStep(calls0: seq<AmCall>, calls: seq<AmCall>, submitted0: set<Uuid>, submitted1: set<Uuid>,
                         failing: set<Uuid>, v: Uuid)
    requires BackOffCalls(calls0, calls, submitted0, submitted1, failing)
    requires submitted1 <= submitted0 && v in submitted1
    ensures v !in failing ==> BackOffCalls(calls0, calls + [ReleaseCall(v)], submitted0, submitted1 - {v}, failing)
    ensures v in failing ==> BackOffCalls(calls0, calls + [ReleaseCall(v)], submitted0, submitted1, failing)
  {
    ReleasesSinceStep(calls0, calls, submitted0, v);
    if v !in failing {
      assert submitted0 - (submitted1 - {v}) == (submitted0 - submitted1) + {v};
    }
  }

  /** The reservations released by the calls made after `calls0`. */
  ghost function ReleasedSince(calls0: seq<AmCall>, calls: seq<AmCall>): set<Uuid>
    requires |calls0| <= |calls|
  {
    set j | |calls0| <= j < |calls| && calls[j].ReleaseCall? :: calls[j].reservationId
  }

  /**
   * The calls of a back off: only releases of reservations submitted at its
   * start, and the victims are exactly the released reservations whose
   * release did not fail.
   */
  ghost predicate BackOffCalls(calls0: seq<AmCall>, calls: seq<AmCall>, submitted0: set<Uuid>, submitted1: set<Uuid>,
                               failing: set<Uuid>)
  {
    ReleasesSince(calls0, calls, submitted0)
    && ReleasedSince(calls0, calls) - failing == submitted0 - submitted1
  }

  /**
   * What one back off at `now` did, `failing` being the reservations whose
   * release fails: the victims are submitted reservations whose release
   * succeeded; they leave the submitted set, stay local and enter the delay
   * queue with a delay in [min, max); the loop stops as soon as the
   * victims' resources reach the target (so leaving out the last victim
   * stays under it) and, when no release fails, it goes on until the target
   * is reached or no submitted reservation is left.
   */
  ghost predicate IsBackOff(local: map<Uuid, PlacedReservationImpl>,
                            submitted0: set<Uuid>, backedOff0: map<Uuid, BackedOff>,
                            submitted1: set<Uuid>, backedOff1: map<Uuid, BackedOff>,
                            now: int, failing: set<Uuid>, percent: int, minDelay: int, maxDelay: int)
    requires submitted0 <= local.Keys
  {
    var victims := submitted0 - submitted1;
    var target := BackOffTarget(ResourceCount(submitted0, local), percent);
    BackedOffSoFar(local, submitted0, backedOff0, submitted1, backedOff1, now, failing, minDelay, maxDelay)
    && (victims != {} ==> exists v :: v in victims && ResourceCount(victims - {v}, local) < target)
    && ((forall v :: v in submitted0 ==> v !in failing) ==>
          ResourceCount(victims, local) >= target || submitted1 == {})
  }

  /** A back off loop that stopped at the target or with nothing left submitted did a back off. */
  lemma BackOffDone(local: map<Uuid, PlacedReservationImpl>,
                    submitted0: set<Uuid>, backedOff0: map<Uuid, BackedOff>,
                    submitted1: set<Uuid>, backedOff1: map<Uuid, BackedOff>,
                    now: int, failing: set<Uuid>, percent: int, minDelay: int, maxDelay: int, got: int, last: Uuid)
    requires submitted0 <= local.Keys
    requires BackedOffSoFar(local, submitted0, backedOff0, submitted1, backedOff1, now, failing, minDelay, maxDelay)
    requires Progress(local, submitted0, submitted1, failing, got,
                      BackOffTarget(ResourceCount(submitted0, local), percent), last)
    requires got >= BackOffTarget(ResourceCount(submitted0, local), percent) || submitted1 == {}
    ensures IsBackOff(local, submitted0, backedOff0, submitted1, backedOff1, now, failing, percent, minDelay, maxDelay)
  {
  }

  /** With nothing submitted a back off changes nothing. */
  lemma NothingToBackOff(local: map<Uuid, PlacedReservationImpl>, submitted: set<Uuid>,
                         backedOff: map<Uuid, BackedOff>, calls: seq<AmCall>,
                         now: int, failing: set<Uuid>, percent: int, minDelay: int, maxDelay: int)
    requires submitted == {}
    ensures IsBackOff(local, submitted, backedOff, submitted, backedOff, now, failing, percent, minDelay, maxDelay)
    ensures BackOffCalls(calls, calls, submitted, submitted, failing)
  {
    assert calls[..|calls|] == calls;
  }

  /** A key of `keys` whose deadline in `q` is the earliest among `keys`. */
  ghost function EarliestOf(q: map<Uuid, BackedOff>, keys: set<Uuid>): (k: Uuid)
    requires keys != {} && keys <= q.Keys
    ensures k in keys
    ensures forall j :: j in keys ==> q[k].delayedUntil <= q[j].delayedUntil
    decreases keys
  {
    var p :| p in keys;
    if keys == {p} then p
    else
      var k := EarliestOf(q, keys - {p});
      if q[p].delayedUntil <= q[k].delayedUntil then p else k
  }

  /** The earliest deadline of a non-empty delay queue exists. */
  lemma EarliestExists(q: map<Uuid, BackedOff>)
    requires q != map[]
    ensures exists k :: k in q && forall j :: j in q ==> q[k].delayedUntil <= q[j].delayedUntil
  {
    var p :| p in q;
    var k := EarliestOf(q, q.Keys);
  }

  /** The ids of the local reservations of the client. */
  ghost function HeldIds(local: map<Uuid, PlacedReservationImpl>, clientId: Uuid): set<Uuid>
  {
    set id | id in local && local[id].handle == Some(clientId)
  }

  /** The ids of the local reservations of the client, each once, in some iteration order. */
  method HeldBy(local: map<Uuid, PlacedReservationImpl>, clientId: Uuid) returns (ids: seq<Uuid>)
    ensures NoDuplicates(ids)
    ensures forall id :: id in ids <==> id in local && local[id].handle == Some(clientId)
  {
    var order := IterationOrder(local.Keys);
    ids := [];
    for i := 0 to |order|
      invariant NoDuplicates(ids)
      invariant forall id :: id in ids <==> id in order[..i] && local[id].handle == Some(clientId)
    {
      var id := order[i];
      assert order[..i + 1] == order[..i] + [id];
      if local[id].handle == Some(clientId) {
        assert id !in order[..i];
        ids := ids + [id];
      }
    }
    assert order[..|order|] == order;
  }

  /** The queued reservations whose deadline is not after `now`. */
  ghost function Expired(q: map<Uuid, BackedOff>, now: int): set<Uuid>
  {
    set k | k in q && q[k].delayedUntil <= now
  }

  /** Of the polled reservations, those held locally whose new reserve fails. */
  ghost function FailedOf(polled: set<Uuid>, local0: map<Uuid, PlacedReservationImpl>, failing: set<Uuid>): set<Uuid>
  {
    set k | k in polled && k in local0 && k in failing
  }

  /** Of the polled reservations, those held locally that are submitted again. */
  ghost function ResubmittedOf(polled: set<Uuid>, local0: map<Uuid, PlacedReservationImpl>, failing: set<Uuid>): set<Uuid>
  {
    set k | k in polled && k in local0 && k !in failing
  }

  /** Of the polled reservations, those held locally, which are reserved again. */
  ghost function ReReservedOf(polled: set<Uuid>, local0: map<Uuid, PlacedReservationImpl>): set<Uuid>
  {
    set k | k in polled && k in local0
  }

  /** The reservations named by the calls made after `calls0`. */
  ghost function CalledSince(calls0: seq<AmCall>, calls: seq<AmCall>): set<Uuid>
    requires |calls0| <= |calls|
    requires forall j :: |calls0| <= j < |calls| ==> calls[j].ReserveCall?
  {
    set j | |calls0| <= j < |calls| :: calls[j].reservationId
  }

  /** The reservations named by the rejections dispatched after `dispatched0`. */
  ghost function RejectedSince(dispatched0: seq<Rejection>, dispatched: seq<Rejection>): set<Uuid>
    requires |dispatched0| <= |dispatched|
  {
    set j | |dispatched0| <= j < |dispatched| :: dispatched[j].reservationId
  }

  /**
   * The calls added after `calls0` are new reserves, with their queued
   * reservation, of exactly the polled reservations held locally, one each.
   */
  ghost predicate ReReserveCalls(calls0: seq<AmCall>, calls: seq<AmCall>, q0: map<Uuid, BackedOff>,
                                 local0: map<Uuid, PlacedReservationImpl>, polled: set<Uuid>)
  {
    |calls| >= |calls0| && calls[..|calls0|] == calls0
    && (forall j :: |calls0| <= j < |calls| ==>
          calls[j].ReserveCall? && calls[j].reservationId in polled && calls[j].reservationId in q0
          && calls[j].reservationId in local0
          && calls[j].reservation == q0[calls[j].reservationId].reservation)
    && (forall i, j :: |calls0| <= i < j < |calls| ==> calls[i].reservationId != calls[j].reservationId)
    && CalledSince(calls0, calls) == ReReservedOf(polled, local0)
  }

  /**
   * The rejections added after `dispatched0` are for exactly the polled
   * reservations held locally whose reserve failed, one each, addressed to
   * their client.
   */
  ghost predicate ReReserveRejections(dispatched0: seq<Rejection>, dispatched: seq<Rejection>, q0: map<Uuid, BackedOff>,
                                      local0: map<Uuid, PlacedReservationImpl>, polled: set<Uuid>, failing: set<Uuid>)
  {
    |dispatched| >= |dispatched0| && dispatched[..|dispatched0|] == dispatched0
    && (forall j :: |dispatched0| <= j < |dispatched| ==>
          dispatched[j].reservationId in polled && dispatched[j].reservationId in q0
          && dispatched[j].reservationId in failing && dispatched[j].reservationId in local0
          && dispatched[j].clientId == q0[dispatched[j].reservationId].reservation.handle)
    && (forall i, j :: |dispatched0| <= i < j < |dispatched| ==>
          dispatched[i].reservationId != dispatched[j].reservationId)
    && RejectedSince(dispatched0, dispatched) == FailedOf(polled, local0, failing)
  }

  /**
   * One poll of queued reservation `id`: it leaves the queue; when it is
   * still held locally it is reserved again, then either submitted or, when
   * the reserve fails, forgotten and reported rejected to its client.
   */
  ghost predicate PollStep(q: map<Uuid, BackedOff>, local: map<Uuid, PlacedReservationImpl>, submitted: set<Uuid>,
                           calls: seq<AmCall>, dispatched: seq<Rejection>, id: Uuid, failing: set<Uuid>,
                           q1: map<Uuid, BackedOff>, local1: map<Uuid, PlacedReservationImpl>, submitted1: set<Uuid>,
                           calls1: seq<AmCall>, dispatched1: seq<Rejection>)
    requires id in q
  {
    q1 == q - {id}
    && (id !in local ==> local1 == local && submitted1 == submitted && calls1 == calls && dispatched1 == dispatched)
    && (id in local ==> calls1 == calls + [ReserveCall(id, q[id].reservation)])
    && (id in local && id in failing ==>
          local1 == local - {id} && submitted1 == submitted
          && dispatched1 == dispatched + [Rejection(q[id].reservation.handle, id)])
    && (id in local && id !in failing ==>
          local1 == local && submitted1 == submitted + {id} && dispatched1 == dispatched)
  }

  /** The state after polling the reservations `polled` of the queue `q0`, each expired at `now`. */
  ghost predicate PolledSoFar(q0: map<Uuid, BackedOff>, local0: map<Uuid, PlacedReservationImpl>, submitted0: set<Uuid>,
                              calls0: seq<AmCall>, dispatched0: seq<Rejection>,
                              polled: set<Uuid>, failing: set<Uuid>, now: int,
                              q: map<Uuid, BackedOff>, local: map<Uuid, PlacedReservationImpl>, submitted: set<Uuid>,
                              calls: seq<AmCall>, dispatched: seq<Rejection>)
  {
    polled <= Expired(q0, now)
    && q == q0 - polled
    && local == local0 - FailedOf(polled, local0, failing)
    && submitted == submitted0 + ResubmittedOf(polled, local0, failing)
    && ReReserveCalls(calls0, calls, q0, local0, polled)
    && ReReserveRejections(dispatched0, dispatched, q0, local0, polled, failing)
  }

  lemma CalledSinceStep(calls0: seq<AmCall>, calls: seq<AmCall>, id: Uuid, r: PlacedReservationImpl)
    requires |calls0| <= |calls| && forall j :: |calls0| <= j < |calls| ==> calls[j].ReserveCall?
    ensures CalledSince(calls0, calls + [ReserveCall(id, r)]) == CalledSince(calls0, calls) + {id}
  {
    var calls1 := calls + [ReserveCall(id, r)];
    assert calls1[|calls|].reservationId == id;
    forall k | k in CalledSince(calls0, calls1)
      ensures k in CalledSince(calls0, calls) + {id}
    {
      var j :| |calls0| <= j < |calls1| && calls1[j].reservationId == k;
      if j < |calls| {
        assert calls[j] == calls1[j];
      }
    }
    forall k | k in CalledSince(calls0, calls)
      ensures k in CalledSince(calls0, calls1)
    {
      var j :| |calls0| <= j < |calls| && calls[j].reservationId == k;
      assert calls1[j] == calls[j];
    }
  }

  lemma RejectedSinceStep(dispatched0: seq<Rejection>, dispatched: seq<Rejection>, x: Rejection)
    requires |dispatched0| <= |dispatched|
    ensures RejectedSince(dispatched0, dispatched + [x]) == RejectedSince(dispatched0, dispatched) + {x.reservationId}
  {
    var d1 := dispatched + [x];
    assert d1[|dispatched|].reservationId == x.reservationId;
    forall k | k in RejectedSince(dispatched0, d1)
      ensures k in RejectedSince(dispatched0, dispatched) + {x.reservationId}
    {
      var j :| |dispatched0| <= j < |d1| && d1[j].reservationId == k;
      if j < |dispatched| {
        assert dispatched[j] == d1[j];
      }
    }
    forall k | k in RejectedSince(dispatched0, dispatched)
      ensures k in RejectedSince(dispatched0, d1)
    {
      var j :| |dispatched0| <= j < |dispatched| && dispatched[j].reservationId == k;
      assert d1[j] == dispatched[j];
    }
  }

  lemma PolledSoFarStep(q0: map<Uuid, BackedOff>, local0: map<Uuid, PlacedReservationImpl>, submitted0: set<Uuid>,
                        calls0: seq<AmCall>, dispatched0: seq<Rejection>,
                        polled: set<Uuid>, failing: set<Uuid>, now: int,
                        q: map<Uuid, BackedOff>, local: map<Uuid, PlacedReservationImpl>, submitted: set<Uuid>,
                        calls: seq<AmCall>, dispatched: seq<Rejection>, id: Uuid,
                        q1: map<Uuid, BackedOff>, local1: map<Uuid, PlacedReservationImpl>, submitted1: set<Uuid>,
                        calls1: seq<AmCall>, dispatched1: seq<Rejection>)
    requires PolledSoFar(q0, local0, submitted0, calls0, dispatched0, polled, failing, now,
                         q, local, submitted, calls, dispatched)
    requires id in q && q[id].delayedUntil <= now
    requires PollStep(q, local, submitted, calls, dispatched, id, failing, q1, local1, submitted1, calls1, dispatched1)
    ensures PolledSoFar(q0, local0, submitted0, calls0, dispatched0, polled + {id}, failing, now,
                        q1, local1, submitted1, calls1, dispatched1)
  {
    assert id !in polled && q[id] == q0[id];
    assert id in local <==> id in local0;
    assert q0 - (polled + {id}) == q - {id};
    if id in local {
      CalledSinceStep(calls0, calls, id, q[id].reservation);
      assert ReReservedOf(polled + {id}, local0) == ReReservedOf(polled, local0) + {id};
    } else {
      assert ReReservedOf(polled + {id}, local0) == ReReservedOf(polled, local0);
    }
    if id in local && id in failing {
      RejectedSinceStep(dispatched0, dispatched, Rejection(q[id].reservation.handle, id));
      assert FailedOf(polled + {id}, local0, failing) == FailedOf(polled, local0, failing) + {id};
      assert local0 - FailedOf(polled + {id}, local0, failing) == local - {id};
      assert ResubmittedOf(polled + {id}, local0, failing) == ResubmittedOf(polled, local0, failing);
    } else if id in local {
      assert FailedOf(polled + {id}, local0, failing) == FailedOf(polled, local0, failing);
      assert ResubmittedOf(polled + {id}, local0, failing) == ResubmittedOf(polled, local0, failing) + {id};
    } else {
      assert FailedOf(polled + {id}, local0, failing) == FailedOf(polled, local0, failing);
      assert ResubmittedOf(polled + {id}, local0, failing) == ResubmittedOf(polled, local0, failing);
    }
  }

  /** Before the first poll the state is the initial one. */
  lemma NothingPolled(q0: map<Uuid, BackedOff>, local0: map<Uuid, PlacedReservationImpl>, submitted0: set<Uuid>,
                      calls0: seq<AmCall>, dispatched0: seq<Rejection>, failing: set<Uuid>, now: int)
    ensures PolledSoFar(q0, local0, submitted0, calls0, dispatched0, {}, failing, now,
                        q0, local0, submitted0, calls0, dispatched0)
  {
    assert FailedOf({}, local0, failing) == {} && ResubmittedOf({}, local0, failing) == {};
    assert q0 - {} == q0 && local0 - {} == local0;
    assert calls0[..|calls0|] == calls0 && dispatched0[..|dispatched0|] == dispatched0;
    assert ReReservedOf({}, local0) == {};
  }

  /** When the earliest deadline left is after `now`, everything expired has been polled. */
  lemma AllExpiredPolled(q0: map<Uuid, BackedOff>, polled: set<Uuid>, now: int)
    requires polled <= Expired(q0, now)
    requires forall k :: k in q0 - polled ==> (q0 - polled)[k].delayedUntil > now
    ensures polled == Expired(q0, now)
  {
    forall k | k in Expired(q0, now)
      ensures k in polled
    {
      assert k in q0 && q0[k].delayedUntil <= now;
      assert k in polled || k in (q0 - polled).Keys;
    }
  }

  class GangAntiDeadlockLlamaAM {
    const noAllocationLimit: int
    const backOffPercent: int
    const backOffMinDelay: int
    const backOffMaxDelay: int

    var localReservations: map<Uuid, PlacedReservationImpl>
    var submittedReservations: set<Uuid>
    var backedOffReservations: map<Uuid, BackedOff>
    var timeOfLastAllocation: int
    /** The calls made to the wrapped application master, oldest first. */
    var calls: seq<AmCall>
    /** The rejection events dispatched to the listeners. */
    var dispatched: seq<Rejection>

    predicate Valid()
      reads this
    {
      0 < backOffMaxDelay - backOffMinDelay <= INT_MAX
      && Consistent(localReservations, submittedReservations, backedOffReservations)
    }

    /** start: the configuration is read and the clock starts at `now`, with nothing held. */
    constructor(noAllocationLimit: int, backOffPercent: int, backOffMinDelay: int, backOffMaxDelay: int, now: int)
      requires 0 < backOffMaxDelay - backOffMinDelay <= INT_MAX
      ensures Valid()
      ensures this.noAllocationLimit == noAllocationLimit && this.backOffPercent == backOffPercent
      ensures this.backOffMinDelay == backOffMinDelay && this.backOffMaxDelay == backOffMaxDelay
      ensures localReservations == map[] && submittedReservations == {} && backedOffReservations == map[]
      ensures timeOfLastAllocation == now && calls == [] && dispatched == []
    {
      this.noAllocationLimit := noAllocationLimit;
      this.backOffPercent := backOffPercent;
      this.backOffMinDelay := backOffMinDelay;
      this.backOffMaxDelay := backOffMaxDelay;
      localReservations := map[];
      submittedReservations := {};
      backedOffReservations := map[];
      timeOfLastAllocation := now;
      calls := [];
      dispatched := [];
    }

    /** getBackOffDelay: a random delay in [min, max). */
    method GetBackOffDelay() returns (d: int)
      requires 0 < backOffMaxDelay - backOffMinDelay
      ensures backOffMinDelay <= d < backOffMaxDelay
    {
      var r :| 0 <= r < backOffMaxDelay - backOffMinDelay;
      d := backOffMinDelay + r;
    }

    /**
     * gReserve: the reservation is always held locally; it is submitted when
     * nothing is backed off, and otherwise queued behind the backed-off ones
     * with a back-off delay.
     */
    method GReserve(reservationId: Uuid, placed: PlacedReservationImpl, now: int)
      requires Valid()
      requires placed.reservationId == Some(reservationId) && |placed.resources| > 0
      requires reservationId !in localReservations && reservationId !in backedOffReservations
      modifies this
      ensures Valid()
      ensures localReservations == old(localReservations)[reservationId := placed]
      ensures old(backedOffReservations) == map[] ==>
        submittedReservations == old(submittedReservations) + {reservationId}
        && backedOffReservations == old(backedOffReservations)
      ensures old(backedOffReservations) != map[] ==>
        submittedReservations == old(submittedReservations)
        && backedOffReservations.Keys == old(backedOffReservations).Keys + {reservationId}
        && backedOffReservations - {reservationId} == old(backedOffReservations)
        && backedOffReservations[reservationId].reservation == placed
        && backOffMinDelay <= backedOffReservations[reservationId].delayedUntil - now < backOffMaxDelay
      ensures timeOfLastAllocation == old(timeOfLastAllocation) && calls == old(calls) && dispatched == old(dispatched)
    {
      localReservations := localReservations[reservationId := placed];
      if backedOffReservations == map[] {
        submittedReservations := submittedReservations + {reservationId};
      } else {
        var d := GetBackOffDelay();
        backedOffReservations := backedOffReservations[reservationId := BackedOff(placed, now + d)];
      }
    }

    /**
     * reserve: only a gang reservation is placed and held here (through
     * gReserve); every reservation is passed on to the wrapped application
     * master, whose failure, if any, is `reserveFailure`.
     */
    method Reserve(reservationId: Uuid, reservation: PlacedReservationImpl, now: int, reserveFailure: Option<LlamaError>)
      returns (err: Option<LlamaError>)
      requires Valid()
      requires |reservation.resources| > 0
      requires reservationId !in localReservations && reservationId !in backedOffReservations
      modifies this
      ensures Valid()
      ensures err == reserveFailure
      ensures !reservation.gang ==>
        localReservations == old(localReservations) && submittedReservations == old(submittedReservations)
        && backedOffReservations == old(backedOffReservations)
        && calls == old(calls) + [ReserveCall(reservationId, reservation)]
      ensures reservation.gang ==>
        localReservations.Keys == old(localReservations).Keys + {reservationId}
        && localReservations[reservationId].status == Some(RPending)
        && localReservations[reservationId].handle == reservation.handle
        && |localReservations[reservationId].resources| == |reservation.resources|
        && (reservationId in submittedReservations <==> old(backedOffReservations) == map[])
        && calls == old(calls) + [ReserveCall(reservationId, localReservations[reservationId])]
      ensures reservation.gang ==>
        PlacedFrom(localReservations[reservationId], reservationId, reservation, now)
        && localReservations == old(localReservations)[reservationId := localReservations[reservationId]]
      ensures reservation.gang && old(backedOffReservations) == map[] ==>
        submittedReservations == old(submittedReservations) + {reservationId}
        && backedOffReservations == old(backedOffReservations)
      ensures reservation.gang && old(backedOffReservations) != map[] ==>
        submittedReservations == old(submittedReservations)
        && backedOffReservations.Keys == old(backedOffReservations).Keys + {reservationId}
        && backedOffReservations - {reservationId} == old(backedOffReservations)
        && backedOffReservations[reservationId].reservation == localReservations[reservationId]
        && backOffMinDelay <= backedOffReservations[reservationId].delayedUntil - now < backOffMaxDelay
      ensures timeOfLastAllocation == old(timeOfLastAllocation) && dispatched == old(dispatched)
    {
      var toReserve := reservation;
      if reservation.gang {
        var placed := Place(reservationId, reservation, now);
        GReserve(reservationId, placed, now);
        toReserve := placed;
      }
      calls := calls + [ReserveCall(reservationId, toReserve)];
      err := reserveFailure;
    }

    /** getReservation: the wrapped application master's answer, or else the locally held reservation. */
    method GetReservation(reservationId: Uuid, answer: Option<PlacedReservationImpl>)
      returns (r: Option<PlacedReservationImpl>)
      modifies this
      ensures answer.Some? ==> r == answer
      ensures answer.None? && reservationId in localReservations ==> r == Some(localReservations[reservationId])
      ensures answer.None? && reservationId !in localReservations ==> r.None?
      ensures calls == old(calls) + [GetReservationCall(reservationId)]
      ensures localReservations == old(localReservations) && submittedReservations == old(submittedReservations)
      ensures backedOffReservations == old(backedOffReservations)
      ensures timeOfLastAllocation == old(timeOfLastAllocation) && dispatched == old(dispatched)
    {
      calls := calls + [GetReservationCall(reservationId)];
      r := answer;
      if r.None? && reservationId in localReservations {
        r := Some(localReservations[reservationId]);
      }
    }

    /** gReleaseReservation: forgets the reservation locally. */
    method GReleaseReservation(reservationId: Uuid)
      requires Valid()
      modifies this
      ensures Valid()
      ensures localReservations == old(localReservations) - {reservationId}
      ensures submittedReservations == old(submittedReservations) - {reservationId}
      ensures backedOffReservations == old(backedOffReservations)
      ensures timeOfLastAllocation == old(timeOfLastAllocation) && calls == old(calls) && dispatched == old(dispatched)
    {
      localReservations := localReservations - {reservationId};
      submittedReservations := submittedReservations - {reservationId};
    }

    /** releaseReservation: forgotten locally, then released by the wrapped application master. */
    method ReleaseReservation(reservationId: Uuid, releaseFailure: Option<LlamaError>)
      returns (err: Option<LlamaError>)
      requires Valid()
      modifies this
      ensures Valid()
      ensures err == releaseFailure
      ensures localReservations == old(localReservations) - {reservationId}
      ensures submittedReservations == old(submittedReservations) - {reservationId}
      ensures calls == old(calls) + [ReleaseCall(reservationId)]
      ensures backedOffReservations == old(backedOffReservations)
      ensures timeOfLastAllocation == old(timeOfLastAllocation) && dispatched == old(dispatched)
    {
      GReleaseReservation(reservationId);
      calls := calls + [ReleaseCall(reservationId)];
      err := releaseFailure;
    }

    /**
     * gReleaseReservationsForClientId: removes exactly the local reservations
     * of the client and returns their ids, each once.
     */
    method GReleaseReservationsForClientId(clientId: Uuid) returns (ids: seq<Uuid>)
      requires Valid()
      modifies this
      ensures Valid()
      ensures NoDuplicates(ids)
      ensures forall id :: id in ids <==>
        id in old(localReservations) && old(localReservations)[id].handle == Some(clientId)
      ensures localReservations == old(localReservations) - set id | id in ids
      ensures submittedReservations == old(submittedReservations) - set id | id in ids
      ensures backedOffReservations == old(backedOffReservations)
      ensures timeOfLastAllocation == old(timeOfLastAllocation) && calls == old(calls) && dispatched == old(dispatched)
    {
      ids := HeldBy(localReservations, clientId);
      ForgetAll(ids);
    }

    /**
     * releaseReservationsForClientId: the wrapped application master's ids
     * (`amAnswer`, or its failure) together with the local ones, without
     * duplicates.
     */
    method ReleaseReservationsForClientId(clientId: Uuid, amAnswer: Result<seq<Uuid>, LlamaError>)
      returns (r: Result<seq<Uuid>, LlamaError>)
      requires Valid()
      modifies this
      ensures Valid()
      ensures calls == old(calls) + [ReleaseForClientIdCall(clientId)]
      ensures amAnswer.Failure? ==>
        r == Failure(amAnswer.error) && localReservations == old(localReservations)
        && submittedReservations == old(submittedReservations)
      ensures amAnswer.Success? ==>
        r.Success? && NoDuplicates(r.value)
        && (forall id :: id in r.value <==>
              id in amAnswer.value
              || (id in old(localReservations) && old(localReservations)[id].handle == Some(clientId)))
        && localReservations.Keys <= old(localReservations).Keys
        && (forall id :: id in old(localReservations) ==>
              (id in localReservations <==> old(localReservations)[id].handle != Some(clientId)))
      ensures amAnswer.Success? ==>
        localReservations == old(localReservations) - HeldIds(old(localReservations), clientId)
        && submittedReservations == old(submittedReservations) - HeldIds(old(localReservations), clientId)
      ensures backedOffReservations == old(backedOffReservations)
      ensures timeOfLastAllocation == old(timeOfLastAllocation) && dispatched == old(dispatched)
    {
      calls := calls + [ReleaseForClientIdCall(clientId)];
      if amAnswer.Failure? {
        return Failure(amAnswer.error);
      }
      var local := GReleaseReservationsForClientId(clientId);
      assert (set id | id in local) == HeldIds(old(localReservations), clientId);
      r := Success(Dedup(amAnswer.value + local));
    }

    /** Forgets every reservation of `ids` locally. */
    method ForgetAll(ids: seq<Uuid>)
      requires Valid()
      modifies this
      ensures Valid()
      ensures localReservations == old(localReservations) - set id | id in ids
      ensures submittedReservations == old(submittedReservations) - set id | id in ids
      ensures backedOffReservations == old(backedOffReservations)
      ensures timeOfLastAllocation == old(timeOfLastAllocation) && calls == old(calls) && dispatched == old(dispatched)
    {
      for j := 0 to |ids|
        invariant Valid()
        invariant localReservations == old(localReservations) - set id | id in ids[..j]
        invariant submittedReservations == old(submittedReservations) - set id | id in ids[..j]
        invariant backedOffReservations == old(backedOffReservations)
        invariant timeOfLastAllocation == old(timeOfLastAllocation) && calls == old(calls)
        invariant dispatched == old(dispatched)
      {
        assert ids[..j + 1] == ids[..j] + [ids[j]];
        GReleaseReservation(ids[j]);
      }
      assert ids[..|ids|] == ids;
    }

    /**
     * handle: an allocated gang resource of a submitted reservation resets
     * the time of the last allocation; allocated and rejected reservations
     * are forgotten locally.
     */
    method Handle(event: GangEvent, now: int)
      requires Valid()
      modifies this
      ensures Valid()
      ensures timeOfLastAllocation ==
        if exists i :: 0 <= i < |event.allocatedGangResources|
                       && event.allocatedGangResources[i].reservationId.Some?
                       && event.allocatedGangResources[i].reservationId.value in old(submittedReservations)
        then now else old(timeOfLastAllocation)
      ensures localReservations == old(localReservations)
        - (set id | id in event.allocatedReservationIds) - (set id | id in event.rejectedReservationIds)
      ensures submittedReservations == old(submittedReservations)
        - (set id | id in event.allocatedReservationIds) - (set id | id in event.rejectedReservationIds)
      ensures backedOffReservations == old(backedOffReservations) && calls == old(calls) && dispatched == old(dispatched)
    {
      var resources := event.allocatedGangResources;
      var i := 0;
      while i < |resources|
        invariant 0 <= i <= |resources|
        invariant forall j :: 0 <= j < i ==>
          !(resources[j].reservationId.Some? && resources[j].reservationId.value in submittedReservations)
        invariant timeOfLastAllocation == old(timeOfLastAllocation)
      {
        if resources[i].reservationId.Some? && resources[i].reservationId.value in submittedReservations {
          timeOfLastAllocation := now;
          break;
        }
        i := i + 1;
      }
      ForgetAll(event.allocatedReservationIds);
      ForgetAll(event.rejectedReservationIds);
    }

    /** The resources held by the submitted reservations, counted one reservation at a time. */
    method CountSubmittedResources() returns (total: int)
      requires Valid()
      ensures total == ResourceCount(submittedReservations, localReservations)
    {
      total := 0;
      var todo := submittedReservations;
      while todo != {}
        invariant todo <= submittedReservations
        invariant total + ResourceCount(todo, localReservations) == ResourceCount(submittedReservations, localReservations)
        decreases todo
      {
        var id :| id in todo;
        ResourceCountRemove(todo, localReservations, id);
        total := total + |localReservations[id].resources|;
        todo := todo - {id};
      }
    }

    /**
     * The loop of doReservationsBackOff, on the collections it changes:
     * random submitted reservations are released (those in `failing` fail
     * and stay submitted) until the released ones hold the target share of
     * the `total` submitted resources, and each released one is queued with
     * a back-off delay.
     */
    method BackOffVictims(local: map<Uuid, PlacedReservationImpl>, submitted0: set<Uuid>,
                          backedOff0: map<Uuid, BackedOff>, calls0: seq<AmCall>,
                          total: int, now: int, failing: set<Uuid>)
      returns (submitted: set<Uuid>, backedOff: map<Uuid, BackedOff>, made: seq<AmCall>)
      requires 0 < backOffMaxDelay - backOffMinDelay && Consistent(local, submitted0, backedOff0)
      requires total == ResourceCount(submitted0, local)
      ensures Consistent(local, submitted, backedOff)
      ensures IsBackOff(local, submitted0, backedOff0, submitted, backedOff,
                        now, failing, backOffPercent, backOffMinDelay, backOffMaxDelay)
      ensures BackOffCalls(calls0, made, submitted0, submitted, failing)
    {
      var toGetRidOff := BackOffTarget(total, backOffPercent);
      var gotRidOff := 0;
      submitted, backedOff, made := submitted0, backedOff0, calls0;
      ghost var lastVictim: Uuid := 0;
      while gotRidOff < toGetRidOff && submitted != {}
        invariant Consistent(local, submitted, backedOff)
        invariant BackedOffSoFar(local, submitted0, backedOff0, submitted, backedOff,
                                 now, failing, backOffMinDelay, backOffMaxDelay)
        invariant Progress(local, submitted0, submitted, failing, gotRidOff, toGetRidOff, lastVictim)
        invariant BackOffCalls(calls0, made, submitted0, submitted, failing)
        decreases toGetRidOff - gotRidOff
      {
        var victim :| victim in submitted;
        var reservation := local[victim];
        BackOffCallsStep(calls0, made, submitted0, submitted, failing, victim);
        made := made + [ReleaseCall(victim)];
        if victim !in failing {
          var d := GetBackOffDelay();
          BackedOffSoFarStep(local, submitted0, backedOff0, submitted, backedOff,
                             now, failing, backOffMinDelay, backOffMaxDelay, victim, d);
          BackOffKeepsConsistent(local, submitted, backedOff, victim, BackedOff(reservation, now + d));
          ProgressBackedOff(local, submitted0, submitted, failing, gotRidOff, toGetRidOff, lastVictim, victim);
          backedOff := backedOff[victim := BackedOff(reservation, now + d)];
          submitted := submitted - {victim};
          lastVictim := victim;
        } else {
          ProgressFailedRelease(local, submitted0, submitted, failing, gotRidOff, toGetRidOff, lastVictim, victim);
        }
        gotRidOff := gotRidOff + |reservation.resources|;
      }
      BackOffDone(local, submitted0, backedOff0, submitted, backedOff,
                  now, failing, backOffPercent, backOffMinDelay, backOffMaxDelay, gotRidOff, lastVictim);
    }

    /**
     * doReservationsBackOff: when something is submitted, backs off part of
     * it as BackOffVictims describes; the clock of the last allocation
     * restarts at `now` in every case.
     */
    method DoReservationsBackOff(now: int, failing: set<Uuid>)
      requires Valid()
      modifies this
      ensures Valid()
      ensures IsBackOff(old(localReservations), old(submittedReservations), old(backedOffReservations),
                        submittedReservations, backedOffReservations,
                        now, failing, backOffPercent, backOffMinDelay, backOffMaxDelay)
      ensures localReservations == old(localReservations)
      ensures timeOfLastAllocation == now
      ensures BackOffCalls(old(calls), calls, old(submittedReservations), submittedReservations, failing)
      ensures dispatched == old(dispatched)
    {
      var submitted, backedOff, made := submittedReservations, backedOffReservations, calls;
      if submitted != {} {
        var total := CountSubmittedResources();
        submitted, backedOff, made :=
          BackOffVictims(localReservations, submitted, backedOff, made, total, now, failing);
      } else {
        NothingToBackOff(localReservations, submitted, backedOff, made,
                         now, failing, backOffPercent, backOffMinDelay, backOffMaxDelay);
      }
      submittedReservations, backedOffReservations, calls, timeOfLastAllocation := submitted, backedOff, made, now;
    }

    /**
     * deadlockAvoidance: when no allocation has happened for at least the
     * limit, back off and wait the limit again; otherwise change nothing and
     * report the time since the last allocation.
     */
    method DeadlockAvoidance(now: int, failing: set<Uuid>) returns (sleepTime: int)
      requires Valid()
      modifies this
      ensures Valid()
      ensures var elapsed := now - old(timeOfLastAllocation);
        if elapsed >= noAllocationLimit then
          sleepTime == noAllocationLimit && timeOfLastAllocation == now
          && IsBackOff(old(localReservations), old(submittedReservations), old(backedOffReservations),
                       submittedReservations, backedOffReservations,
                       now, failing, backOffPercent, backOffMinDelay, backOffMaxDelay)
          && BackOffCalls(old(calls), calls, old(submittedReservations), submittedReservations, failing)
        else
          sleepTime == elapsed && timeOfLastAllocation == old(timeOfLastAllocation)
          && submittedReservations == old(submittedReservations)
          && backedOffReservations == old(backedOffReservations) && calls == old(calls)
      ensures localReservations == old(localReservations) && dispatched == old(dispatched)
    {
      var elapsed := now - timeOfLastAllocation;
      if elapsed >= noAllocationLimit {
        DoReservationsBackOff(now, failing);
        sleepTime := noAllocationLimit;
      } else {
        sleepTime := elapsed;
      }
    }

    /**
     * reReserveBackOffs: every queued reservation whose deadline has passed
     * is taken off the queue, earliest first; one that is still held locally
     * is reserved again and submitted, or, when that fails (`failing`),
     * forgotten and reported rejected to its client.  The result is the time
     * until the next deadline, or Long.MAX_VALUE when nothing is queued.
     */
    method ReReserveBackOffs(now: int, failing: set<Uuid>) returns (delay: int)
      requires Valid()
      modifies this
      ensures Valid()
      ensures PolledSoFar(old(backedOffReservations), old(localReservations), old(submittedReservations),
                          old(calls), old(dispatched), Expired(old(backedOffReservations), now), failing, now,
                          backedOffReservations, localReservations, submittedReservations, calls, dispatched)
      ensures backedOffReservations == map[] ==> delay == LONG_MAX
      ensures backedOffReservations != map[] ==>
        delay > 0
        && (exists k :: k in backedOffReservations && backedOffReservations[k].delayedUntil - now == delay)
        && forall k :: k in backedOffReservations ==> backedOffReservations[k].delayedUntil - now >= delay
      ensures timeOfLastAllocation == old(timeOfLastAllocation)
    {
      backedOffReservations, localReservations, submittedReservations, calls, dispatched :=
        PollExpired(backedOffReservations, localReservations, submittedReservations, calls, dispatched,
                    now, failing);
      delay := NextDelay(now);
    }

    /**
     * The polling loop of reReserveBackOffs, on the collections it changes:
     * the head of the delay queue is polled while its deadline has passed.
     */
    method PollExpired(q0: map<Uuid, BackedOff>, local0: map<Uuid, PlacedReservationImpl>, submitted0: set<Uuid>,
                       calls0: seq<AmCall>, dispatched0: seq<Rejection>, now: int, failing: set<Uuid>)
      returns (q: map<Uuid, BackedOff>, local: map<Uuid, PlacedReservationImpl>, submitted: set<Uuid>,
               made: seq<AmCall>, rejected: seq<Rejection>)
      requires Consistent(local0, submitted0, q0)
      ensures Consistent(local, submitted, q)
      ensures PolledSoFar(q0, local0, submitted0, calls0, dispatched0, Expired(q0, now), failing, now,
                          q, local, submitted, made, rejected)
      ensures forall k :: k in q ==> q[k].delayedUntil > now
    {
      q, local, submitted, made, rejected := q0, local0, submitted0, calls0, dispatched0;
      ghost var polled: set<Uuid> := {};
      NothingPolled(q0, local0, submitted0, calls0, dispatched0, failing, now);
      var head := ExpiredHead(q, now);
      while head.Some?
        invariant Consistent(local, submitted, q)
        invariant PolledSoFar(q0, local0, submitted0, calls0, dispatched0, polled, failing, now,
                              q, local, submitted, made, rejected)
        invariant head.Some? ==> head.value in q && q[head.value].delayedUntil <= now
        invariant head.None? ==> forall k :: k in q ==> q[k].delayedUntil > now
        decreases |q|
      {
        q, local, submitted, made, rejected :=
          PollOne(q, local, submitted, made, rejected, head.value, failing,
                  q0, local0, submitted0, calls0, dispatched0, polled, now);
        polled := polled + {head.value};
        head := ExpiredHead(q, now);
      }
      AllExpiredPolled(q0, polled, now);
      assert polled == Expired(q0, now);
    }

    /**
     * poll() of the delay queue: its earliest entry when that entry's
     * deadline has passed, and None otherwise.
     */
    method ExpiredHead(q: map<Uuid, BackedOff>, now: int) returns (head: Option<Uuid>)
      ensures head.Some? ==>
        head.value in q && q[head.value].delayedUntil <= now
        && forall j :: j in q ==> q[head.value].delayedUntil <= q[j].delayedUntil
      ensures head.None? ==> forall k :: k in q ==> q[k].delayedUntil > now
    {
      if q == map[] {
        return None;
      }
      EarliestExists(q);
      var id :| id in q && forall j :: j in q ==> q[id].delayedUntil <= q[j].delayedUntil;
      if q[id].delayedUntil <= now {
        head := Some(id);
      } else {
        head := None;
      }
    }

    /**
     * One poll of the delay queue (see PollStep), on the collections it
     * changes; the ghost parameters describe the polls made before it.
     */
    method PollOne(q: map<Uuid, BackedOff>, local: map<Uuid, PlacedReservationImpl>, submitted: set<Uuid>,
                   made: seq<AmCall>, rejected: seq<Rejection>, id: Uuid, failing: set<Uuid>,
                   ghost q0: map<Uuid, BackedOff>, ghost local0: map<Uuid, PlacedReservationImpl>,
                   ghost submitted0: set<Uuid>, ghost calls0: seq<AmCall>, ghost dispatched0: seq<Rejection>,
                   ghost polled: set<Uuid>, ghost now: int)
      returns (q1: map<Uuid, BackedOff>, local1: map<Uuid, PlacedReservationImpl>, submitted1: set<Uuid>,
               made1: seq<AmCall>, rejected1: seq<Rejection>)
      requires Consistent(local, submitted, q) && id in q
      requires q[id].delayedUntil <= now
      requires PolledSoFar(q0, local0, submitted0, calls0, dispatched0, polled, failing, now,
                           q, local, submitted, made, rejected)
      ensures Consistent(local1, submitted1, q1)
      ensures PollStep(q, local, submitted, made, rejected, id, failing, q1, local1, submitted1, made1, rejected1)
      ensures PolledSoFar(q0, local0, submitted0, calls0, dispatched0, polled + {id}, failing, now,
                          q1, local1, submitted1, made1, rejected1)
    {
      var br := q[id];
      PollKeepsConsistent(local, submitted, q, id);
      q1, local1, submitted1, made1, rejected1 := q - {id}, local, submitted, made, rejected;
      if id in local {
        made1 := made + [ReserveCall(id, br.reservation)];
        if id in failing {
          local1 := local - {id};
          rejected1 := rejected + [Rejection(br.reservation.handle, id)];
        } else {
          submitted1 := submitted + {id};
        }
      }
      PolledSoFarStep(q0, local0, submitted0, calls0, dispatched0, polled, failing, now,
                      q, local, submitted, made, rejected, id,
                      q1, local1, submitted1, made1, rejected1);
    }

    /** The time until the earliest deadline of the delay queue, or Long.MAX_VALUE when it is empty. */
    method NextDelay(now: int) returns (delay: int)
      ensures backedOffReservations == map[] ==> delay == LONG_MAX
      ensures backedOffReservations != map[] ==>
        (exists k :: k in backedOffReservations && backedOffReservations[k].delayedUntil - now == delay)
        && forall k :: k in backedOffReservations ==> backedOffReservations[k].delayedUntil - now >= delay
    {
      if backedOffReservations == map[] {
        delay := LONG_MAX;
      } else {
        EarliestExists(backedOffReservations);
        var id :| id in backedOffReservations
          && forall j :: j in backedOffReservations ==>
               backedOffReservations[id].delayedUntil <= backedOffReservations[j].delayedUntil;
        delay := backedOffReservations[id].delayedUntil - now;
      }
    }
  }
}
