/**
 * llama/src/main/java/com/cloudera/llama/am/impl/ExpansionReservationsLlamaAM.java:
 * the wrapper that adds reservation expansions on top of an application
 * master that only knows reservations.  It keeps, for every expanded
 * reservation, the set of its expansions (each with the handle of the client
 * that asked for it), checks the preconditions of an expansion, and cascades
 * the release of a reservation to its expansions.
 *
 * The wrapped application master is represented by the log of the calls made
 * to it; what it answers is a parameter of each operation.  Building the
 * reservation that an expansion asks for
 * (PlacedReservationImpl.createReservationForExpansion) is not part of this
 * model: the call log records the original and the expansion it is built
 * from.
 */
module Expansions {

  import opened Common
  import opened LlamaApi
  import opened PlacedReservations

  /** The expansions of one reservation: expansion id to the handle of the client that asked for it. */
  type ExpansionSet = map<Uuid, Option<Uuid>>

  /** A call made to the wrapped application master. */
  datatype AmCall =
    | ReserveCall(reservationId: Uuid, reservation: PlacedReservationImpl)
    | ReserveForExpansionCall(expansionId: Uuid, original: PlacedReservationImpl, expansion: PlacedReservationImpl)
    | GetReservationCall(reservationId: Uuid)
    | ReleaseCall(handle: Option<Uuid>, reservationId: Uuid, doNotCache: bool)
    | ReleaseForHandleCall(clientHandle: Uuid, doNotCache: bool)
    | ReleaseForQueueCall(queue: string, doNotCache: bool)
    /** The wrapper registering itself as a listener of the wrapped application master. */
    | AddListenerCall

  /** A reservation change an event reports; `final` is whether its status is a final one. */
  datatype Change = Change(reservation: PlacedReservationImpl, final: bool)

  datatype AmEvent = AmEvent(echo: bool, changes: seq<Change>)

  /** ExpansionId.equals: entries are equal by expansion id alone, whatever their handles. */
  predicate ExpansionIdEquals(expansionId: Uuid, handle: Option<Uuid>, other: Option<(Uuid, Option<Uuid>)>)
  {
    other.Some? && other.value.0 == expansionId
  }

  /** ExpansionId.hashCode. */
  function ExpansionIdHash(expansionId: Uuid, handle: Option<Uuid>): int
  {
    IdHash(expansionId)
  }

  /** Equal entries have equal hash codes, and the handle takes no part: so a hash set keeps one entry per expansion id. */
  lemma ExpansionIdIdentity(e1: Uuid, h1: Option<Uuid>, e2: Uuid, h2: Option<Uuid>)
    ensures ExpansionIdEquals(e1, h1, Some((e2, h2))) <==> e1 == e2
    ensures ExpansionIdEquals(e1, h1, Some((e2, h2))) ==> ExpansionIdHash(e1, h1) == ExpansionIdHash(e2, h2)
    ensures ExpansionIdEquals(e1, h1, Some((e2, h2))) <==> ExpansionIdEquals(e2, h2, Some((e1, h1)))
    ensures !ExpansionIdEquals(e1, h1, None)
  {
  }

  /** One release of each expansion of `order`, with that expansion's own handle. */
  function ReleaseCalls(order: seq<Uuid>, expansions: ExpansionSet, doNotCache: bool): (r: seq<AmCall>)
    requires forall e :: e in order ==> e in expansions
    ensures |r| == |order|
    ensures forall j :: 0 <= j < |order| ==> r[j] == ReleaseCall(expansions[order[j]], order[j], doNotCache)
  {
    seq(|order|, j requires 0 <= j < |order| => ReleaseCall(expansions[order[j]], order[j], doNotCache))
  }

  /** `made` releases every expansion of `expansions` exactly once, each with its own handle. */
  predicate ReleasesEach(made: seq<AmCall>, expansions: ExpansionSet, doNotCache: bool)
  {
    |made| == |expansions|
    && (forall j :: 0 <= j < |made| ==>
          made[j].ReleaseCall? && made[j].reservationId in expansions
          && made[j].handle == expansions[made[j].reservationId] && made[j].doNotCache == doNotCache)
    && (forall e :: e in expansions ==> exists j :: 0 <= j < |made| && made[j].reservationId == e)
  }

  lemma OrderReleasesEach(order: seq<Uuid>, expansions: ExpansionSet, doNotCache: bool)
    requires NoDuplicates(order) && |order| == |expansions.Keys|
    requires forall e :: e in order <==> e in expansions
    ensures ReleasesEach(ReleaseCalls(order, expansions, doNotCache), expansions, doNotCache)
  {
    var made := ReleaseCalls(order, expansions, doNotCache);
    forall e | e in expansions
      ensures exists j :: 0 <= j < |made| && made[j].reservationId == e
    {
      var j :| 0 <= j < |order| && order[j] == e;
      assert made[j].reservationId == e;
    }
  }

  lemma ReleaseCallsStep(order: seq<Uuid>, expansions: ExpansionSet, doNotCache: bool, i: int)
    requires 0 <= i < |order| && forall e :: e in order ==> e in expansions
    ensures ReleaseCalls(order[..i + 1], expansions, doNotCache)
         == ReleaseCalls(order[..i], expansions, doNotCache) + [ReleaseCall(expansions[order[i]], order[i], doNotCache)]
  {
  }

  /** The reservations `changes` reports in a final status. */
  ghost function FinalIds(changes: seq<Change>): set<Uuid>
    requires forall c :: c in changes ==> c.reservation.reservationId.Some?
  {
    set j | 0 <= j < |changes| && changes[j].final :: changes[j].reservation.reservationId.value
  }

  /**
   * `made` is what onEvent releases for `changes` when the wrapper held `m`:
   * in event order, each change in a final status whose reservation still
   * has expansions (held in `m`, not reported final by an earlier change)
   * contributes one block releasing each of those expansions once, and
   * nothing else is called.
   */
  ghost predicate ReleasedFor(made: seq<AmCall>, changes: seq<Change>, m: map<Uuid, ExpansionSet>)
    requires forall c :: c in changes ==> c.reservation.reservationId.Some?
    decreases |changes|
  {
    if changes == [] then made == []
    else
      var front := changes[..|changes| - 1];
      var c := changes[|changes| - 1];
      var id := c.reservation.reservationId.value;
      if c.final && id in m && id !in FinalIds(front) then
        exists k :: 0 <= k <= |made| && ReleasedFor(made[..k], front, m) && ReleasesEach(made[k..], m[id], false)
      else
        ReleasedFor(made, front, m)
  }

  /** For one change, ReleasedFor is a release of each of its expansions, or no call at all. */
  lemma ReleasedForOne(made: seq<AmCall>, c: Change, m: map<Uuid, ExpansionSet>)
    requires c.reservation.reservationId.Some?
    ensures ReleasedFor(made, [c], m) <==>
      if c.final && c.reservation.reservationId.value in m
      then ReleasesEach(made, m[c.reservation.reservationId.value], false)
      else made == []
  {
    var id := c.reservation.reservationId.value;
    assert [c][..0] == [];
    assert FinalIds([]) == {};
    if c.final && id in m {
      if ReleasesEach(made, m[id], false) {
        assert made[..0] == [] && made[0..] == made;
      }
    }
  }

  /** Whatever onEvent calls is a release that does not ask to skip the cache. */
  lemma {:induction false} ReleasedForOnlyReleases(made: seq<AmCall>, changes: seq<Change>, m: map<Uuid, ExpansionSet>)
    requires forall c :: c in changes ==> c.reservation.reservationId.Some?
    requires ReleasedFor(made, changes, m)
    ensures forall j :: 0 <= j < |made| ==> made[j].ReleaseCall? && !made[j].doNotCache
    decreases |changes|
  {
    if changes != [] {
      var front := changes[..|changes| - 1];
      var c := changes[|changes| - 1];
      var id := c.reservation.reservationId.value;
      if c.final && id in m && id !in FinalIds(front) {
        var k :| 0 <= k <= |made| && ReleasedFor(made[..k], front, m) && ReleasesEach(made[k..], m[id], false);
        ReleasedForOnlyReleases(made[..k], front, m);
        forall j | 0 <= j < |made|
          ensures made[j].ReleaseCall? && !made[j].doNotCache
        {
          if j < k {
            assert made[j] == made[..k][j];
          } else {
            assert made[j] == made[k..][j - k];
          }
        }
      } else {
        ReleasedForOnlyReleases(made, front, m);
      }
    }
  }

  /**
   * One change more: when the wrapper still holds `held` (the starting map
   * less the reservations already reported final), a final change with
   * expansions adds one release block for them and any other change adds
   * nothing.
   */
  lemma ReleasedForStep(made0: seq<AmCall>, made1: seq<AmCall>, changes: seq<Change>, i: int,
                        m: map<Uuid, ExpansionSet>, held: map<Uuid, ExpansionSet>)
    requires forall c :: c in changes ==> c.reservation.reservationId.Some?
    requires 0 <= i < |changes|
    requires ReleasedFor(made0, changes[..i], m)
    requires held == m - FinalIds(changes[..i])
    requires var id := changes[i].reservation.reservationId.value;
      if changes[i].final && id in held
      then |made1| >= |made0| && made1[..|made0|] == made0 && ReleasesEach(made1[|made0|..], held[id], false)
      else made1 == made0
    ensures ReleasedFor(made1, changes[..i + 1], m)
    ensures FinalIds(changes[..i + 1])
         == FinalIds(changes[..i]) + (if changes[i].final then {changes[i].reservation.reservationId.value} else {})
  {
    var id := changes[i].reservation.reservationId.value;
    assert changes[..i + 1][..i] == changes[..i];
    assert changes[..i + 1][i] == changes[i];
    if changes[i].final && id in held {
      assert 0 <= |made0| <= |made1| && ReleasedFor(made1[..|made0|], changes[..i], m);
    }
  }

  lemma MapMinusStep(m: map<Uuid, ExpansionSet>, done: set<Uuid>, id: Uuid)
    ensures (m - done) - {id} == m - (done + {id})
  {
  }

  class ExpansionReservationsLlamaAM {
    var reservationToExpansionsMap: map<Uuid, ExpansionSet>
    /** The calls made to the wrapped application master, oldest first. */
    var calls: seq<AmCall>
    /** The events passed on to this application master's listeners. */
    var dispatched: seq<AmEvent>

    /** No reservation is kept with an empty set of expansions. */
    predicate Valid()
      reads this
    {
      forall r :: r in reservationToExpansionsMap ==> reservationToExpansionsMap[r] != map[]
    }

    constructor()
      ensures Valid() && reservationToExpansionsMap == map[] && calls == [AddListenerCall] && dispatched == []
    {
      reservationToExpansionsMap := map[];
      calls := [AddListenerCall];
      dispatched := [];
    }

    /** getExpansions: null for a reservation without expansions, otherwise exactly the recorded expansion ids. */
    method GetExpansions(reservationId: Uuid) returns (r: Option<set<Uuid>>)
      ensures reservationId !in reservationToExpansionsMap ==> r.None?
      ensures reservationId in reservationToExpansionsMap ==>
        r.Some? && forall e :: e in r.value <==> e in reservationToExpansionsMap[reservationId]
    {
      if reservationId !in reservationToExpansionsMap {
        return None;
      }
      var expansions := reservationToExpansionsMap[reservationId];
      var order := IterationOrder(expansions.Keys);
      var ret: set<Uuid> := {};
      for i := 0 to |order|
        invariant forall e :: e in ret <==> e in order[..i]
      {
        ret := ret + {order[i]};
      }
      assert order[..|order|] == order;
      r := Some(ret);
    }

    /**
     * add: records an expansion under its reservation; an expansion id
     * already recorded keeps the handle it was first recorded with.
     */
    method Add(reservationId: Uuid, expansionId: Uuid, handle: Option<Uuid>)
      requires Valid()
      modifies this
      ensures Valid()
      ensures reservationToExpansionsMap.Keys == old(reservationToExpansionsMap).Keys + {reservationId}
      ensures reservationToExpansionsMap - {reservationId} == old(reservationToExpansionsMap) - {reservationId}
      ensures forall r :: r in old(reservationToExpansionsMap) && r != reservationId ==>
        reservationToExpansionsMap[r] == old(reservationToExpansionsMap)[r]
      ensures var before := if reservationId in old(reservationToExpansionsMap)
                            then old(reservationToExpansionsMap)[reservationId] else map[];
        var after := reservationToExpansionsMap[reservationId];
        after.Keys == before.Keys + {expansionId}
        && (forall e :: e in before ==> after[e] == before[e])
        && (expansionId !in before ==> after[expansionId] == handle)
      ensures calls == old(calls) && dispatched == old(dispatched)
    {
      var expansions := if reservationId in reservationToExpansionsMap
                        then reservationToExpansionsMap[reservationId] else map[];
      if expansionId !in expansions {
        expansions := expansions[expansionId := handle];
      }
      reservationToExpansionsMap := reservationToExpansionsMap[reservationId := expansions];
    }

    /** removeExpansionsOf: removes the reservation's whole set and returns it (null when there was none). */
    method RemoveExpansionsOf(reservationId: Uuid) returns (r: Option<ExpansionSet>)
      requires Valid()
      modifies this
      ensures Valid()
      ensures r == if reservationId in old(reservationToExpansionsMap)
                   then Some(old(reservationToExpansionsMap)[reservationId]) else None
      ensures reservationToExpansionsMap == old(reservationToExpansionsMap) - {reservationId}
      ensures calls == old(calls) && dispatched == old(dispatched)
    {
      r := if reservationId in reservationToExpansionsMap then Some(reservationToExpansionsMap[reservationId]) else None;
      reservationToExpansionsMap := reservationToExpansionsMap - {reservationId};
    }

    /** removeExpansion: removes one expansion id, and the reservation's key with it when the set becomes empty. */
    method RemoveExpansion(reservationId: Uuid, expansionId: Uuid)
      requires Valid()
      modifies this
      ensures Valid()
      ensures reservationId in reservationToExpansionsMap ==>
        reservationId in old(reservationToExpansionsMap)
        && reservationToExpansionsMap[reservationId] == old(reservationToExpansionsMap)[reservationId] - {expansionId}
      ensures reservationId !in reservationToExpansionsMap ==>
        reservationId !in old(reservationToExpansionsMap) || old(reservationToExpansionsMap)[reservationId].Keys <= {expansionId}
      ensures reservationToExpansionsMap - {reservationId} == old(reservationToExpansionsMap) - {reservationId}
      ensures reservationToExpansionsMap.Keys <= old(reservationToExpansionsMap).Keys
      ensures forall r :: r in reservationToExpansionsMap ==>
        reservationToExpansionsMap[r].Keys <= old(reservationToExpansionsMap)[r].Keys
      ensures calls == old(calls) && dispatched == old(dispatched)
    {
      if reservationId in reservationToExpansionsMap {
        var expansions := reservationToExpansionsMap[reservationId] - {expansionId};
        if expansions == map[] {
          forall e | e in reservationToExpansionsMap[reservationId]
            ensures e == expansionId
          {
            assert e !in expansions;
          }
          reservationToExpansionsMap := reservationToExpansionsMap - {reservationId};
        } else {
          reservationToExpansionsMap := reservationToExpansionsMap[reservationId := expansions];
        }
      }
    }

    /** reserve: passed straight to the wrapped application master. */
    method Reserve(reservationId: Uuid, reservation: PlacedReservationImpl)
      modifies this
      ensures calls == old(calls) + [ReserveCall(reservationId, reservation)]
      ensures reservationToExpansionsMap == old(reservationToExpansionsMap) && dispatched == old(dispatched)
    {
      calls := calls + [ReserveCall(reservationId, reservation)];
    }

    /**
     * expand: the original (`original`, what the wrapped application master
     * answers for the expansion's reservation id) must exist, must not be an
     * expansion itself and must be allocated, checked in that order.  Then
     * the expansion is reserved (`reserveFailure` is what that call raises,
     * if anything) and recorded; when the original is gone by then
     * (`stillThere` is the second answer) the expansion is released again and
     * the expansion fails as for an unknown reservation.  The entry recorded
     * stays.
     */
    method Expand(expansionId: Uuid, expansion: PlacedReservationImpl, original: Option<PlacedReservationImpl>,
                  reserveFailure: Option<LlamaError>, stillThere: bool)
      returns (err: Option<LlamaError>)
      requires Valid()
      requires expansion.expansionOf.Some?
      modifies this
      ensures Valid()
      ensures var id := expansion.expansionOf.value;
        if original.None? then
          err == Some(Llama(UnknownReservationForExpansion, id)) && calls == old(calls) + [GetReservationCall(id)]
        else if original.value.expansionOf.Some? then
          err == Some(Llama(CannotExpandAnExpansionReservation, id)) && calls == old(calls) + [GetReservationCall(id)]
        else if original.value.status != Some(RAllocated) then
          err == Some(Llama(CannotExpandAReservationNotAllocated, id)) && calls == old(calls) + [GetReservationCall(id)]
        else if reserveFailure.Some? then
          err == reserveFailure
          && calls == old(calls) + [GetReservationCall(id), ReserveForExpansionCall(expansionId, original.value, expansion)]
        else
          calls == old(calls) + [GetReservationCall(id), ReserveForExpansionCall(expansionId, original.value, expansion),
                                 GetReservationCall(id)]
                   + (if stillThere then [] else [ReleaseCall(expansion.handle, expansionId, false)])
          && (err.None? <==> stillThere)
          && (err.Some? ==> err == Some(Llama(UnknownReservationForExpansion, id)))
      ensures var id := expansion.expansionOf.value;
        if original.Some? && original.value.expansionOf.None? && original.value.status == Some(RAllocated)
           && reserveFailure.None?
        then id in reservationToExpansionsMap && expansionId in reservationToExpansionsMap[id]
             && reservationToExpansionsMap - {id} == old(reservationToExpansionsMap) - {id}
        else reservationToExpansionsMap == old(reservationToExpansionsMap)
      ensures dispatched == old(dispatched)
    {
      var id := expansion.expansionOf.value;
      var before := calls;
      calls := before + [GetReservationCall(id)];
      if original.None? {
        return Some(Llama(UnknownReservationForExpansion, id));
      }
      if original.value.expansionOf.Some? {
        return Some(Llama(CannotExpandAnExpansionReservation, id));
      }
      if original.value.status != Some(RAllocated) {
        return Some(Llama(CannotExpandAReservationNotAllocated, id));
      }
      var reserve := ReserveForExpansionCall(expansionId, original.value, expansion);
      calls := before + [GetReservationCall(id), reserve];
      if reserveFailure.Some? {
        return reserveFailure;
      }
      Add(id, expansionId, expansion.handle);
      if !stillThere {
        calls := before + [GetReservationCall(id), reserve, GetReservationCall(id)]
                 + [ReleaseCall(expansion.handle, expansionId, false)];
        return Some(Llama(UnknownReservationForExpansion, id));
      }
      calls := before + [GetReservationCall(id), reserve, GetReservationCall(id)];
      err := None;
    }

    /** getReservation: passed straight to the wrapped application master. */
    method GetReservation(reservationId: Uuid, answer: Option<PlacedReservationImpl>)
      returns (r: Option<PlacedReservationImpl>)
      modifies this
      ensures r == answer && calls == old(calls) + [GetReservationCall(reservationId)]
      ensures reservationToExpansionsMap == old(reservationToExpansionsMap) && dispatched == old(dispatched)
    {
      calls := calls + [GetReservationCall(reservationId)];
      r := answer;
    }

    /**
     * releaseExpansions: the reservation's entry is removed and each of its
     * expansions is released once with its own handle; a release that fails
     * is only logged, so the others still happen.
     */
    method ReleaseExpansions(reservationId: Uuid, doNotCache: bool)
      requires Valid()
      modifies this
      ensures Valid()
      ensures reservationToExpansionsMap == old(reservationToExpansionsMap) - {reservationId}
      ensures |calls| >= |old(calls)| && calls[..|old(calls)|] == old(calls)
      ensures reservationId !in old(reservationToExpansionsMap) ==> calls == old(calls)
      ensures reservationId in old(reservationToExpansionsMap) ==>
        ReleasesEach(calls[|old(calls)|..], old(reservationToExpansionsMap)[reservationId], doNotCache)
      ensures dispatched == old(dispatched)
    {
      var removed := RemoveExpansionsOf(reservationId);
      if removed.None? {
        return;
      }
      var expansions := removed.value;
      var order := IterationOrder(expansions.Keys);
      var before := calls;
      for i := 0 to |order|
        invariant calls == before + ReleaseCalls(order[..i], expansions, doNotCache)
        invariant reservationToExpansionsMap == old(reservationToExpansionsMap) - {reservationId}
        invariant dispatched == old(dispatched)
      {
        ReleaseCallsStep(order, expansions, doNotCache, i);
        calls := calls + [ReleaseCall(expansions[order[i]], order[i], doNotCache)];
      }
      assert order[..|order|] == order;
      assert calls[|before|..] == ReleaseCalls(order, expansions, doNotCache);
      OrderReleasesEach(order, expansions, doNotCache);
    }

    /**
     * releaseReservationAndExpansions: releasing an original cascades to its
     * expansions; releasing an expansion only takes it out of its original's
     * set.
     */
    method ReleaseReservationAndExpansions(reservation: PlacedReservationImpl, doNotCache: bool)
      requires Valid()
      requires reservation.reservationId.Some?
      modifies this
      ensures Valid()
      ensures |calls| >= |old(calls)| && calls[..|old(calls)|] == old(calls)
      ensures var id := reservation.reservationId.value;
        if reservation.expansionOf.None? then
          reservationToExpansionsMap == old(reservationToExpansionsMap) - {id}
          && (id in old(reservationToExpansionsMap) ==>
                ReleasesEach(calls[|old(calls)|..], old(reservationToExpansionsMap)[id], doNotCache))
        else
          var parent := reservation.expansionOf.value;
          calls == old(calls)
          && reservationToExpansionsMap - {parent} == old(reservationToExpansionsMap) - {parent}
          && (parent in reservationToExpansionsMap ==>
                parent in old(reservationToExpansionsMap)
                && reservationToExpansionsMap[parent] == old(reservationToExpansionsMap)[parent] - {id})
      ensures reservationToExpansionsMap.Keys <= old(reservationToExpansionsMap).Keys
      ensures forall r :: r in reservationToExpansionsMap ==>
        reservationToExpansionsMap[r].Keys <= old(reservationToExpansionsMap)[r].Keys
      ensures dispatched == old(dispatched)
    {
      if reservation.expansionOf.None? {
        ReleaseExpansions(reservation.reservationId.value, doNotCache);
      } else {
        RemoveExpansion(reservation.expansionOf.value, reservation.reservationId.value);
      }
    }

    /**
     * releaseReservation: the cascade runs when the wrapped application
     * master knows the reservation (`found`), and then the reservation itself
     * is released there; `answer` is what that last call gives back.
     */
    method ReleaseReservation(handle: Uuid, reservationId: Uuid, doNotCache: bool,
                              found: Option<PlacedReservationImpl>,
                              answer: Result<Option<PlacedReservationImpl>, LlamaError>)
      returns (r: Result<Option<PlacedReservationImpl>, LlamaError>)
      requires Valid()
      requires found.Some? ==> found.value.reservationId == Some(reservationId)
      modifies this
      ensures Valid()
      ensures r == answer
      ensures |calls| >= |old(calls)| + 2 && calls[|old(calls)|] == GetReservationCall(reservationId)
      ensures calls[|calls| - 1] == ReleaseCall(Some(handle), reservationId, doNotCache)
      ensures found.None? ==> reservationToExpansionsMap == old(reservationToExpansionsMap) && |calls| == |old(calls)| + 2
      ensures found.Some? && found.value.expansionOf.None? ==>
        reservationToExpansionsMap == old(reservationToExpansionsMap) - {reservationId}
        && (reservationId in old(reservationToExpansionsMap) ==>
              ReleasesEach(calls[|old(calls)| + 1..|calls| - 1], old(reservationToExpansionsMap)[reservationId], doNotCache))
      ensures found.Some? && found.value.expansionOf.Some? ==>
        var parent := found.value.expansionOf.value;
        |calls| == |old(calls)| + 2
        && reservationToExpansionsMap - {parent} == old(reservationToExpansionsMap) - {parent}
        && (parent in reservationToExpansionsMap ==>
              parent in old(reservationToExpansionsMap)
              && reservationToExpansionsMap[parent] == old(reservationToExpansionsMap)[parent] - {reservationId})
      ensures dispatched == old(dispatched)
    {
      calls := calls + [GetReservationCall(reservationId)];
      var middle := calls;
      if found.Some? {
        ReleaseReservationAndExpansions(found.value, doNotCache);
      }
      var cascade := calls[|middle|..];
      calls := calls + [ReleaseCall(Some(handle), reservationId, doNotCache)];
      assert calls[|old(calls)| + 1..|calls| - 1] == cascade;
      r := answer;
    }

    /**
     * releaseReservationsForHandle: the wrapped application master releases
     * the handle's reservations (`released`), and the cascade runs for each.
     */
    method ReleaseReservationsForHandle(handle: Uuid, doNotCache: bool, released: seq<PlacedReservationImpl>)
      returns (r: seq<PlacedReservationImpl>)
      requires Valid()
      requires forall p :: p in released ==> p.reservationId.Some?
      modifies this
      ensures Valid()
      ensures r == released
      ensures |calls| > |old(calls)| && calls[..|old(calls)| + 1] == old(calls) + [ReleaseForHandleCall(handle, doNotCache)]
      ensures forall p :: p in released && p.expansionOf.None? ==> p.reservationId.value !in reservationToExpansionsMap
      ensures forall p :: p in released && p.expansionOf.Some? && p.expansionOf.value in reservationToExpansionsMap ==>
        p.reservationId.value !in reservationToExpansionsMap[p.expansionOf.value]
      ensures reservationToExpansionsMap.Keys <= old(reservationToExpansionsMap).Keys
      ensures forall k :: k in reservationToExpansionsMap ==>
        reservationToExpansionsMap[k].Keys <= old(reservationToExpansionsMap)[k].Keys
      ensures dispatched == old(dispatched)
    {
      calls := calls + [ReleaseForHandleCall(handle, doNotCache)];
      var prefix := calls;
      for i := 0 to |released|
        invariant Valid()
        invariant |calls| >= |prefix| && calls[..|prefix|] == prefix
        invariant forall j :: 0 <= j < i && released[j].expansionOf.None? ==>
          released[j].reservationId.value !in reservationToExpansionsMap
        invariant forall j ::
          (0 <= j < i && released[j].expansionOf.Some? && released[j].expansionOf.value in reservationToExpansionsMap) ==>
          released[j].reservationId.value !in reservationToExpansionsMap[released[j].expansionOf.value]
        invariant reservationToExpansionsMap.Keys <= old(reservationToExpansionsMap).Keys
        invariant forall k :: k in reservationToExpansionsMap ==>
          reservationToExpansionsMap[k].Keys <= old(reservationToExpansionsMap)[k].Keys
        invariant dispatched == old(dispatched)
      {
        ReleaseReservationAndExpansions(released[i], doNotCache);
      }
      r := released;
    }

    /**
     * releaseReservationsForQueue: the wrapped application master has
     * already released the expansions with their reservations (they are in
     * the same queue), so only the cross references are cleared.
     */
    method ReleaseReservationsForQueue(queue: string, doNotCache: bool, released: seq<PlacedReservationImpl>)
      returns (r: seq<PlacedReservationImpl>)
      requires Valid()
      requires forall p :: p in released ==> p.reservationId.Some?
      modifies this
      ensures Valid()
      ensures r == released
      ensures calls == old(calls) + [ReleaseForQueueCall(queue, doNotCache)]
      ensures reservationToExpansionsMap == old(reservationToExpansionsMap) - set p | p in released :: p.reservationId.value
      ensures dispatched == old(dispatched)
    {
      calls := calls + [ReleaseForQueueCall(queue, doNotCache)];
      for i := 0 to |released|
        invariant Valid()
        invariant calls == old(calls) + [ReleaseForQueueCall(queue, doNotCache)]
        invariant reservationToExpansionsMap
               == old(reservationToExpansionsMap) - set j | 0 <= j < i :: released[j].reservationId.value
        invariant dispatched == old(dispatched)
      {
        var _ := RemoveExpansionsOf(released[i].reservationId.value);
        assert (set j | 0 <= j < i + 1 :: released[j].reservationId.value)
            == (set j | 0 <= j < i :: released[j].reservationId.value) + {released[i].reservationId.value};
      }
      assert (set j | 0 <= j < |released| :: released[j].reservationId.value)
          == set p | p in released :: p.reservationId.value;
      r := released;
    }

    /**
     * One iteration of onEvent's loop: the expansions of change `i` are
     * released if it is final, which extends ReleasedFor and the removed
     * reservations by that change.  `m0` and `calls0` are the state before
     * the loop.
     */
    method ReleaseIfFinal(changes: seq<Change>, i: int, ghost m0: map<Uuid, ExpansionSet>, ghost calls0: seq<AmCall>)
      requires Valid()
      requires forall c :: c in changes ==> c.reservation.reservationId.Some?
      requires 0 <= i < |changes|
      requires |calls| >= |calls0| && calls[..|calls0|] == calls0
      requires reservationToExpansionsMap == m0 - FinalIds(changes[..i])
      requires ReleasedFor(calls[|calls0|..], changes[..i], m0)
      modifies this
      ensures Valid()
      ensures |calls| >= |calls0| && calls[..|calls0|] == calls0
      ensures reservationToExpansionsMap == m0 - FinalIds(changes[..i + 1])
      ensures ReleasedFor(calls[|calls0|..], changes[..i + 1], m0)
      ensures dispatched == old(dispatched)
    {
      ghost var before, held := calls, reservationToExpansionsMap;
      var id := changes[i].reservation.reservationId.value;
      if changes[i].final {
        ReleaseExpansions(id, false);
      }
      ghost var made0, made1 := before[|calls0|..], calls[|calls0|..];
      assert made1[..|made0|] == made0 && made1[|made0|..] == calls[|before|..];
      ReleasedForStep(made0, made1, changes, i, m0, held);
      if changes[i].final {
        MapMinusStep(m0, FinalIds(changes[..i]), id);
      }
    }

    /**
     * onEvent: unless the event is an echo, every reservation it reports in
     * a final status has its expansions released; the event is always passed
     * on.
     */
    method OnEvent(event: AmEvent)
      requires Valid()
      requires forall c :: c in event.changes ==> c.reservation.reservationId.Some?
      modifies this
      ensures Valid()
      ensures dispatched == old(dispatched) + [event]
      ensures event.echo ==> reservationToExpansionsMap == old(reservationToExpansionsMap) && calls == old(calls)
      ensures !event.echo ==>
        reservationToExpansionsMap == old(reservationToExpansionsMap)
          - set c | c in event.changes && c.final :: c.reservation.reservationId.value
      ensures |calls| >= |old(calls)| && calls[..|old(calls)|] == old(calls)
      ensures !event.echo ==> ReleasedFor(calls[|old(calls)|..], event.changes, old(reservationToExpansionsMap))
    {
      if !event.echo {
        var changes := event.changes;
        assert changes[..0] == [];
        for i := 0 to |changes|
          invariant Valid()
          invariant |calls| >= |old(calls)| && calls[..|old(calls)|] == old(calls)
          invariant reservationToExpansionsMap == old(reservationToExpansionsMap) - FinalIds(changes[..i])
          invariant ReleasedFor(calls[|old(calls)|..], changes[..i], old(reservationToExpansionsMap))
          invariant dispatched == old(dispatched)
        {
          ReleaseIfFinal(changes, i, old(reservationToExpansionsMap), old(calls));
        }
        assert changes[..|changes|] == changes;
        assert FinalIds(changes) == set c | c in changes && c.final :: c.reservation.reservationId.value;
      }
      dispatched := dispatched + [event];
    }
  }
}
