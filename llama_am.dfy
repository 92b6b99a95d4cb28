/**
 * The earlier generation of the API (package com.cloudera.llama.am of the
 * llama-am-api module) that the Thrift conversions and the per-queue router
 * are written against.
 *
 * llama-am-api/src/main/java/com/cloudera/llama/am/PlacedReservation.java is
 * modelled here.  Resource, Reservation, PlacedResource and LlamaAMEvent of
 * this generation are not part of this model: they are records of the fields
 * their callers read, and their constructors are taken to store their
 * arguments.
 */
module LlamaAm {

  import opened Common
  import LlamaApi

  /** A requested resource of this generation; the enforcement enum is kept by its name. */
  datatype AmResource = AmResource(
    clientResourceId: Uuid,
    location: string,
    enforcement: string,
    vCpuCores: int,
    memoryMb: int)

  datatype AmReservation = AmReservation(handle: Uuid, queue: string, resources: seq<AmResource>, gang: bool)

  /** A resource the resource manager allocated. */
  datatype AmPlacedResource = AmPlacedResource(
    reservationId: Uuid,
    clientResourceId: Uuid,
    rmResourceId: string,
    actualVCpuCores: int,
    actualMemoryMb: int,
    actualLocation: string)

  /** PlacedReservation.Status. */
  datatype Status = Pending | Partial | Allocated

  datatype AmPlacedReservation = AmPlacedReservation(
    reservationId: Uuid,
    clientId: Uuid,
    queue: string,
    resources: seq<AmPlacedResource>,
    gang: bool,
    status: Status)

  /** What the resource manager reports to one client. */
  datatype AmEvent = AmEvent(
    clientId: Uuid,
    allocatedReservationIds: seq<Uuid>,
    allocatedResources: seq<AmPlacedResource>,
    rejectedReservationIds: seq<Uuid>,
    rejectedClientResourceIds: seq<Uuid>,
    lostClientResourceIds: seq<Uuid>,
    preemptedReservationIds: seq<Uuid>,
    preemptedClientResourceIds: seq<Uuid>)

  /** PlacedReservation.equals; None stands for a null argument. */
  predicate PlacedReservationEquals(a: AmPlacedReservation, obj: Option<AmPlacedReservation>)
  {
    obj.Some? && a.reservationId == obj.value.reservationId
  }

  /** PlacedReservation.hashCode. */
  function PlacedReservationHash(a: AmPlacedReservation): int
  {
    LlamaApi.IdHash(a.reservationId)
  }

  /** Equality is equality of reservation ids: symmetric, consistent with the hash code, false for null. */
  lemma PlacedReservationEqualsIsIdentity(a: AmPlacedReservation, b: AmPlacedReservation)
    ensures PlacedReservationEquals(a, Some(b)) <==> a.reservationId == b.reservationId
    ensures PlacedReservationEquals(a, Some(b)) <==> PlacedReservationEquals(b, Some(a))
    ensures PlacedReservationEquals(a, Some(b)) ==> PlacedReservationHash(a) == PlacedReservationHash(b)
    ensures !PlacedReservationEquals(a, None)
  {
  }

  /** Equality ignores the status, queue, gang flag and resources. */
  lemma PlacedReservationEqualityIgnoresState(a: AmPlacedReservation, status: Status, queue: string,
                                              gang: bool, resources: seq<AmPlacedResource>)
    ensures PlacedReservationEquals(a, Some(a.(status := status, queue := queue, gang := gang,
                                               resources := resources)))
  {
  }
}
