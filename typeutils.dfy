/**
 * llama-thrift-am/src/main/java/com/cloudera/llama/am/server/thrift/TypeUtils.java:
 * the conversions between the Thrift wire records and the application
 * master's own types, and the status records the Thrift service answers with.
 *
 * A Thrift `i64` is a signed 64-bit long and an `i16` a signed short; the
 * Java UUID keeps its 128 bits as two signed longs (most significant first).
 * The enforcement enums of both sides are kept by name: `valueOf` succeeds
 * exactly for the names in `enforcementNames`, the constants of
 * Resource.LocationEnforcement, which is not part of this model.
 */
module TypeUtils {

  import opened Common
  import opened LlamaApi
  import opened LlamaAm

  const TWO_63: int := 0x8000_0000_0000_0000

  /** A Java long. */
  type Long = x: int | -TWO_63 <= x < TWO_63

  /** A Java short. */
  type Short = x: int | -0x8000 <= x < 0x8000

  // ---------------------------------------------------------------------------
  // Statuses
  // ---------------------------------------------------------------------------

  /** The status codes the conversions produce. */
  datatype TStatusCode = OK | RuntimeError | InternalError

  /** A TStatus; the message list is optional (unset in OK). */
  datatype TStatus = TStatus(statusCode: TStatusCode, errorMsgs: Option<seq<string>>)

  /** The shared OK status. */
  const OK_STATUS := TStatus(OK, None)

  /** createRuntimeError: a RUNTIME_ERROR carrying the messages in the given order. */
  function CreateRuntimeError(msgs: seq<string>): (s: TStatus)
    ensures s.statusCode == RuntimeError && s.errorMsgs == Some(msgs)
    ensures !IsOK(s)
  {
    TStatus(RuntimeError, Some(msgs))
  }

  /** createInternalError: an INTERNAL_ERROR carrying the messages in the given order. */
  function CreateInternalError(msgs: seq<string>): (s: TStatus)
    ensures s.statusCode == InternalError && s.errorMsgs == Some(msgs)
    ensures !IsOK(s)
  {
    TStatus(InternalError, Some(msgs))
  }

  predicate IsOK(s: TStatus)
  {
    s.statusCode == OK
  }

  /** Only the OK code is OK: the two error constructors never are, the shared OK status is. */
  lemma IsOKIffCodeOK(s: TStatus, msgs: seq<string>)
    ensures IsOK(s) <==> s.statusCode == OK
    ensures IsOK(OK_STATUS)
    ensures CreateRuntimeError(msgs) != OK_STATUS && CreateInternalError(msgs) != OK_STATUS
  {
  }

  // ---------------------------------------------------------------------------
  // UUID <-> TUniqueId
  // ---------------------------------------------------------------------------

  datatype TUniqueId = TUniqueId(hi: Long, lo: Long)

  /** The long whose two's complement bits are the unsigned 64-bit value `x`. */
  function ToSigned64(x: int): (l: Long)
    requires 0 <= x < TWO_64
    ensures Unsigned64(l) == x
  {
    if x < TWO_63 then x else x - TWO_64
  }

  /** The unsigned value of a long's 64 bits. */
  function Unsigned64(l: Long): (x: int)
    ensures 0 <= x < TWO_64
    ensures (x - l) % TWO_64 == 0
  {
    if l >= 0 then l else l + TWO_64
  }

  lemma SignedUnsignedInverse(l: Long)
    ensures ToSigned64(Unsigned64(l)) == l
  {
  }

  /** Splitting `hi * 2^64 + lo` gives back its two halves. */
  lemma {:induction false} HalvesOfJoin(hi: int, lo: int)
    requires 0 <= hi < TWO_64 && 0 <= lo < TWO_64
    ensures (hi * TWO_64 + lo) / TWO_64 == hi && (hi * TWO_64 + lo) % TWO_64 == lo
  {
  }

  /** toTUniqueId: `hi` holds the most significant 64 bits, `lo` the least significant ones. */
  function ToTUniqueId(u: Uuid): (t: TUniqueId)
    ensures Unsigned64(t.hi) == u / TWO_64 && Unsigned64(t.lo) == u % TWO_64
  {
    TUniqueId(ToSigned64(u / TWO_64), ToSigned64(u % TWO_64))
  }

  /** toUUID: `new UUID(hi, lo)`. */
  function ToUUID(t: TUniqueId): (u: Uuid)
  {
    var hi, lo := Unsigned64(t.hi), Unsigned64(t.lo);
    assert hi * TWO_64 + lo < UUID_BOUND by {
      assert hi * TWO_64 <= (TWO_64 - 1) * TWO_64;
    }
    hi * TWO_64 + lo
  }

  /** A UUID survives the trip to the wire and back. */
  lemma UuidRoundTrip(u: Uuid)
    ensures ToUUID(ToTUniqueId(u)) == u
  {
  }

  /** A wire id survives the trip to a UUID and back. */
  lemma TUniqueIdRoundTrip(t: TUniqueId)
    ensures ToTUniqueId(ToUUID(t)) == t
  {
    var hi, lo := Unsigned64(t.hi), Unsigned64(t.lo);
    HalvesOfJoin(hi, lo);
    SignedUnsignedInverse(t.hi);
    SignedUnsignedInverse(t.lo);
  }

  /** Distinct UUIDs go to distinct wire ids. */
  lemma ToTUniqueIdInjective(u: Uuid, v: Uuid)
    requires ToTUniqueId(u) == ToTUniqueId(v)
    ensures u == v
  {
    UuidRoundTrip(u);
    UuidRoundTrip(v);
  }

  /** toTUniqueIds: the list converted element by element, same length and order. */
  method ToTUniqueIds(uuids: seq<Uuid>) returns (ids: seq<TUniqueId>)
    ensures |ids| == |uuids|
    ensures forall i :: 0 <= i < |uuids| ==> ids[i] == ToTUniqueId(uuids[i]) && ToUUID(ids[i]) == uuids[i]
  {
    ids := [];
    var i := 0;
    while i < |uuids|
      invariant 0 <= i <= |uuids|
      invariant |ids| == i
      invariant forall k :: 0 <= k < i ==> ids[k] == ToTUniqueId(uuids[k]) && ToUUID(ids[k]) == uuids[k]
    {
      UuidRoundTrip(uuids[i]);
      ids := ids + [ToTUniqueId(uuids[i])];
      i := i + 1;
    }
  }

  // ---------------------------------------------------------------------------
  // Resources and reservations
  // ---------------------------------------------------------------------------

  datatype TResource = TResource(
    clientResourceId: TUniqueId,
    vCpuCores: Short,
    memoryMb: int,
    askedLocation: string,
    enforcement: string)

  datatype TReservationRequest = TReservationRequest(
    amHandle: TUniqueId,
    queue: string,
    resources: seq<TResource>,
    gang: bool)

  /**
   * toResource: the client resource id, cores, memory and asked location are
   * copied and the enforcement is looked up by its name, which throws
   * IllegalArgumentException for a name the enum does not have.
   */
  function ToResource(t: TResource, enforcementNames: set<string>): (r: Result<AmResource, LlamaError>)
    ensures r.Success? <==> t.enforcement in enforcementNames
    ensures r.Success? ==>
      r.value.clientResourceId == ToUUID(t.clientResourceId) && r.value.vCpuCores == t.vCpuCores
      && r.value.memoryMb == t.memoryMb && r.value.location == t.askedLocation
      && r.value.enforcement == t.enforcement
  {
    if t.enforcement !in enforcementNames then Failure(IllegalArgument(t.enforcement))
    else Success(AmResource(ToUUID(t.clientResourceId), t.askedLocation, t.enforcement, t.vCpuCores, t.memoryMb))
  }

  /** toResourceList: every element converted, same length and order; the first bad enforcement name aborts. */
  method ToResourceList(ts: seq<TResource>, enforcementNames: set<string>)
    returns (r: Result<seq<AmResource>, LlamaError>)
    ensures r.Success? <==> forall i :: 0 <= i < |ts| ==> ts[i].enforcement in enforcementNames
    ensures r.Success? ==>
      |r.value| == |ts| && forall i :: 0 <= i < |ts| ==> Success(r.value[i]) == ToResource(ts[i], enforcementNames)
  {
    var resources: seq<AmResource> := [];
    var i := 0;
    while i < |ts|
      invariant 0 <= i <= |ts|
      invariant |resources| == i
      invariant forall k :: 0 <= k < i ==>
        ts[k].enforcement in enforcementNames && Success(resources[k]) == ToResource(ts[k], enforcementNames)
    {
      var c := ToResource(ts[i], enforcementNames);
      if c.Failure? {
        return Failure(c.error);
      }
      resources := resources + [c.value];
      i := i + 1;
    }
    r := Success(resources);
  }

  /** toReservation: the handle is the request's am_handle; queue, gang flag and resources are copied. */
  method ToReservation(request: TReservationRequest, enforcementNames: set<string>)
    returns (r: Result<AmReservation, LlamaError>)
    ensures r.Success? <==> forall i :: 0 <= i < |request.resources| ==> request.resources[i].enforcement in enforcementNames
    ensures r.Success? ==>
      r.value.handle == ToUUID(request.amHandle) && r.value.queue == request.queue && r.value.gang == request.gang
      && |r.value.resources| == |request.resources|
      && forall i :: 0 <= i < |request.resources| ==>
        Success(r.value.resources[i]) == ToResource(request.resources[i], enforcementNames)
  {
    var resources := ToResourceList(request.resources, enforcementNames);
    if resources.Failure? {
      return Failure(resources.error);
    }
    r := Success(AmReservation(ToUUID(request.amHandle), request.queue, resources.value, request.gang));
  }

  // ---------------------------------------------------------------------------
  // Allocated resources and notifications
  // ---------------------------------------------------------------------------

  /** The `(short)` cast: the low 16 bits, read as a signed short. */
  function ToShort(x: int): (s: Short)
    ensures (s - x) % 0x1_0000 == 0
    ensures -0x8000 <= x < 0x8000 ==> s == x
  {
    var low := x % 0x1_0000;
    if low < 0x8000 then low else low - 0x1_0000
  }

  datatype TAllocatedResource = TAllocatedResource(
    reservationId: TUniqueId,
    clientResourceId: TUniqueId,
    rmResourceId: string,
    vCpuCores: Short,
    memoryMb: int,
    location: string)

  /** toTAllocatedResource: the actual sizes and location of a placed resource, with the cores cast to a short. */
  function ToTAllocatedResource(p: AmPlacedResource): (t: TAllocatedResource)
    ensures ToUUID(t.reservationId) == p.reservationId && ToUUID(t.clientResourceId) == p.clientResourceId
    ensures t.rmResourceId == p.rmResourceId && t.memoryMb == p.actualMemoryMb && t.location == p.actualLocation
    ensures t.vCpuCores == ToShort(p.actualVCpuCores)
  {
    UuidRoundTrip(p.reservationId);
    UuidRoundTrip(p.clientResourceId);
    TAllocatedResource(ToTUniqueId(p.reservationId), ToTUniqueId(p.clientResourceId), p.rmResourceId,
                       ToShort(p.actualVCpuCores), p.actualMemoryMb, p.actualLocation)
  }

  /** A core count that fits a short reaches the wire unchanged; a larger one wraps around. */
  lemma CoresWithinShortPreserved(p: AmPlacedResource)
    ensures -0x8000 <= p.actualVCpuCores < 0x8000 ==> ToTAllocatedResource(p).vCpuCores == p.actualVCpuCores
    ensures p.actualVCpuCores == 0x8000 ==> ToTAllocatedResource(p).vCpuCores == -0x8000
  {
  }

  /** toTAllocatedResources: element by element, same length and order. */
  method ToTAllocatedResources(resources: seq<AmPlacedResource>) returns (ts: seq<TAllocatedResource>)
    ensures |ts| == |resources|
    ensures forall i :: 0 <= i < |resources| ==> ts[i] == ToTAllocatedResource(resources[i])
  {
    ts := [];
    var i := 0;
    while i < |resources|
      invariant 0 <= i <= |resources|
      invariant |ts| == i
      invariant forall k :: 0 <= k < i ==> ts[k] == ToTAllocatedResource(resources[k])
    {
      ts := ts + [ToTAllocatedResource(resources[i])];
      i := i + 1;
    }
  }

  datatype TLlamaServiceVersion = V1

  datatype TNotificationRequest = TNotificationRequest(
    version: TLlamaServiceVersion,
    amHandle: TUniqueId,
    allocatedReservationIds: seq<TUniqueId>,
    allocatedResources: seq<TAllocatedResource>,
    rejectedReservationIds: seq<TUniqueId>,
    rejectedClientResourceIds: seq<TUniqueId>,
    lostClientResourceIds: seq<TUniqueId>,
    preemptedReservationIds: seq<TUniqueId>,
    preemptedClientResourceIds: seq<TUniqueId>)

  /** The ids of a wire list, each converted back to a UUID. */
  function IdsOf(ids: seq<TUniqueId>): (us: seq<Uuid>)
    ensures |us| == |ids| && forall i :: 0 <= i < |ids| ==> us[i] == ToUUID(ids[i])
  {
    if ids == [] then [] else [ToUUID(ids[0])] + IdsOf(ids[1..])
  }

  /** The ids of a converted list read back give the original list. */
  lemma IdsOfConverted(uuids: seq<Uuid>, ids: seq<TUniqueId>)
    requires |ids| == |uuids| && forall i :: 0 <= i < |uuids| ==> ToUUID(ids[i]) == uuids[i]
    ensures IdsOf(ids) == uuids
  {
  }

  /** `n` carries the event: its client, its id lists and its allocated resources, converted. */
  predicate NotificationOf(n: TNotificationRequest, event: AmEvent)
  {
    && n.version == V1 && ToUUID(n.amHandle) == event.clientId
    && IdsOf(n.allocatedReservationIds) == event.allocatedReservationIds
    && IdsOf(n.rejectedReservationIds) == event.rejectedReservationIds
    && IdsOf(n.rejectedClientResourceIds) == event.rejectedClientResourceIds
    && IdsOf(n.lostClientResourceIds) == event.lostClientResourceIds
    && IdsOf(n.preemptedReservationIds) == event.preemptedReservationIds
    && IdsOf(n.preemptedClientResourceIds) == event.preemptedClientResourceIds
    && |n.allocatedResources| == |event.allocatedResources|
    && forall i :: 0 <= i < |event.allocatedResources| ==>
         n.allocatedResources[i] == ToTAllocatedResource(event.allocatedResources[i])
  }

  /**
   * toAMNotification: version V1, the client id as am_handle, and every id
   * or resource list of the event converted element by element.
   */
  method ToAMNotification(event: AmEvent) returns (n: TNotificationRequest)
    ensures NotificationOf(n, event)
  {
    UuidRoundTrip(event.clientId);
    var allocatedIds := ToTUniqueIds(event.allocatedReservationIds);
    IdsOfConverted(event.allocatedReservationIds, allocatedIds);
    var allocatedResources := ToTAllocatedResources(event.allocatedResources);
    var rejectedIds := ToTUniqueIds(event.rejectedReservationIds);
    IdsOfConverted(event.rejectedReservationIds, rejectedIds);
    var rejectedClientIds := ToTUniqueIds(event.rejectedClientResourceIds);
    IdsOfConverted(event.rejectedClientResourceIds, rejectedClientIds);
    var lostIds := ToTUniqueIds(event.lostClientResourceIds);
    IdsOfConverted(event.lostClientResourceIds, lostIds);
    var preemptedIds := ToTUniqueIds(event.preemptedReservationIds);
    IdsOfConverted(event.preemptedReservationIds, preemptedIds);
    var preemptedClientIds := ToTUniqueIds(event.preemptedClientResourceIds);
    IdsOfConverted(event.preemptedClientResourceIds, preemptedClientIds);
    n := TNotificationRequest(V1, ToTUniqueId(event.clientId), allocatedIds, allocatedResources, rejectedIds,
                              rejectedClientIds, lostIds, preemptedIds, preemptedClientIds);
  }
}
