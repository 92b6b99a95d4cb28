/**
 * The value objects of the application master's API (package
 * com.cloudera.llama.am.api): requested resources, reservations, placed
 * resources and the statuses a placed reservation goes through.
 *
 * llama/src/main/java/com/cloudera/llama/am/api/Reservation.java and
 * PlacedResource.java are modelled here.  Resource.java, ParamChecker.java,
 * the api PlacedReservation interface and the UUID class are not part of this
 * model: a resource is the record of the five fields the placed-resource
 * string form prints, a rejected argument is reported by the name of the
 * parameter, and a UUID is its 128 bits.
 */
module LlamaApi {

  import opened Common

  /** A resource as the client asks for it; the location enforcement enum is kept by its name. */
  datatype Resource = Resource(
    clientResourceId: Uuid,
    cpuVCores: int,
    memoryMb: int,
    location: string,
    enforcement: string)

  /** PlacedResource.Status. */
  datatype ResourceStatus = Pending | Allocated | Rejected | Preempted | Lost

  /** The status of an api placed reservation, by the five names the REST view switches on. */
  datatype ReservationStatus = RPending | RBackedOff | RPartial | RAllocated | REnded

  /**
   * A resource once it belongs to a placed reservation.  The fields that a
   * Java getter may return null for are options; the int getters default to 0.
   */
  datatype PlacedResource = PlacedResource(
    resource: Resource,
    handle: Option<Uuid>,
    queue: Option<string>,
    reservationId: Option<Uuid>,
    rmResourceId: Option<string>,
    actualCpuVCores: int,
    actualMemoryMb: int,
    actualLocation: Option<string>,
    status: Option<ResourceStatus>)

  /** The exceptions the modelled operations throw. */
  datatype ErrorCode =
    | UnknownReservationForExpansion
    | CannotExpandAnExpansionReservation
    | CannotExpandAReservationNotAllocated

  datatype LlamaError =
    | IllegalArgument(what: string)
    | IllegalState(msg: string)
    | AmFailure(msg: string)
    | Llama(code: ErrorCode, reservationId: Uuid)
    | NotFound

  // ---------------------------------------------------------------------------
  // Hash codes
  // ---------------------------------------------------------------------------

  const TWO_64: int := 0x1_0000_0000_0000_0000
  const TWO_32: int := 0x1_0000_0000

  /** The signed 32-bit value of the low 32 bits of `x`. */
  function Int32(x: int): (r: int)
    ensures -0x8000_0000 <= r < 0x8000_0000
    ensures (r - x) % TWO_32 == 0
  {
    var low := x % TWO_32;
    if low < 0x8000_0000 then low else low - TWO_32
  }

  /** java.util.UUID.hashCode: the two 64-bit halves xor-ed, then the two 32-bit halves of that xor-ed. */
  function IdHash(u: Uuid): (h: int)
    ensures -0x8000_0000 <= h < 0x8000_0000
  {
    var hi := (u / TWO_64) as bv64;
    var lo := (u % TWO_64) as bv64;
    var hilo := hi ^ lo;
    Int32(((hilo >> 32) ^ hilo) as int)
  }

  // ---------------------------------------------------------------------------
  // PlacedResource: identity is the client resource id
  // ---------------------------------------------------------------------------

  /** PlacedResource.equals; None stands for a null argument. */
  predicate PlacedResourceEquals(a: PlacedResource, obj: Option<PlacedResource>)
  {
    obj.Some? && a.resource.clientResourceId == obj.value.resource.clientResourceId
  }

  /** PlacedResource.hashCode. */
  function PlacedResourceHash(a: PlacedResource): int
  {
    IdHash(a.resource.clientResourceId)
  }

  /** Equal placed resources have equal hash codes, and nothing but the client resource id decides equality. */
  lemma PlacedResourceEqualsIsIdentity(a: PlacedResource, b: PlacedResource)
    ensures PlacedResourceEquals(a, Some(b)) <==> a.resource.clientResourceId == b.resource.clientResourceId
    ensures PlacedResourceEquals(a, Some(b)) ==> PlacedResourceHash(a) == PlacedResourceHash(b)
    ensures PlacedResourceEquals(a, Some(b)) <==> PlacedResourceEquals(b, Some(a))
    ensures !PlacedResourceEquals(a, None)
  {
  }

  /** Equality ignores the status, the sizes and both locations: changing them keeps a resource equal to itself. */
  lemma PlacedResourceEqualityIgnoresState(a: PlacedResource, status: Option<ResourceStatus>,
                                           cpu: int, mem: int, location: string, actual: Option<string>)
    ensures PlacedResourceEquals(a, Some(a.(status := status, actualCpuVCores := cpu, actualMemoryMb := mem,
                                           actualLocation := actual,
                                           resource := a.resource.(cpuVCores := cpu, memoryMb := mem,
                                                                   location := location))))
  {
  }

  // ---------------------------------------------------------------------------
  // Reservation
  // ---------------------------------------------------------------------------

  /** A reservation as its constructor lets it exist. */
  datatype Reservation = Reservation(handle: Uuid, queue: string, resources: seq<Resource>, gang: bool)

  predicate ValidReservation(r: Reservation)
  {
    r.queue != "" && |r.resources| > 0
  }

  predicate NoNulls<T>(s: seq<Option<T>>)
  {
    forall i :: 0 <= i < |s| ==> s[i].Some?
  }

  /** The elements of a list known to hold no null. */
  function Unwrap<T>(s: seq<Option<T>>): (r: seq<T>)
    requires NoNulls(s)
    ensures |r| == |s|
    ensures forall i :: 0 <= i < |s| ==> s[i] == Some(r[i])
  {
    if s == [] then [] else [s[0].value] + Unwrap(s[1..])
  }

  /** A list of references to the given values. */
  function Wrap<T>(s: seq<T>): (r: seq<Option<T>>)
    ensures NoNulls(r) && Unwrap(r) == s
  {
    if s == [] then []
    else
      var rest := Wrap(s[1..]);
      assert Unwrap([Some(s[0])] + rest) == [s[0]] + Unwrap(rest);
      [Some(s[0])] + rest
  }

  /**
   * The Reservation constructor: the handle must not be null, the queue not
   * null or empty, the resource list not null, without null elements and
   * not empty, checked in that order; the list is copied.
   */
  function NewReservation(handle: Option<Uuid>, queue: Option<string>,
                          resources: Option<seq<Option<Resource>>>, gang: bool): (r: Result<Reservation, LlamaError>)
    ensures r.Success? <==>
      handle.Some? && queue.Some? && queue.value != "" && resources.Some? && NoNulls(resources.value)
      && |resources.value| > 0
    ensures handle.None? ==> r == Failure(IllegalArgument("handle"))
    ensures handle.Some? && (queue.None? || queue.value == "") ==> r == Failure(IllegalArgument("queue"))
    ensures r.Success? ==>
      ValidReservation(r.value) && r.value.handle == handle.value && r.value.queue == queue.value
      && r.value.gang == gang && |r.value.resources| == |resources.value|
      && forall i :: 0 <= i < |resources.value| ==> resources.value[i] == Some(r.value.resources[i])
  {
    if handle.None? then Failure(IllegalArgument("handle"))
    else if queue.None? || queue.value == "" then Failure(IllegalArgument("queue"))
    else if resources.None? || !NoNulls(resources.value) then Failure(IllegalArgument("resources"))
    else if |resources.value| == 0 then Failure(IllegalArgument("resources cannot be empty"))
    else Success(Reservation(handle.value, queue.value, Unwrap(resources.value), gang))
  }

  /** The protected copy constructor: it runs the public constructor on the getters' values. */
  function CopyReservation(r: Reservation): Result<Reservation, LlamaError>
  {
    NewReservation(Some(r.handle), Some(r.queue), Some(Wrap(r.resources)), r.gang)
  }

  /** Copying a reservation the constructor built gives back the same handle, queue, resources and gang flag. */
  lemma CopyReproduces(r: Reservation)
    requires ValidReservation(r)
    ensures CopyReservation(r) == Success(r)
  {
    var w := Wrap(r.resources);
    var c := CopyReservation(r);
    assert c.Success?;
    assert c.value.resources == r.resources by {
      forall i | 0 <= i < |r.resources| ensures c.value.resources[i] == r.resources[i] {
        assert w[i] == Some(c.value.resources[i]);
        assert Unwrap(w)[i] == r.resources[i];
      }
    }
  }

  /** The getters return exactly what was passed in: the resources in the same order. */
  lemma GettersReturnArguments(handle: Uuid, queue: string, resources: seq<Resource>, gang: bool)
    requires queue != "" && |resources| > 0
    ensures NewReservation(Some(handle), Some(queue), Some(Wrap(resources)), gang)
            == Success(Reservation(handle, queue, resources, gang))
  {
    var r := NewReservation(Some(handle), Some(queue), Some(Wrap(resources)), gang);
    assert r.value.resources == resources by {
      forall i | 0 <= i < |resources| ensures r.value.resources[i] == resources[i] {
        assert Wrap(resources)[i] == Some(r.value.resources[i]);
        assert Unwrap(Wrap(resources))[i] == resources[i];
      }
    }
  }
}
