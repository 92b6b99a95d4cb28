/**
 * llama/src/main/java/com/cloudera/llama/am/impl/PlacedReservationImpl.java:
 * the one class behind reservations, expansions and placed reservations, its
 * placing constructor, identity, status changes and the two builders.
 *
 * A PlacedReservationImpl is modelled as a value: the maps of the application
 * masters hold it by value, and `setStatus` returns the changed value.  The
 * builders are objects whose setters update their fields.
 * PlacedResourceImpl.createPlaced is not part of this model: a placed
 * resource is taken to be the requested resource linked to the reservation's
 * id, handle and queue.
 */
module PlacedReservations {

  import opened Common
  import opened LlamaApi

  /** The `type` byte: RESERVATION (1), EXPANSION (2), PLACED_RESERVATION (3). */
  datatype Kind = KReservation | KExpansion | KPlacedReservation

  datatype PlacedReservationImpl = PlacedReservationImpl(
    kind: Kind,
    reservationId: Option<Uuid>,
    status: Option<ReservationStatus>,
    placedOn: int,
    handle: Option<Uuid>,
    user: Option<string>,
    queue: Option<string>,
    gang: bool,
    resources: seq<PlacedResource>,
    expansionOf: Option<Uuid>,
    allocatedOn: int)

  /** A requested resource copied into a reservation before it is placed: nothing of a placement is set. */
  function Unplaced(res: Resource): (p: PlacedResource)
    ensures p.resource == res && p.reservationId.None? && p.status.None?
  {
    PlacedResource(res, None, None, None, None, 0, 0, None, None)
  }

  /** The resource `res` placed under the reservation `id` of `handle` in `queue`. */
  function CreatePlaced(id: Uuid, handle: Option<Uuid>, queue: Option<string>, res: PlacedResource): (p: PlacedResource)
    ensures p.resource == res.resource && p.reservationId == Some(id)
  {
    res.(reservationId := Some(id), handle := handle, queue := queue)
  }

  /**
   * The placing constructor PlacedReservationImpl(reservationId, reservation):
   * a PENDING placed reservation, not allocated (-1) and not an expansion,
   * with one placed resource per requested resource, in order.  The placing
   * time is kept when the source was already placed, otherwise it is `now`.
   */
  predicate PlacedFrom(p: PlacedReservationImpl, reservationId: Uuid, source: PlacedReservationImpl, now: int)
  {
    && p.kind == KPlacedReservation && p.reservationId == Some(reservationId)
    && p.status == Some(RPending) && p.allocatedOn == -1 && p.expansionOf.None?
    && p.placedOn == (if source.kind == KPlacedReservation then source.placedOn else now)
    && p.handle == source.handle && p.user == source.user && p.queue == source.queue
    && p.gang == source.gang
    && |p.resources| == |source.resources|
    && forall i :: 0 <= i < |p.resources| ==>
         p.resources[i] == CreatePlaced(reservationId, source.handle, source.queue, source.resources[i])
  }

  /** Placing determines the result: two reservations placed from the same source, id and time are equal. */
  lemma PlacedFromUnique(p: PlacedReservationImpl, q: PlacedReservationImpl, reservationId: Uuid,
                         source: PlacedReservationImpl, now: int)
    requires PlacedFrom(p, reservationId, source, now) && PlacedFrom(q, reservationId, source, now)
    ensures p == q
  {
    assert p.resources == q.resources;
  }

  /** The placing constructor itself, building the resources one by one. */
  method Place(reservationId: Uuid, source: PlacedReservationImpl, now: int) returns (p: PlacedReservationImpl)
    ensures PlacedFrom(p, reservationId, source, now)
  {
    var placedOn := if source.kind == KPlacedReservation then source.placedOn else now;
    var placed: seq<PlacedResource> := [];
    var i := 0;
    while i < |source.resources|
      invariant 0 <= i <= |source.resources|
      invariant |placed| == i
      invariant forall k :: 0 <= k < i ==>
        placed[k] == CreatePlaced(reservationId, source.handle, source.queue, source.resources[k])
    {
      placed := placed + [CreatePlaced(reservationId, source.handle, source.queue, source.resources[i])];
      i := i + 1;
    }
    p := PlacedReservationImpl(KPlacedReservation, Some(reservationId), Some(RPending), placedOn,
                               source.handle, source.user, source.queue, source.gang, placed, None, -1);
  }

  // ---------------------------------------------------------------------------
  // Identity
  // ---------------------------------------------------------------------------

  /**
   * equals: the same object, or both reservation ids equal and not null.
   * Values have no identity, so whether `obj` is the very object is the
   * parameter `sameObject`.
   */
  predicate Equals(a: PlacedReservationImpl, obj: Option<PlacedReservationImpl>, sameObject: bool)
    requires sameObject ==> obj == Some(a)
  {
    obj.Some? && (sameObject || (a.reservationId.Some? && a.reservationId == obj.value.reservationId))
  }

  /** What hashCode is computed from: the id's hash when there is an id, the object's own hash otherwise. */
  datatype HashCode = OfId(h: int) | OfObject

  function Hash(a: PlacedReservationImpl): HashCode
  {
    if a.reservationId.Some? then OfId(IdHash(a.reservationId.value)) else OfObject
  }

  /** Placed reservations that are equal have the same hash code; distinct objects without an id are never equal. */
  lemma EqualsConsistentWithHash(a: PlacedReservationImpl, b: PlacedReservationImpl, sameObject: bool)
    requires sameObject ==> a == b
    ensures Equals(a, Some(b), sameObject) ==> Hash(a) == Hash(b)
    ensures !sameObject && a.reservationId.None? ==> !Equals(a, Some(b), sameObject)
    ensures !sameObject && a.reservationId.Some? ==>
      (Equals(a, Some(b), sameObject) <==> a.reservationId == b.reservationId)
  {
  }

  // ---------------------------------------------------------------------------
  // Status changes
  // ---------------------------------------------------------------------------

  /** setStatus at time `now`: ALLOCATED also records the allocation time. */
  function SetStatus(r: PlacedReservationImpl, s: ReservationStatus, now: int): (r': PlacedReservationImpl)
    ensures r'.status == Some(s)
    ensures r'.allocatedOn == (if s == RAllocated then now else r.allocatedOn)
    ensures r' == r.(status := r'.status, allocatedOn := r'.allocatedOn)
  {
    r.(status := Some(s), allocatedOn := if s == RAllocated then now else r.allocatedOn)
  }

  /** A series of setStatus calls, each with the time it was made. */
  function SetStatuses(r: PlacedReservationImpl, changes: seq<(ReservationStatus, int)>): PlacedReservationImpl
    decreases |changes|
  {
    if changes == [] then r else SetStatuses(SetStatus(r, changes[0].0, changes[0].1), changes[1..])
  }

  /** The time of the last ALLOCATED change, or `default` when there is none. */
  function LastAllocation(changes: seq<(ReservationStatus, int)>, default: int): int
  {
    if changes == [] then default
    else if changes[|changes| - 1].0 == RAllocated then changes[|changes| - 1].1
    else LastAllocation(changes[..|changes| - 1], default)
  }

  /**
   * After any series of status changes the reservation has the last status
   * set and its allocation time is that of the last change to ALLOCATED;
   * nothing else changes.
   */
  lemma {:induction false} SetStatusesRecordsLastAllocation(r: PlacedReservationImpl,
                                                            changes: seq<(ReservationStatus, int)>)
    ensures var r' := SetStatuses(r, changes);
      r'.allocatedOn == LastAllocation(changes, r.allocatedOn)
      && (changes != [] ==> r'.status == Some(changes[|changes| - 1].0))
      && r' == r.(status := r'.status, allocatedOn := r'.allocatedOn)
    decreases |changes|
  {
    if changes != [] {
      var r1 := SetStatus(r, changes[0].0, changes[0].1);
      var rest := changes[1..];
      SetStatusesRecordsLastAllocation(r1, rest);
      if rest == [] {
        assert changes == [changes[0]];
      } else {
        assert changes[|changes| - 1] == rest[|rest| - 1];
        LastAllocationSplit(changes, r.allocatedOn);
      }
    }
  }

  /** The last allocation of a series is that of its tail, started from what the head leaves. */
  lemma {:induction false} LastAllocationSplit(changes: seq<(ReservationStatus, int)>, default: int)
    requires changes != []
    ensures LastAllocation(changes, default)
         == LastAllocation(changes[1..], if changes[0].0 == RAllocated then changes[0].1 else default)
    decreases |changes|
  {
    var n := |changes|;
    if n > 1 && changes[n - 1].0 != RAllocated {
      var init := changes[..n - 1];
      assert init[1..] == changes[1..][..n - 2];
      LastAllocationSplit(init, default);
      assert init[0] == changes[0];
    }
  }

  // ---------------------------------------------------------------------------
  // Builders
  // ---------------------------------------------------------------------------

  /** XReservationBuilder: a reservation request assembled field by field. */
  class XReservationBuilder {
    var handle: Option<Uuid>
    var user: Option<string>
    var queue: Option<string>
    var gang: bool
    var resources: seq<Resource>

    constructor()
      ensures handle.None? && user.None? && queue.None? && !gang && resources == []
    {
      handle := None;
      user := None;
      queue := None;
      gang := false;
      resources := [];
    }

    /** setHandle rejects null. */
    method SetHandle(h: Option<Uuid>) returns (err: Option<LlamaError>)
      modifies this
      ensures h.None? ==> err == Some(IllegalArgument("handle")) && handle == old(handle)
      ensures h.Some? ==> err.None? && handle == h
      ensures user == old(user) && queue == old(queue) && gang == old(gang) && resources == old(resources)
    {
      if h.None? {
        return Some(IllegalArgument("handle"));
      }
      handle := h;
      err := None;
    }

    /** setUser rejects null and the empty string. */
    method SetUser(u: Option<string>) returns (err: Option<LlamaError>)
      modifies this
      ensures (u.None? || u.value == "") ==> err == Some(IllegalArgument("user")) && user == old(user)
      ensures !(u.None? || u.value == "") ==> err.None? && user == u
      ensures handle == old(handle) && queue == old(queue) && gang == old(gang) && resources == old(resources)
    {
      if u.None? || u.value == "" {
        return Some(IllegalArgument("user"));
      }
      user := u;
      err := None;
    }

    /** setQueue rejects null and the empty string. */
    method SetQueue(q: Option<string>) returns (err: Option<LlamaError>)
      modifies this
      ensures (q.None? || q.value == "") ==> err == Some(IllegalArgument("queue")) && queue == old(queue)
      ensures !(q.None? || q.value == "") ==> err.None? && queue == q
      ensures handle == old(handle) && user == old(user) && gang == old(gang) && resources == old(resources)
    {
      if q.None? || q.value == "" {
        return Some(IllegalArgument("queue"));
      }
      queue := q;
      err := None;
    }

    method SetGang(g: bool)
      modifies this
      ensures gang == g
      ensures handle == old(handle) && user == old(user) && queue == old(queue) && resources == old(resources)
    {
      gang := g;
    }

    /** addResource appends one resource; null is rejected. */
    method AddResource(r: Option<Resource>) returns (err: Option<LlamaError>)
      modifies this
      ensures r.None? ==> err == Some(IllegalArgument("resource")) && resources == old(resources)
      ensures r.Some? ==> err.None? && resources == old(resources) + [r.value]
      ensures handle == old(handle) && user == old(user) && queue == old(queue) && gang == old(gang)
    {
      if r.None? {
        return Some(IllegalArgument("resource"));
      }
      resources := resources + [r.value];
      err := None;
    }

    /** addResources appends the list in order; a null list or a null element is rejected and nothing is added. */
    method AddResources(rs: Option<seq<Option<Resource>>>) returns (err: Option<LlamaError>)
      modifies this
      ensures (rs.None? || !NoNulls(rs.value)) ==> err == Some(IllegalArgument("resources")) && resources == old(resources)
      ensures !(rs.None? || !NoNulls(rs.value)) ==> err.None? && resources == old(resources) + Unwrap(rs.value)
      ensures handle == old(handle) && user == old(user) && queue == old(queue) && gang == old(gang)
    {
      if rs.None? || !NoNulls(rs.value) {
        return Some(IllegalArgument("resources"));
      }
      resources := resources + Unwrap(rs.value);
      err := None;
    }

    /** setResources replaces the list; a null list or a null element is rejected and nothing changes. */
    method SetResources(rs: Option<seq<Option<Resource>>>) returns (err: Option<LlamaError>)
      modifies this
      ensures (rs.None? || !NoNulls(rs.value)) ==> err == Some(IllegalArgument("resources")) && resources == old(resources)
      ensures !(rs.None? || !NoNulls(rs.value)) ==> err.None? && resources == Unwrap(rs.value)
      ensures handle == old(handle) && user == old(user) && queue == old(queue) && gang == old(gang)
    {
      if rs.None? || !NoNulls(rs.value) {
        return Some(IllegalArgument("resources"));
      }
      resources := Unwrap(rs.value);
      err := None;
    }

    /**
     * build: handle and user must be set, the queue set and not empty, and
     * there must be at least one resource.  The result is the copy
     * constructor applied to the builder: a RESERVATION with no id, no
     * status and the builder's resources in order.
     */
    method Build() returns (r: Result<PlacedReservationImpl, LlamaError>)
      ensures r.Success? <==> handle.Some? && user.Some? && queue.Some? && queue.value != "" && |resources| > 0
      ensures handle.None? ==> r == Failure(IllegalArgument("handle"))
      ensures r.Success? ==>
        var p := r.value;
        p.kind == KReservation && p.reservationId.None? && p.status.None? && p.expansionOf.None?
        && p.handle == handle && p.user == user && p.queue == queue && p.gang == gang
        && |p.resources| == |resources|
        && forall i :: 0 <= i < |resources| ==> p.resources[i] == Unplaced(resources[i])
    {
      if handle.None? {
        return Failure(IllegalArgument("handle"));
      }
      if user.None? {
        return Failure(IllegalArgument("user"));
      }
      if queue.None? || queue.value == "" {
        return Failure(IllegalArgument("queue"));
      }
      if |resources| == 0 {
        return Failure(IllegalArgument("there must be at least one resource"));
      }
      var copied: seq<PlacedResource> := [];
      var i := 0;
      while i < |resources|
        invariant 0 <= i <= |resources|
        invariant |copied| == i
        invariant forall k :: 0 <= k < i ==> copied[k] == Unplaced(resources[k])
      {
        copied := copied + [Unplaced(resources[i])];
        i := i + 1;
      }
      r := Success(PlacedReservationImpl(KReservation, None, None, 0, handle, user, queue, gang, copied, None, 0));
    }
  }

  /** XExpansionBuilder: a request for one more resource on an existing reservation. */
  class XExpansionBuilder {
    var expansionOf: Option<Uuid>
    var resource: Option<Resource>

    constructor()
      ensures expansionOf.None? && resource.None?
    {
      expansionOf := None;
      resource := None;
    }

    method SetExpansionOf(e: Option<Uuid>) returns (err: Option<LlamaError>)
      modifies this
      ensures e.None? ==> err == Some(IllegalArgument("expansionOf")) && expansionOf == old(expansionOf)
      ensures e.Some? ==> err.None? && expansionOf == e
      ensures resource == old(resource)
    {
      if e.None? {
        return Some(IllegalArgument("expansionOf"));
      }
      expansionOf := e;
      err := None;
    }

    method SetResource(r: Option<Resource>) returns (err: Option<LlamaError>)
      modifies this
      ensures r.None? ==> err == Some(IllegalArgument("resource")) && resource == old(resource)
      ensures r.Some? ==> err.None? && resource == r
      ensures expansionOf == old(expansionOf)
    {
      if r.None? {
        return Some(IllegalArgument("resource"));
      }
      resource := r;
      err := None;
    }

    /** build: both fields must be set; the expansion's resource list is exactly its one resource. */
    method Build() returns (r: Result<PlacedReservationImpl, LlamaError>)
      ensures r.Success? <==> expansionOf.Some? && resource.Some?
      ensures expansionOf.None? ==> r == Failure(IllegalArgument("expansionOf"))
      ensures r.Success? ==>
        r.value.kind == KExpansion && r.value.expansionOf == expansionOf
        && r.value.resources == [Unplaced(resource.value)]
        && r.value.reservationId.None? && r.value.status.None?
    {
      if expansionOf.None? {
        return Failure(IllegalArgument("expansionOf"));
      }
      if resource.None? {
        return Failure(IllegalArgument("resource"));
      }
      r := Success(PlacedReservationImpl(KExpansion, None, None, 0, None, None, None, false,
                                         [Unplaced(resource.value)], expansionOf, 0));
    }
  }

  /** A reservation built and then placed keeps its request: same handle, user, queue, gang and resources, in order. */
  method BuildThenPlace(b: XReservationBuilder, reservationId: Uuid, now: int)
    returns (r: Result<PlacedReservationImpl, LlamaError>)
    ensures r.Success? <==> b.handle.Some? && b.user.Some? && b.queue.Some? && b.queue.value != "" && |b.resources| > 0
    ensures r.Success? ==>
      r.value.status == Some(RPending) && r.value.placedOn == now && r.value.reservationId == Some(reservationId)
      && r.value.handle == b.handle && r.value.queue == b.queue && r.value.gang == b.gang
      && |r.value.resources| == |b.resources|
      && forall i :: 0 <= i < |b.resources| ==>
        r.value.resources[i].resource == b.resources[i] && r.value.resources[i].reservationId == Some(reservationId)
  {
    var built := b.Build();
    if built.Failure? {
      return built;
    }
    var p := Place(reservationId, built.value, now);
    r := Success(p);
  }
}
