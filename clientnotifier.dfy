/**
 * The client notifier of the Llama server (ClientNotifier.java): it turns
 * application-master events into notifications, queues them together with
 * the periodic heartbeats of each registered client, and when a run of a
 * queued notifier fails it retries after a fixed interval until a bound is
 * reached, after which the client is released.
 *
 * The delay queue is a sequence in insertion order.  Which queued notifier
 * the executor takes next (the one whose delay expires first) is left to
 * the caller, who passes it to `Run`; `Run` takes it off the queue and puts
 * it back only when it is due again.
 */
module ClientNotify {

  import opened Common
  import opened LlamaApi
  import opened LlamaAm
  import TypeUtils

  /** The call one run makes to the client: an event notification, a heartbeat, or none. */
  datatype Call =
    | Notified(handle: Uuid, request: TypeUtils.TNotificationRequest)
    | Heartbeat(handle: Uuid)
    | NoCall

  // ---------------------------------------------------------------------------
  // The retry rule
  // ---------------------------------------------------------------------------

  /**
   * One run of a notifier whose client is known, with `retries` failures
   * counted so far: success resets the count; a failure below the bound
   * counts one more; a failure at the bound releases the client (the
   * notifier is then dropped, its count unchanged).  The result is the new
   * count and whether the client is released.
   */
  function RetryStep(maxRetries: int, retries: int, failed: bool): (r: (int, bool))
    ensures !failed ==> r == (0, false)
    ensures r.1 <==> failed && retries >= maxRetries
    ensures failed && retries < maxRetries ==> r.0 == retries + 1
  {
    if !failed then (0, false)
    else if retries < maxRetries then (retries + 1, false)
    else (retries, true)
  }

  /**
   * A fresh notifier (count 0) run once per outcome of `outcomes` (true: the
   * run failed), stopping at a release: the final count and whether the
   * client was released.
   */
  function Replay(maxRetries: int, outcomes: seq<bool>): (int, bool)
    decreases |outcomes|
  {
    if outcomes == [] then (0, false)
    else
      var before := Replay(maxRetries, outcomes[..|outcomes| - 1]);
      if before.1 then before else RetryStep(maxRetries, before.0, outcomes[|outcomes| - 1])
  }

  /** The number of failures at the end of `outcomes`, since the last success. */
  function TrailingFailures(outcomes: seq<bool>): (n: nat)
    ensures n <= |outcomes|
    ensures forall i :: |outcomes| - n <= i < |outcomes| ==> outcomes[i]
    ensures n < |outcomes| ==> !outcomes[|outcomes| - n - 1]
    decreases |outcomes|
  {
    if outcomes == [] || !outcomes[|outcomes| - 1] then 0
    else TrailingFailures(outcomes[..|outcomes| - 1]) + 1
  }

  /** The `len` outcomes from position `k` on are all failures. */
  predicate FailedFrom(outcomes: seq<bool>, k: nat, len: nat)
    requires k + len <= |outcomes|
  {
    forall i :: k <= i < k + len ==> outcomes[i]
  }

  /** `outcomes` has `len` consecutive failures somewhere. */
  predicate HasFailureRun(outcomes: seq<bool>, len: nat)
  {
    exists k: nat :: k + len <= |outcomes| && FailedFrom(outcomes, k, len)
  }

  /** Until the client is released, the count is the number of trailing failures, never above the bound. */
  lemma {:induction false} ReplayCounts(maxRetries: nat, outcomes: seq<bool>)
    ensures !Replay(maxRetries, outcomes).1 ==>
              Replay(maxRetries, outcomes).0 == TrailingFailures(outcomes) <= maxRetries
    ensures !Replay(maxRetries, outcomes).1 ==> !HasFailureRun(outcomes, maxRetries + 1)
    decreases |outcomes|
  {
    if outcomes != [] {
      var prefix := outcomes[..|outcomes| - 1];
      ReplayCounts(maxRetries, prefix);
      if !Replay(maxRetries, outcomes).1 {
        assert !Replay(maxRetries, prefix).1;
        if outcomes[|outcomes| - 1] {
          assert TrailingFailures(outcomes) == TrailingFailures(prefix) + 1;
        }
        var len := maxRetries + 1;
        forall k: nat | k + len <= |outcomes|
          ensures !FailedFrom(outcomes, k, len)
        {
          if k + len < |outcomes| {
            assert !FailedFrom(prefix, k, len);
            var j :| k <= j < k + len && !prefix[j];
            assert !outcomes[j];
          } else {
            var n := TrailingFailures(outcomes);
            assert !outcomes[|outcomes| - n - 1];
          }
        }
      }
    }
  }

  /** Once released, the outcomes so far hold `maxRetries` + 1 consecutive failures. */
  lemma {:induction false} ReleaseNeedsFailureRun(maxRetries: nat, outcomes: seq<bool>)
    ensures Replay(maxRetries, outcomes).1 ==> HasFailureRun(outcomes, maxRetries + 1)
    decreases |outcomes|
  {
    if outcomes != [] {
      var prefix := outcomes[..|outcomes| - 1];
      if Replay(maxRetries, prefix).1 {
        ReleaseNeedsFailureRun(maxRetries, prefix);
        var k: nat :| k + maxRetries + 1 <= |prefix| && FailedFrom(prefix, k, maxRetries + 1);
        assert FailedFrom(outcomes, k, maxRetries + 1);
      } else if Replay(maxRetries, outcomes).1 {
        ReplayCounts(maxRetries, prefix);
        var n := TrailingFailures(prefix);
        assert n == maxRetries;
        var k := |prefix| - n;
        assert FailedFrom(outcomes, k, maxRetries + 1);
      }
    }
  }

  /**
   * onMaxFailures is called exactly when the notifier has failed
   * `maxRetries` + 1 times in a row: a success in between starts the count
   * again.
   */
  lemma ReleasedIffFailureRun(maxRetries: nat, outcomes: seq<bool>)
    ensures Replay(maxRetries, outcomes).1 <==> HasFailureRun(outcomes, maxRetries + 1)
  {
    ReplayCounts(maxRetries, outcomes);
    ReleaseNeedsFailureRun(maxRetries, outcomes);
  }

  // ---------------------------------------------------------------------------
  // The heartbeat rule
  // ---------------------------------------------------------------------------

  /**
   * A heartbeat run `elapsed` ms after the client's last call: a heartbeat
   * is sent when more than `clientHeartbeat` ms have passed, and the next
   * run is due `clientHeartbeat` ms after the client's last contact.  The
   * result is whether to send and the next delay.
   */
  function HeartbeatStep(clientHeartbeat: int, elapsed: int): (r: (bool, int))
    ensures r.0 <==> elapsed > clientHeartbeat
    ensures r.0 ==> r.1 == clientHeartbeat
    ensures !r.0 ==> elapsed + r.1 == clientHeartbeat
    ensures 0 <= elapsed && 0 <= clientHeartbeat ==> 0 <= r.1 <= clientHeartbeat
  {
    if elapsed > clientHeartbeat then (true, clientHeartbeat) else (false, clientHeartbeat - elapsed)
  }

  // ---------------------------------------------------------------------------
  // Notifiers and the queue
  // ---------------------------------------------------------------------------

  /** A queued notifier: an event notification for a client, or a client's heartbeat when `notification` is None. */
  class Notifier {
    const handle: Uuid
    const notification: Option<TypeUtils.TNotificationRequest>
    var retries: int
    /** The delay set by the last setDelay (or the constructor), in ms. */
    var delay: int

    /** A heartbeat notifier: first due one heartbeat period from now. */
    constructor Heartbeat(handle: Uuid, clientHeartbeat: int)
      ensures this.handle == handle && notification.None?
      ensures delay == clientHeartbeat && retries == 0
    {
      this.handle := handle;
      notification := None;
      delay := clientHeartbeat;
      retries := 0;
    }

    /** An event notifier: due at once. */
    constructor Event(handle: Uuid, notification: TypeUtils.TNotificationRequest)
      ensures this.handle == handle && this.notification == Some(notification)
      ensures delay == 0 && retries == 0
    {
      this.handle := handle;
      this.notification := Some(notification);
      delay := 0;
      retries := 0;
    }
  }

  /**
   * The queue after the executor takes `n` off it for a run: its first
   * occurrence is removed and the others keep their order.
   */
  function TakeOff(q: seq<Notifier>, n: Notifier): (r: seq<Notifier>)
    requires n in q
    ensures |r| == |q| - 1
    ensures multiset(r) == multiset(q) - multiset{n}
    decreases |q|
  {
    assert q == [q[0]] + q[1..];
    if q[0] == n then q[1..] else [q[0]] + TakeOff(q[1..], n)
  }

  /** Cutting index `i + 1` out of `q` is cutting index `i` out of its tail, after its head. */
  lemma CutAfterHead<T>(q: seq<T>, i: int)
    requires 0 <= i < |q| - 1
    ensures q[..i + 1] == [q[0]] + q[1..][..i]
    ensures [q[0]] + (q[1..][..i] + q[1..][i + 1..]) == q[..i + 1] + q[i + 2..]
  {
    assert q[i + 2..] == q[1..][i + 1..];
  }

  /** TakeOff cuts out the first occurrence of `n` and keeps the rest in order. */
  lemma {:induction false} TakeOffFirst(q: seq<Notifier>, n: Notifier)
    requires n in q
    ensures exists i :: 0 <= i < |q| && q[i] == n && n !in q[..i] && TakeOff(q, n) == q[..i] + q[i + 1..]
    decreases |q|
  {
    if q[0] == n {
      assert q[..0] == [] && q[0 + 1..] == q[1..];
    } else {
      var t := q[1..];
      assert n in t by { assert q == [q[0]] + t; }
      TakeOffFirst(t, n);
      var i :| 0 <= i < |t| && t[i] == n && n !in t[..i] && TakeOff(t, n) == t[..i] + t[i + 1..];
      CutAfterHead(q, i);
      assert q[i + 1] == n;
    }
  }

  class ClientNotifier {
    /** Whether a NodeMapper was given. */
    const hasNodeMapper: bool
    const queueThreshold: int
    const maxRetries: int
    const retryInterval: int
    const clientHeartbeat: int
    var eventsQueue: seq<Notifier>

    constructor(hasNodeMapper: bool, queueThreshold: int, maxRetries: int, retryInterval: int, clientHeartbeat: int)
      ensures this.hasNodeMapper == hasNodeMapper && this.queueThreshold == queueThreshold
      ensures this.maxRetries == maxRetries && this.retryInterval == retryInterval
      ensures this.clientHeartbeat == clientHeartbeat
      ensures eventsQueue == []
    {
      this.hasNodeMapper := hasNodeMapper;
      this.queueThreshold := queueThreshold;
      this.maxRetries := maxRetries;
      this.retryInterval := retryInterval;
      this.clientHeartbeat := clientHeartbeat;
      eventsQueue := [];
    }

    /** queueNotifier: always enqueues; going over the threshold is only reported (logged). */
    method QueueNotifier(n: Notifier) returns (overThreshold: bool)
      modifies this
      ensures eventsQueue == old(eventsQueue) + [n]
      ensures overThreshold <==> |eventsQueue| > queueThreshold
    {
      eventsQueue := eventsQueue + [n];
      overThreshold := |eventsQueue| > queueThreshold;
    }

    /** registerClientForHeartbeats: a new heartbeat notifier for the handle is queued. */
    method RegisterClientForHeartbeats(handle: Uuid) returns (n: Notifier)
      modifies this
      ensures fresh(n) && n.handle == handle && n.notification.None?
      ensures n.delay == clientHeartbeat && n.retries == 0
      ensures eventsQueue == old(eventsQueue) + [n]
    {
      n := new Notifier.Heartbeat(handle, clientHeartbeat);
      var _ := QueueNotifier(n);
    }

    /**
     * handle: IllegalState without a NodeMapper; an empty event (`isEmpty`)
     * queues nothing; any other queues an event notifier for the event's
     * client, carrying the event converted to a notification.
     */
    method Handle(event: AmEvent, isEmpty: bool) returns (r: Result<(), LlamaError>)
      modifies this
      ensures r.Failure? <==> !hasNodeMapper
      ensures r.Failure? ==> r.error.IllegalState?
      ensures r.Failure? || isEmpty ==> eventsQueue == old(eventsQueue)
      ensures r.Success? && !isEmpty ==>
                |eventsQueue| == |old(eventsQueue)| + 1 && eventsQueue[..|old(eventsQueue)|] == old(eventsQueue)
      ensures r.Success? && !isEmpty ==>
                var n := eventsQueue[|eventsQueue| - 1];
                fresh(n) && n.handle == event.clientId && n.delay == 0 && n.retries == 0
                && n.notification.Some? && TypeUtils.NotificationOf(n.notification.value, event)
    {
      if !hasNodeMapper {
        return Failure(IllegalState("Cannot handle LlamaAMEvents without aNodeMapper implementation"));
      }
      if !isEmpty {
        var request := TypeUtils.ToAMNotification(event);
        var n := new Notifier.Event(event.clientId, request);
        var _ := QueueNotifier(n);
      }
      r := Success(());
    }

    /**
     * run: the executor takes `n` off the queue (TakeOff) and runs it.
     * `known`: the registry has a caller for the handle; `failed`: the call
     * to the client threw; `elapsed`: the time since the client's last call.
     * An unknown handle discards the notifier.  An event is notified and
     * the notifier discarded; a heartbeat follows HeartbeatStep and the
     * notifier is queued again.  The count then follows RetryStep: a failed
     * call below the bound queues the notifier again after the retry
     * interval, and at the bound releases the client (onMaxFailures) and
     * discards the notifier.
     */
    method Run(n: Notifier, known: bool, failed: bool, elapsed: int) returns (call: Call, released: bool)
      requires n in eventsQueue
      modifies this, n
      ensures var taken := TakeOff(old(eventsQueue), n);
        !known ==> call == NoCall && !released && eventsQueue == taken
                   && n.retries == old(n.retries) && n.delay == old(n.delay)
      ensures known && n.notification.Some? ==> call == Notified(n.handle, n.notification.value)
      ensures known && n.notification.None? ==>
                call == (if HeartbeatStep(clientHeartbeat, elapsed).0 then Heartbeat(n.handle) else NoCall)
      ensures var tried := call != NoCall && failed;
              known ==> (n.retries, released) == RetryStep(maxRetries, old(n.retries), tried)
      ensures var taken := TakeOff(old(eventsQueue), n);
        known && !(call != NoCall && failed) && n.notification.Some? ==>
          eventsQueue == taken && n.delay == old(n.delay)
      ensures var taken := TakeOff(old(eventsQueue), n);
        known && !(call != NoCall && failed) && n.notification.None? ==>
          eventsQueue == taken + [n] && n.delay == HeartbeatStep(clientHeartbeat, elapsed).1
      ensures var taken := TakeOff(old(eventsQueue), n);
        known && call != NoCall && failed ==>
          if old(n.retries) < maxRetries
          then eventsQueue == taken + [n] && n.delay == retryInterval
          else eventsQueue == taken && n.delay == old(n.delay)
    {
      var taken := TakeOff(eventsQueue, n);
      var queue, delay, retries := taken, n.delay, n.retries;
      call, released := NoCall, false;
      if known {
        var failing := false;
        if n.notification.Some? {
          call := Notified(n.handle, n.notification.value);
          failing := failed;
        } else {
          var step := HeartbeatStep(clientHeartbeat, elapsed);
          if step.0 {
            call := Heartbeat(n.handle);
            failing := failed;
          }
          if !failing {
            delay, queue := step.1, taken + [n];
          }
        }
        if !failing {
          retries := 0;
        } else if retries < maxRetries {
          retries, delay, queue := retries + 1, retryInterval, taken + [n];
        } else {
          released := true;
        }
      }
      eventsQueue, n.delay, n.retries := queue, delay, retries;
    }
  }
}
