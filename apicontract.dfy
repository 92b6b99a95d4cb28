/**
 * llama/src/main/java/com/cloudera/llama/am/impl/APIContractLlamaAM.java:
 * the wrapper that enforces the application master's life cycle (not started,
 * running, stopped, never restarted) and rejects null arguments before any
 * call reaches the wrapped application master.
 *
 * The wrapped application master is represented by whether it is running
 * and by the log of the calls forwarded to it; what it answers, and whether
 * its start fails, are parameters.  Logging and metrics are left out.
 */
module ApiContract {

  import opened Common
  import opened LlamaApi
  import opened PlacedReservations

  /** A listener object; None stands for null. */
  type Listener = nat

  /** A call forwarded to the wrapped application master. */
  datatype AmCall =
    | StartCall
    | StopCall
    | GetNodesCall
    | AddListenerCall(listener: Listener)
    | RemoveListenerCall(listener: Listener)
    | ReserveCall(reservationId: Uuid, reservation: PlacedReservationImpl)
    | GetReservationCall(reservationId: Uuid)
    | ReleaseReservationCall(reservationId: Uuid)
    | ReleaseReservationsForClientIdCall(clientId: Uuid)

  const NOT_RUNNING := IllegalState("LlamaAM is not running")
  const ALREADY_RUNNING := IllegalState("LlamaAM already running")
  const CANNOT_RESTART := IllegalState("LlamaAM stopped, cannot be restarted")
  const STOPPED := IllegalState("LlamaAM stopped")

  /** The life cycle as the wrapper sees it. */
  datatype Lifecycle = NotStarted | Running | Stopped

  datatype LifecycleOp = StartOp(fails: bool) | StopOp

  /** What one start or stop does to the life cycle. */
  function Next(s: Lifecycle, op: LifecycleOp): Lifecycle
  {
    match op
    case StartOp(fails) => if s == NotStarted && !fails then Running else s
    case StopOp => if s == Running then Stopped else s
  }

  function Run(s: Lifecycle, ops: seq<LifecycleOp>): Lifecycle
    decreases |ops|
  {
    if ops == [] then s else Run(Next(s, ops[0]), ops[1..])
  }

  /** Once stopped, no series of starts and stops makes the application master run again. */
  lemma {:induction false} StoppedNeverRestarts(ops: seq<LifecycleOp>)
    ensures Run(Stopped, ops) == Stopped
  {
    if ops != [] {
      assert Next(Stopped, ops[0]) == Stopped;
      StoppedNeverRestarts(ops[1..]);
    }
  }

  /** The application master runs after a series of operations exactly when it started successfully and was never stopped since. */
  lemma {:induction false} RunningIffStartedAndNotStopped(ops: seq<LifecycleOp>)
    ensures Run(NotStarted, ops) == Running <==>
      exists i :: 0 <= i < |ops| && ops[i] == StartOp(false) && StopOp !in ops[i + 1..]
                  && forall k :: 0 <= k < i ==> ops[k] != StartOp(false)
  {
    if ops == [] {
    } else if ops[0] == StartOp(false) {
      RunningStaysUntilStop(ops[1..]);
      if Run(NotStarted, ops) == Running {
        assert StopOp !in ops[1..];
      }
      if StopOp !in ops[1..] {
        assert ops[0] == StartOp(false) && StopOp !in ops[0 + 1..];
      }
    } else {
      assert Next(NotStarted, ops[0]) == NotStarted;
      RunningIffStartedAndNotStopped(ops[1..]);
      var rest := ops[1..];
      if Run(NotStarted, ops) == Running {
        var i :| 0 <= i < |rest| && rest[i] == StartOp(false) && StopOp !in rest[i + 1..]
                 && forall k :: 0 <= k < i ==> rest[k] != StartOp(false);
        assert ops[i + 1] == StartOp(false) && ops[i + 2..] == rest[i + 1..];
        forall k | 0 <= k < i + 1 ensures ops[k] != StartOp(false) {
          if k > 0 { assert ops[k] == rest[k - 1]; }
        }
      }
      if exists i :: 0 <= i < |ops| && ops[i] == StartOp(false) && StopOp !in ops[i + 1..]
                     && forall k :: 0 <= k < i ==> ops[k] != StartOp(false) {
        var i :| 0 <= i < |ops| && ops[i] == StartOp(false) && StopOp !in ops[i + 1..]
                 && forall k :: 0 <= k < i ==> ops[k] != StartOp(false);
        assert i > 0;
        assert rest[i - 1] == StartOp(false) && rest[i..] == ops[i + 1..];
        forall k | 0 <= k < i - 1 ensures rest[k] != StartOp(false) {
          assert rest[k] == ops[k + 1];
        }
      }
    }
  }

  /** From Running, the application master keeps running exactly as long as no stop comes. */
  lemma {:induction false} RunningStaysUntilStop(ops: seq<LifecycleOp>)
    ensures Run(Running, ops) == Running <==> StopOp !in ops
  {
    if ops != [] {
      if ops[0] == StopOp {
        StoppedNeverRestarts(ops[1..]);
      } else {
        assert Next(Running, ops[0]) == Running;
        RunningStaysUntilStop(ops[1..]);
        assert StopOp in ops <==> StopOp in ops[1..];
      }
    }
  }

  class APIContractLlamaAM {
    /** Whether the wrapped application master is running. */
    var amRunning: bool
    var stopped: bool
    /** The calls forwarded to the wrapped application master, oldest first. */
    var calls: seq<AmCall>

    function State(): Lifecycle
      reads this
    {
      if amRunning then Running else if stopped then Stopped else NotStarted
    }

    /** A stopped wrapper never has a running application master behind it. */
    predicate Valid()
      reads this
    {
      stopped ==> !amRunning
    }

    /** The wrapper around an application master that is running or not. */
    constructor(amRunning: bool)
      ensures Valid() && this.amRunning == amRunning && !stopped && calls == []
    {
      this.amRunning := amRunning;
      stopped := false;
      calls := [];
    }

    /** start: refused when already running or once stopped; otherwise the wrapped start runs. */
    method Start(startFails: bool) returns (err: Option<LlamaError>)
      requires Valid()
      modifies this
      ensures Valid()
      ensures State() == Next(old(State()), StartOp(startFails))
      ensures old(State()) == Running ==> err == Some(ALREADY_RUNNING) && calls == old(calls)
      ensures old(State()) == Stopped ==> err == Some(CANNOT_RESTART) && calls == old(calls)
      ensures old(State()) == NotStarted ==> calls == old(calls) + [StartCall] && (err.None? <==> !startFails)
    {
      if amRunning {
        return Some(ALREADY_RUNNING);
      }
      if stopped {
        return Some(CANNOT_RESTART);
      }
      calls := calls + [StartCall];
      if startFails {
        return Some(AmFailure("start"));
      }
      amRunning := true;
      err := None;
    }

    /** stop: only a running application master is stopped, and only then is the wrapper marked stopped. */
    method Stop()
      requires Valid()
      modifies this
      ensures Valid()
      ensures State() == Next(old(State()), StopOp)
      ensures old(State()) == Running ==> calls == old(calls) + [StopCall] && stopped
      ensures old(State()) != Running ==> calls == old(calls) && stopped == old(stopped)
    {
      if amRunning {
        calls := calls + [StopCall];
        amRunning := false;
        stopped := true;
      }
    }

    predicate IsRunning()
      reads this
    {
      amRunning
    }

    /** getNodes: refused unless running; otherwise the wrapped application master's answer or failure. */
    method GetNodes(answer: Result<seq<string>, LlamaError>) returns (r: Result<seq<string>, LlamaError>)
      modifies this
      ensures !amRunning ==> r == Failure(NOT_RUNNING) && calls == old(calls)
      ensures amRunning ==> r == answer && calls == old(calls) + [GetNodesCall]
      ensures amRunning == old(amRunning) && stopped == old(stopped)
    {
      if !amRunning {
        return Failure(NOT_RUNNING);
      }
      calls := calls + [GetNodesCall];
      r := answer;
    }

    /** addListener: refused once stopped, then a null listener is rejected. */
    method AddListener(listener: Option<Listener>) returns (err: Option<LlamaError>)
      modifies this
      ensures stopped ==> err == Some(STOPPED) && calls == old(calls)
      ensures !stopped && listener.None? ==> err == Some(IllegalArgument("listener")) && calls == old(calls)
      ensures !stopped && listener.Some? ==> err.None? && calls == old(calls) + [AddListenerCall(listener.value)]
      ensures amRunning == old(amRunning) && stopped == old(stopped)
    {
      if stopped {
        return Some(STOPPED);
      }
      if listener.None? {
        return Some(IllegalArgument("listener"));
      }
      calls := calls + [AddListenerCall(listener.value)];
      err := None;
    }

    /** removeListener: refused once stopped, then a null listener is rejected. */
    method RemoveListener(listener: Option<Listener>) returns (err: Option<LlamaError>)
      modifies this
      ensures stopped ==> err == Some(STOPPED) && calls == old(calls)
      ensures !stopped && listener.None? ==> err == Some(IllegalArgument("listener")) && calls == old(calls)
      ensures !stopped && listener.Some? ==> err.None? && calls == old(calls) + [RemoveListenerCall(listener.value)]
      ensures amRunning == old(amRunning) && stopped == old(stopped)
    {
      if stopped {
        return Some(STOPPED);
      }
      if listener.None? {
        return Some(IllegalArgument("listener"));
      }
      calls := calls + [RemoveListenerCall(listener.value)];
      err := None;
    }

    /**
     * reserve: the running check comes first, then the id and the
     * reservation must not be null; then the wrapped application master is
     * called, and its `failure`, if any, propagates.
     */
    method Reserve(reservationId: Option<Uuid>, reservation: Option<PlacedReservationImpl>, failure: Option<LlamaError>)
      returns (err: Option<LlamaError>)
      modifies this
      ensures !amRunning ==> err == Some(NOT_RUNNING) && calls == old(calls)
      ensures amRunning && reservationId.None? ==> err == Some(IllegalArgument("reservationId")) && calls == old(calls)
      ensures amRunning && reservationId.Some? && reservation.None? ==>
        err == Some(IllegalArgument("reservation")) && calls == old(calls)
      ensures amRunning && reservationId.Some? && reservation.Some? ==>
        err == failure && calls == old(calls) + [ReserveCall(reservationId.value, reservation.value)]
      ensures amRunning == old(amRunning) && stopped == old(stopped)
    {
      if !amRunning {
        return Some(NOT_RUNNING);
      }
      if reservationId.None? {
        return Some(IllegalArgument("reservationId"));
      }
      if reservation.None? {
        return Some(IllegalArgument("reservation"));
      }
      calls := calls + [ReserveCall(reservationId.value, reservation.value)];
      err := failure;
    }

    /** getReservation: the running check, then a null id is rejected; otherwise the wrapped answer or failure. */
    method GetReservation(reservationId: Option<Uuid>, answer: Result<Option<PlacedReservationImpl>, LlamaError>)
      returns (r: Result<Option<PlacedReservationImpl>, LlamaError>)
      modifies this
      ensures !amRunning ==> r == Failure(NOT_RUNNING) && calls == old(calls)
      ensures amRunning && reservationId.None? ==> r == Failure(IllegalArgument("reservationId")) && calls == old(calls)
      ensures amRunning && reservationId.Some? ==>
        r == answer && calls == old(calls) + [GetReservationCall(reservationId.value)]
      ensures amRunning == old(amRunning) && stopped == old(stopped)
    {
      if !amRunning {
        return Failure(NOT_RUNNING);
      }
      if reservationId.None? {
        return Failure(IllegalArgument("reservationId"));
      }
      calls := calls + [GetReservationCall(reservationId.value)];
      r := answer;
    }

    /** releaseReservation: the running check, then a null id is rejected; then the wrapped call and its `failure`, if any. */
    method ReleaseReservation(reservationId: Option<Uuid>, failure: Option<LlamaError>) returns (err: Option<LlamaError>)
      modifies this
      ensures !amRunning ==> err == Some(NOT_RUNNING) && calls == old(calls)
      ensures amRunning && reservationId.None? ==> err == Some(IllegalArgument("reservationId")) && calls == old(calls)
      ensures amRunning && reservationId.Some? ==>
        err == failure && calls == old(calls) + [ReleaseReservationCall(reservationId.value)]
      ensures amRunning == old(amRunning) && stopped == old(stopped)
    {
      if !amRunning {
        return Some(NOT_RUNNING);
      }
      if reservationId.None? {
        return Some(IllegalArgument("reservationId"));
      }
      calls := calls + [ReleaseReservationCall(reservationId.value)];
      err := failure;
    }

    /** releaseReservationsForClientId: the running check, then a null client id is rejected; otherwise the wrapped answer or failure. */
    method ReleaseReservationsForClientId(clientId: Option<Uuid>, answer: Result<seq<Uuid>, LlamaError>)
      returns (r: Result<seq<Uuid>, LlamaError>)
      modifies this
      ensures !amRunning ==> r == Failure(NOT_RUNNING) && calls == old(calls)
      ensures amRunning && clientId.None? ==> r == Failure(IllegalArgument("clientId")) && calls == old(calls)
      ensures amRunning && clientId.Some? ==>
        r == answer && calls == old(calls) + [ReleaseReservationsForClientIdCall(clientId.value)]
      ensures amRunning == old(amRunning) && stopped == old(stopped)
    {
      if !amRunning {
        return Failure(NOT_RUNNING);
      }
      if clientId.None? {
        return Failure(IllegalArgument("clientId"));
      }
      calls := calls + [ReleaseReservationsForClientIdCall(clientId.value)];
      r := answer;
    }
  }
}
