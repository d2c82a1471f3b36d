/** RidenModbus, RidenModbusBridge and the ModbusRTU object they share, as one object with their fields. */
module ModbusBridge {
  import opened Bytes
  import opened SerialBus

  const TIMEOUT: nat := 500   // milliseconds

  class DongleBus {
    var initialized: bool
    var callbackInstalled: bool
    var transactionId: nat
    var slaveId: byte
    var ip: word
    var outstanding: seq<Transaction>   // the engine's, not the firmware's
    var clock: nat                      // millis(), taken not to wrap
    ghost var issued: seq<Issued>
    ghost var accepted: seq<Accepted>
    ghost var responses: seq<TcpResponse>
    ghost var errors: seq<TcpError>
    ghost var locals: seq<Outcome>
    ghost var delivered: seq<seq<byte>>

    ghost function View(): Bus
      reads this
    {
      Bus(outstanding, issued, callbackInstalled, Source(transactionId, ip, slaveId), accepted, responses, errors, locals,
          delivered)
    }

    constructor ()
      ensures View() == Quiet && !initialized
    {
      initialized, callbackInstalled := false, false;
      transactionId, slaveId, ip := 0, 0, 0;
      outstanding, clock := [], 0;
      issued, accepted, responses, errors, locals, delivered := [], [], [], [], [], [];
    }

    /** Some time passes. */
    method Delay()
      modifies this`clock
      ensures clock > old(clock)
    {
      var ms: nat :| ms > 0;
      clock := clock + ms;
    }

    method RtuRawCallback(data: seq<byte>, toServer: bool) returns (verdict: Verdict)
      modifies this
      ensures initialized == old(initialized) && clock == old(clock)
      ensures if initialized then (View(), verdict) == RtuCallback(old(View()), data, toServer)
              else View() == old(View()) && verdict == GeneralFailure
    {
      if !initialized {
        return GeneralFailure;
      }
      callbackInstalled := false;
      if toServer {
        return Passthrough;
      }
      responses := responses + [TcpResponse(Source(transactionId, ip, slaveId), data)];
      transactionId, slaveId, ip := 0, 0, 0;
      return Success;
    }

    /** modbus.task(): the engine works on what is outstanding and calls back. */
    method Task()
      requires initialized
      modifies this
      ensures initialized && clock == old(clock) && View() == Poll(old(View()))
    {
      if outstanding == [] {
        return;
      }
      var t := outstanding[0];
      if t.ticks > 0 {
        outstanding := [t.(ticks := t.ticks - 1)] + outstanding[1..];
        return;
      }
      outstanding := outstanding[1..];
      if t.outcome.Answer? {
        if callbackInstalled {
          var _ := RtuRawCallback(t.outcome.data, false);
        } else if !t.forwarded {
          delivered := delivered + [t.outcome.data];
        }
      }
    }

    /**
     * True only when the line is idle; false only before initialisation or when the timeout has passed. The
     * loop ends because the time left shrinks with every turn.
     */
    method WaitForInactive() returns (ok: bool, ghost patience: nat)
      modifies this
      ensures initialized == old(initialized) && clock >= old(clock)
      ensures ok ==> outstanding == []
      ensures !ok ==> !initialized || clock > old(clock) + TIMEOUT
      ensures if initialized then (View(), ok) == Wait(old(View()), patience) else View() == old(View()) && !ok
    {
      patience := 0;
      if !initialized {
        return false, 0;
      }
      var startedAt := clock;
      var waitUntil := startedAt + TIMEOUT;
      ghost var before := View();
      while outstanding != []
        invariant initialized && old(clock) <= clock <= waitUntil
        invariant BusyFor(before, patience) && View() == Polls(before, patience)
        decreases waitUntil - clock
      {
        WaitEnds(before, patience);
        BusyLonger(before, patience);
        Delay();
        Task();
        if clock > waitUntil {
          return false, patience;
        }
        patience := patience + 1;
      }
      WaitEnds(before, patience);
      return true, patience;
    }

    /** read_holding_registers and its kin: the register transfer itself is the engine's. */
    method LocalCall(taken: bool, ticks: nat, outcome: Outcome)
      returns (ok: bool, ghost before: nat, ghost after: nat)
      requires initialized
      modifies this
      ensures initialized && (View(), ok) == SerialBus.LocalCall(old(View()), before, taken, ticks, outcome, after)
      ensures ok ==> outstanding == []
    {
      after := 0;
      ok, before := WaitForInactive();
      if !ok || !taken {
        return false, before, 0;
      }
      outstanding := outstanding + [Transaction(false, ticks, outcome)];
      issued := issued + [Own(outcome)];
      locals := locals + [outcome];
      ok, after := WaitForInactive();
    }

    /** The bridge's own wait has no timeout; it ends because the engine finishes what it is given. */
    method WaitUntilIdle()
      requires initialized
      modifies this
      ensures initialized && View() == Drain(old(View()))
    {
      while outstanding != []
        invariant initialized && Drain(View()) == Drain(old(View()))
        decreases Work(outstanding)
      {
        PollWorks(View());
        Delay();
        Task();
      }
    }

    /** A request from the TCP side. */
    method TcpRawCallback(from: Source, data: seq<byte>, taken: bool, ticks: nat, outcome: Outcome)
      returns (verdict: Verdict)
      requires data != []
      modifies this
      ensures if old(initialized) then (View(), verdict) == TcpRequest(old(View()), from, data, taken, ticks, outcome)
              else View() == old(View()) && verdict == GeneralFailure
    {
      if !initialized {
        return GeneralFailure;
      }
      WaitUntilIdle();
      if !taken {
        errors := errors + [TcpError(from.slaveId, data[0])];
        return DeviceFailed;
      }
      outstanding := outstanding + [Transaction(true, ticks, outcome)];
      issued := issued + [Forwarded(from, outcome)];
      accepted := accepted + [Accepted(from, outcome)];
      transactionId, slaveId, ip := from.transactionId, from.slaveId, from.ip;
      callbackInstalled := true;
      return Success;
    }
  }
}
