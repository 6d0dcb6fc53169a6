/**
 * One direction of the packet relay, as a pure function of what the two
 * endpoints do. Each loop iteration reads into a 2048-byte buffer, writes
 * exactly `buffer[:n]` to the other side, and the loop ends at the first read
 * or write error. The UDP-to-TUN loop reuses one buffer for every read; the
 * TUN-to-UDP loop allocates a fresh buffer each time. Both are shown to
 * forward the same payloads.
 */
module PacketRelay {
  import opened Bytes

  /** Size of the read buffer in both loops. */
  const BufferSize: nat := 2048

  type Packet = seq<byte>

  /** How the write of one forwarded payload went. */
  datatype WriteStatus = Written | WriteFailed

  /**
   * What one loop iteration meets: the read fails, or it yields the bytes
   * `offered` to the buffer and the write of what was read then has `status`.
   */
  datatype Outcome =
    | ReadFailed
    | ReadDone(offered: Packet, status: WriteStatus)

  /** Why the loop is no longer running. */
  datatype Ending =
    | Running          // the outcomes ran out with the loop still going
    | StoppedOnRead    // the last read failed
    | StoppedOnWrite   // the last write failed

  /**
   * A run of the loop: the payloads handed to write, in order (including one
   * whose write failed), how it ended, and how many reads it performed (`readCount`). A
   * stopped loop (any ending but `Running`) sends its one termination signal.
   */
  datatype Run = Run(attempts: seq<Packet>, ending: Ending, readCount: nat)

  /** True when an outcome ends the loop. */
  predicate Stops(o: Outcome)
  {
    o.ReadFailed? || o.status == WriteFailed
  }

  /**
   * What a read leaves in `buffer[:n]`: Go's reader contract bounds `n` by the
   * buffer length, so at most the first 2048 offered bytes.
   */
  function Payload(offered: Packet): (p: Packet)
    ensures |p| <= BufferSize
    ensures |offered| <= BufferSize ==> p == offered
  {
    offered[..Min(|offered|, BufferSize)]
  }

  /**
   * The loop as a function of its outcomes: every successful read is forwarded
   * as its payload, in order, and nothing is read after the first error.
   */
  function Relay(trace: seq<Outcome>): (r: Run)
    ensures r.readCount <= |trace|
    ensures |r.attempts| <= r.readCount
  {
    if |trace| == 0 then Run([], Running, 0)
    else match trace[0]
      case ReadFailed => Run([], StoppedOnRead, 1)
      case ReadDone(p, WriteFailed) => Run([Payload(p)], StoppedOnWrite, 1)
      case ReadDone(p, Written) =>
        var rest := Relay(trace[1..]);
        Run([Payload(p)] + rest.attempts, rest.ending, rest.readCount + 1)
  }

  /**
   * How `Relay` ends, in closed form: the reads before the last one all
   * succeeded and were written, and the run ends at the first failing outcome
   * (a read error forwards nothing for it, a write error forwards its payload)
   * or at the end of the trace.
   */
  lemma {:induction false} RelayEnding(trace: seq<Outcome>)
    ensures var r := Relay(trace);
      forall j :: 0 <= j < r.readCount - 1 ==> trace[j].ReadDone? && trace[j].status == Written
    ensures var r := Relay(trace);
      r.ending == Running <==> r.readCount == |trace| && (forall j :: 0 <= j < |trace| ==> !Stops(trace[j]))
    ensures var r := Relay(trace);
      r.ending == StoppedOnRead ==> r.readCount > 0 && trace[r.readCount - 1] == ReadFailed && |r.attempts| == r.readCount - 1
    ensures var r := Relay(trace);
      r.ending == StoppedOnWrite ==> r.readCount > 0 && trace[r.readCount - 1].ReadDone?
                                     && trace[r.readCount - 1].status == WriteFailed && |r.attempts| == r.readCount
    ensures var r := Relay(trace);
      r.ending == Running ==> |r.attempts| == r.readCount
  {
    if |trace| > 0 && trace[0].ReadDone? && trace[0].status == Written {
      RelayEnding(trace[1..]);
      var rest := Relay(trace[1..]);
      forall j | 0 <= j < |trace| && rest.ending == Running
        ensures !Stops(trace[j])
      {
        if j > 0 {
          assert trace[j] == trace[1..][j - 1];
        }
      }
      forall j | 0 < j < rest.readCount
        ensures trace[j].ReadDone? && trace[j].status == Written
      {
        assert trace[j] == trace[1..][j - 1];
      }
    }
  }

  /** The k-th write attempt is the payload of the k-th read, in read order. */
  lemma {:induction false} RelayAttempts(trace: seq<Outcome>)
    ensures var r := Relay(trace);
      forall j :: 0 <= j < |r.attempts| ==> trace[j].ReadDone? && r.attempts[j] == Payload(trace[j].offered)
  {
    if |trace| > 0 && trace[0].ReadDone? && trace[0].status == Written {
      RelayAttempts(trace[1..]);
      var rest := Relay(trace[1..]);
      var r := Relay(trace);
      forall j | 0 < j < |r.attempts|
        ensures trace[j].ReadDone? && r.attempts[j] == Payload(trace[j].offered)
      {
        assert r.attempts[j] == rest.attempts[j - 1];
        assert trace[j] == trace[1..][j - 1];
      }
    }
  }

  /** Payloads whose write succeeded: all attempts but a failed last one. */
  function Delivered(r: Run): (d: seq<Packet>)
    requires r.ending == StoppedOnWrite ==> |r.attempts| > 0
    ensures r.ending != StoppedOnWrite ==> d == r.attempts
    ensures r.ending == StoppedOnWrite ==> d + [r.attempts[|r.attempts| - 1]] == r.attempts
  {
    if r.ending == StoppedOnWrite then r.attempts[..|r.attempts| - 1] else r.attempts
  }

  /**
   * The delivered payloads are those of the reads whose write succeeded, in
   * read order: every read of the run except a failed last one.
   */
  lemma {:induction false} DeliveredAreWritten(trace: seq<Outcome>)
    ensures Relay(trace).ending == StoppedOnWrite ==> |Relay(trace).attempts| > 0
    ensures var r := Relay(trace);
      forall j :: 0 <= j < |Delivered(r)| ==>
        trace[j].ReadDone? && trace[j].status == Written && Delivered(r)[j] == Payload(trace[j].offered)
    ensures var r := Relay(trace);
      |Delivered(r)| == (if r.ending == Running then r.readCount else r.readCount - 1)
  {
    RelayEnding(trace);
    RelayAttempts(trace);
  }

  /**
   * When the other side rejects every write, the first outcome stops the loop:
   * it makes exactly one read (if any outcome is given), attempts at most one
   * payload, delivers none, and stops.
   */
  lemma {:induction false} RelayWhenEveryWriteFails(trace: seq<Outcome>)
    requires forall j :: 0 <= j < |trace| && trace[j].ReadDone? ==> trace[j].status == WriteFailed
    ensures |Relay(trace).attempts| <= 1
    ensures Relay(trace).readCount == Min(|trace|, 1)
    ensures |trace| > 0 ==> Relay(trace).ending != Running
    ensures |trace| > 0 && trace[0].ReadDone? ==> Relay(trace).ending == StoppedOnWrite
    ensures Relay(trace).ending == StoppedOnWrite ==> |Relay(trace).attempts| > 0
    ensures Delivered(Relay(trace)) == []
  {
    RelayEnding(trace);
  }

  /** Once the loop has stopped, later outcomes change nothing. */
  lemma {:induction false} NothingAfterStop(trace: seq<Outcome>, later: seq<Outcome>)
    requires Relay(trace).ending != Running
    ensures Relay(trace + later) == Relay(trace)
  {
    assert |trace| > 0;
    assert (trace + later)[0] == trace[0];
    if trace[0].ReadDone? && trace[0].status == Written {
      assert (trace + later)[1..] == trace[1..] + later;
      NothingAfterStop(trace[1..], later);
    }
  }

  /** More outcomes only extend what has been forwarded so far. */
  lemma {:induction false} RelayExtends(trace: seq<Outcome>, later: seq<Outcome>)
    ensures Relay(trace).attempts <= Relay(trace + later).attempts
    ensures Relay(trace).readCount <= Relay(trace + later).readCount
  {
    if |trace| > 0 {
      assert (trace + later)[0] == trace[0];
      if trace[0].ReadDone? && trace[0].status == Written {
        assert (trace + later)[1..] == trace[1..] + later;
        RelayExtends(trace[1..], later);
      }
    }
  }

  /**
   * Packets that fit the buffer are forwarded byte for byte: with no error,
   * the attempts are exactly the offered packets, in order.
   */
  lemma {:induction false} ForwardsIdentically(trace: seq<Outcome>)
    requires forall j :: 0 <= j < |trace| ==> trace[j].ReadDone? && trace[j].status == Written
    requires forall j :: 0 <= j < |trace| ==> |trace[j].offered| <= BufferSize
    ensures Relay(trace).ending == Running
    ensures Relay(trace).attempts == seq(|trace|, j requires 0 <= j < |trace| => trace[j].offered)
  {
    RelayEnding(trace);
    RelayAttempts(trace);
  }

  /** The buffer contents after a read, and the count `n` the read returned. */
  datatype Filled = Filled(data: seq<byte>, count: nat)

  /** One read into `buffer`. */
  function ReadInto(buffer: seq<byte>, offered: Packet): (f: Filled)
    ensures |f.data| == |buffer|
    ensures f.count == Min(|offered|, |buffer|)
    ensures forall i :: 0 <= i < f.count ==> f.data[i] == offered[i]
  {
    Filled(Copy(buffer, offered), CopyCount(buffer, offered))
  }

  /**
   * One read into a 2048-byte buffer followed by the slice `buffer[:n]`: the
   * buffer after the read and the bytes handed to write.
   */
  function ReadSlice(buffer: seq<byte>, offered: Packet): (res: (seq<byte>, Packet))
    requires |buffer| == BufferSize
    ensures |res.0| == BufferSize
    ensures res.1 == Payload(offered)
  {
    var f := ReadInto(buffer, offered);
    (f.data, f.data[..f.count])
  }

  /** The run of a loop that has done `readCount` reads and forwarded `attempts`, then continues as `rest`. */
  function Resume(attempts: seq<Packet>, readCount: nat, rest: Run): Run
  {
    Run(attempts + rest.attempts, rest.ending, readCount + rest.readCount)
  }

  /** Unfolds `Relay` at position `i` of the trace. */
  lemma RelayAt(trace: seq<Outcome>, i: nat)
    requires i < |trace|
    ensures trace[i] == ReadFailed ==> Relay(trace[i..]) == Run([], StoppedOnRead, 1)
    ensures trace[i].ReadDone? && trace[i].status == WriteFailed
            ==> Relay(trace[i..]) == Run([Payload(trace[i].offered)], StoppedOnWrite, 1)
    ensures trace[i].ReadDone? && trace[i].status == Written
            ==> Relay(trace[i..]) == Resume([Payload(trace[i].offered)], 1, Relay(trace[i + 1..]))
  {
    assert trace[i..][0] == trace[i];
    assert trace[i..][1..] == trace[i + 1..];
  }

  /**
   * The UDP-to-TUN loop: one buffer for the whole loop, so each read lands on
   * the bytes of the previous packet; only `buffer[:n]` is written.
   */
  method RelayUdpToTun(trace: seq<Outcome>) returns (r: Run)
    ensures r == Relay(trace)
  {
    var buffer := Zeros(BufferSize);
    var attempts: seq<Packet> := [];
    var i := 0;
    var ending := Running;
    while ending == Running && i < |trace|
      invariant 0 <= i <= |trace|
      invariant |buffer| == BufferSize
      invariant ending == Running ==> Relay(trace) == Resume(attempts, i, Relay(trace[i..]))
      invariant ending != Running ==> Relay(trace) == Run(attempts, ending, i)
      decreases |trace| - i
    {
      RelayAt(trace, i);
      match trace[i] {
        case ReadFailed =>
          ending := StoppedOnRead;
        case ReadDone(offered, status) =>
          var res := ReadSlice(buffer, offered);
          buffer := res.0;
          attempts := attempts + [res.1];
          if status == WriteFailed {
            ending := StoppedOnWrite;
          }
      }
      i := i + 1;
    }
    r := Run(attempts, ending, i);
  }

  /** The TUN-to-UDP loop: a fresh zeroed buffer for every read. */
  method RelayTunToUdp(trace: seq<Outcome>) returns (r: Run)
    ensures r == Relay(trace)
  {
    var attempts: seq<Packet> := [];
    var i := 0;
    var ending := Running;
    while ending == Running && i < |trace|
      invariant 0 <= i <= |trace|
      invariant ending == Running ==> Relay(trace) == Resume(attempts, i, Relay(trace[i..]))
      invariant ending != Running ==> Relay(trace) == Run(attempts, ending, i)
      decreases |trace| - i
    {
      RelayAt(trace, i);
      var buffer := Zeros(BufferSize);
      match trace[i] {
        case ReadFailed =>
          ending := StoppedOnRead;
        case ReadDone(offered, status) =>
          var res := ReadSlice(buffer, offered);
          buffer := res.0;
          attempts := attempts + [res.1];
          if status == WriteFailed {
            ending := StoppedOnWrite;
          }
      }
      i := i + 1;
    }
    r := Run(attempts, ending, i);
  }
}
