/** The sending half of a shard transfer: bytes pushed under a window of unacknowledged
    bytes, retransmitted on a timer, ended by a commit. */
module DatapathSender {
  import opened Bytes
  import opened DatapathDisk

  const ChunkSize := 65536
  const WindowBytes := 0x10_0000
  const MaxAttempts := 20

  datatype Msg =
    | Chunk(key: ShardKey, offset: nat, data: bytes, stream: nat)
    | Commit(key: ShardKey, length: nat, checksum: bytes, stream: nat)
    | Ack(key: ShardKey, staged: nat, committed: bool, failed: bool, stream: nat)

  datatype Outcome = Running | Succeeded | Failed

  datatype Stream = Stream(
    key: ShardKey,
    stream: nat,
    buf: bytes,       // unacknowledged bytes; buf[0] is at offset base
    base: nat,        // cumulative acknowledged offset
    sent: nat,        // high-water transmit offset
    committing: bool,
    length: nat,
    checksum: bytes,
    attempts: nat,
    outcome: Outcome)
  {
    predicate Finished() { !outcome.Running? }

    function End(): nat { base + |buf| }
  }

  /** What every method leaves behind: everything buffered has been transmitted, the buffer
      fits the window, and a declared length is the length written. */
  predicate Paced(w: Stream) {
    !w.Finished() ==>
      && w.sent == w.End() && |w.buf| <= WindowBytes
      && (w.committing ==> w.length == w.End())
  }

  function NewStream(key: ShardKey, stream: nat): Stream {
    Stream(key, stream, [], 0, 0, false, 0, [], 0, Running)
  }

  /** The chunks carrying buf from offset `from` on. */
  function Chunks(w: Stream, from: nat): (ms: seq<Msg>)
    decreases w.End() - from
  {
    if from < w.base || from >= w.End() then []
    else
      var start := from - w.base;
      var end := if start + ChunkSize < |w.buf| then start + ChunkSize else |w.buf|;
      [Chunk(w.key, from, w.buf[start..end], w.stream)] + Chunks(w, w.base + end)
  }

  function CommitMsgs(w: Stream): seq<Msg> {
    if w.committing && w.End() == w.length then [Commit(w.key, w.length, w.checksum, w.stream)] else []
  }

  /** Transmits whatever has not gone out since `sent`, then the commit. */
  function Pump(w: Stream): (Stream, seq<Msg>) {
    (w.(sent := w.End()), Chunks(w, w.sent) + CommitMsgs(w))
  }

  function Finish(w: Stream, o: Outcome): Stream {
    w.(outcome := o, buf := [])
  }

  function Write(w: Stream, p: bytes): (Stream, seq<Msg>) {
    if w.Finished() then (w, []) else Pump(w.(buf := w.buf + p))
  }

  function CommitStream(w: Stream, length: nat, checksum: bytes): (Stream, seq<Msg>) {
    if w.Finished() then (w, []) else Pump(w.(committing := true, length := length, checksum := checksum))
  }

  function HandleAck(w: Stream, m: Msg): (Stream, seq<Msg>)
    requires m.Ack?
  {
    if w.Finished() || m.stream != w.stream then (w, [])
    else if m.failed then (Finish(w, Failed), [])
    else if m.committed then (Finish(w, Succeeded), [])
    else if m.staged > w.End() then (Finish(w, Failed), [])  // acknowledged more than was sent
    else if m.staged > w.base then Pump(w.(buf := w.buf[m.staged - w.base..], base := m.staged, attempts := 0))
    else (w, [])
  }

  function OnTimer(w: Stream): (Stream, seq<Msg>) {
    if w.Finished() then (w, [])
    else if w.buf == [] && !w.committing then (w, [])
    else if w.attempts + 1 >= MaxAttempts then (Finish(w.(attempts := w.attempts + 1), Failed), [])
    else Pump(w.(attempts := w.attempts + 1, sent := w.base))
  }

  function Abort(w: Stream): Stream {
    if w.Finished() then w else Finish(w, Failed)
  }

  /** Every message of a list carries bytes of the buffer at their own offset. */
  lemma {:induction false} ChunksCarryBuffer(w: Stream, from: nat, m: Msg)
    requires w.base <= from <= w.End() && m in Chunks(w, from)
    ensures m.Chunk? && m.key == w.key && m.stream == w.stream
    ensures w.base <= m.offset && m.offset + |m.data| <= w.End()
    ensures m.data == w.buf[m.offset - w.base..m.offset - w.base + |m.data|]
    decreases w.End() - from
  {
    var start := from - w.base;
    var end := if start + ChunkSize < |w.buf| then start + ChunkSize else |w.buf|;
    var first := Chunk(w.key, from, w.buf[start..end], w.stream);
    if m != first {
      ChunksCarryBuffer(w, w.base + end, m);
    }
  }

  /** Consecutive chunks reassemble the buffer: nothing is skipped, reordered or repeated. */
  lemma {:induction false} ChunksReassemble(w: Stream, from: nat)
    requires w.base <= from <= w.End()
    ensures Reassembled(Chunks(w, from), from) == Some(w.buf[from - w.base..])
    decreases w.End() - from
  {
    if from < w.End() {
      var start := from - w.base;
      var end := if start + ChunkSize < |w.buf| then start + ChunkSize else |w.buf|;
      ChunksReassemble(w, w.base + end);
      var ms := Chunks(w, from);
      assert ms[1..] == Chunks(w, w.base + end);
      assert w.buf[start..end] + w.buf[end..] == w.buf[start..];
    } else {
      assert w.buf[from - w.base..] == [];
    }
  }

  /** Appends chunks that arrive in order, each exactly at the next offset. */
  function Reassembled(ms: seq<Msg>, at: nat): Option<bytes> {
    if ms == [] then Some([])
    else if !ms[0].Chunk? || ms[0].offset != at then None
    else
      var rest := Reassembled(ms[1..], at + |ms[0].data|);
      if rest.None? then None else Some(ms[0].data + rest.value)
  }

  /** A stream kept waiting sends everything unacknowledged again, and its commit last. */
  lemma TimerResends(w: Stream)
    requires Paced(w) && !w.Finished() && (w.buf != [] || w.committing) && w.attempts + 1 < MaxAttempts
    ensures var ms := OnTimer(w).1;
      var n := if w.committing then |ms| - 1 else |ms|;
      && 0 <= n <= |ms| && Reassembled(ms[..n], w.base) == Some(w.buf)
      && (w.committing ==> ms[n] == Commit(w.key, w.length, w.checksum, w.stream))
    ensures OnTimer(w).0 == w.(attempts := w.attempts + 1)
  {
    var y := w.(attempts := w.attempts + 1, sent := w.base);
    ChunksReassemble(y, y.base);
    assert y.buf[0..] == y.buf;
    var ms := Chunks(y, y.base);
    assert (ms + CommitMsgs(y))[..|ms|] == ms;
  }

  /** The stream object. `outbox` is everything it has handed to the transport. */
  class WriteStream {
    var view: Stream
    var outbox: seq<Msg>

    constructor (key: ShardKey, stream: nat)
      ensures view == NewStream(key, stream) && outbox == [] && Paced(view)
    {
      view, outbox := NewStream(key, stream), [];
    }

    /** How much may be pushed: that many bytes keep the stream paced, and one more would not. */
    method Window() returns (n: nat)
      requires Paced(view)
      ensures view.Finished() ==> n == 0
      ensures !view.Finished() && !view.committing ==> forall p: bytes :: Paced(Write(view, p).0) <==> |p| <= n
    {
      n := if view.Finished() then 0 else WindowBytes - |view.buf|;
    }

    /** The transmit loop. */
    method DoPump()
      requires view.base <= view.sent <= view.End()
      modifies this
      ensures view == Pump(old(view)).0 && outbox == old(outbox) + Pump(old(view)).1
    {
      ghost var w := view;
      while view.sent < view.End()
        invariant view == w.(sent := view.sent) && w.base <= view.sent <= w.End()
        invariant outbox + Chunks(w, view.sent) == old(outbox) + Chunks(w, w.sent)
        decreases view.End() - view.sent
      {
        var start := view.sent - view.base;
        var end := if start + ChunkSize < |view.buf| then start + ChunkSize else |view.buf|;
        var m := Chunk(view.key, view.sent, view.buf[start..end], view.stream);
        assert Chunks(w, view.sent) == [m] + Chunks(w, view.base + end);
        outbox := outbox + [m];
        view := view.(sent := view.base + end);
      }
      assert outbox == old(outbox) + Chunks(old(view), old(view).sent);
      if view.committing && view.sent == view.length {
        outbox := outbox + [Commit(view.key, view.length, view.checksum, view.stream)];
      }
    }

    /** Queues p and transmits it. Writing after Commit or past the window is a caller bug. */
    method Push(p: bytes)
      requires Paced(view) && (!view.Finished() ==> !view.committing && |p| <= WindowBytes - |view.buf|)
      modifies this
      ensures Paced(view) && view == Write(old(view), p).0 && outbox == old(outbox) + Write(old(view), p).1
    {
      if !view.Finished() {
        view := view.(buf := view.buf + p);
        DoPump();
      }
    }

    /** Declares the shard complete. */
    method Declare(length: nat, checksum: bytes)
      requires Paced(view) && (!view.Finished() ==> !view.committing && length == view.End())
      modifies this
      ensures Paced(view)
      ensures view == CommitStream(old(view), length, checksum).0 &&
        outbox == old(outbox) + CommitStream(old(view), length, checksum).1
    {
      if !view.Finished() {
        view := view.(committing := true, length := length, checksum := checksum);
        DoPump();
      }
    }

    method Receive(m: Msg)
      requires Paced(view) && m.Ack?
      modifies this
      ensures Paced(view) && view == HandleAck(old(view), m).0 && outbox == old(outbox) + HandleAck(old(view), m).1
    {
      if view.Finished() || m.stream != view.stream {
        return;
      }
      if m.failed {
        view := Finish(view, Failed);
      } else if m.committed {
        view := Finish(view, Succeeded);
      } else if m.staged > view.End() {
        view := Finish(view, Failed);
      } else if m.staged > view.base {
        view := view.(buf := view.buf[m.staged - view.base..], base := m.staged, attempts := 0);
        DoPump();
      }
    }

    method Timer()
      requires Paced(view)
      modifies this
      ensures Paced(view) && view == OnTimer(old(view)).0 && outbox == old(outbox) + OnTimer(old(view)).1
    {
      if view.Finished() || (view.buf == [] && !view.committing) {
        return;
      }
      view := view.(attempts := view.attempts + 1);
      if view.attempts >= MaxAttempts {
        view := Finish(view, Failed);
        return;
      }
      view := view.(sent := view.base);
      DoPump();
    }
  }
}
