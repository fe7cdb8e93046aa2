// Properties of the connection engine that relate several operations or
// hold across calls: the invariant every entry point keeps, on_close firing
// at most once, the order in which sent bytes reach the socket, the phase
// order of on_read, and what each parsing phase delivers.

module Properties {
  import opened ByteBuffer
  import opened HeaderLine
  import opened Engine
  import opened PhaseSteps

  // ---------------------------------------------------------------------
  // The invariant between calls, and on_close at most once

  /** A closed connection: both watchers stopped, both buffers released and
      on_close cleared. */
  predicate ShutDown(c: Conn) {
    !c.readArmed && !c.writeArmed && c.rb == Empty && c.wb == Empty && !c.onClose
  }

  /** The trace only grows. */
  predicate Extends(c: Conn, c': Conn) {
    c.trace <= c'.trace
  }

  /** evhttp_connection_close outside a dispatch closes the connection,
      from any phase, invoking on_close only if it was still set; the
      result satisfies the invariant. */
  lemma {:induction false} CloseKeepsIdle(c: Conn, r: Reaction)
    requires Base(c) && c.closing == CloseOk
    ensures var c' := Close(c, r);
      && Idle(c') && ShutDown(c') && Extends(c, c')
      && ClosedCount(c'.trace) == ClosedCount(c.trace) + (if c.onClose then 1 else 0)
  {
    if c.onClose {
      ClosedCountAppend(c.trace, Closed);
    }
  }

  /** Closing twice, or closing from on_close, invokes on_close once: the
      second close finds it cleared and leaves the trace alone. */
  lemma CloseTwice(c: Conn, r1: Reaction, r2: Reaction)
    requires Idle(c)
    ensures var c1 := Close(c, r1);
      var c2 := Close(c1, r2);
      c2.trace == c1.trace && ClosedCount(c2.trace) <= 1 && ShutDown(c2)
  {
    CloseKeepsIdle(c, r1);
    CloseKeepsIdle(Close(c, r1), r2);
  }

  /** evhttp_connection_terminate keeps the invariant; it closes the
      connection exactly when the write buffer is already drained. */
  lemma TerminateKeepsIdle(c: Conn, r: Reaction)
    requires Idle(c)
    ensures var c' := Terminate(c, r);
      && Idle(c') && Extends(c, c') && c'.terminating
      && (c.wb.start == |c.wb.bytes| ==> ShutDown(c'))
      && (c.wb.start < |c.wb.bytes| ==> c' == c.(terminating := true))
  {
    if c.wb.start == |c.wb.bytes| {
      CloseKeepsIdle(c.(terminating := true), r);
    }
  }

  /** evhttp_connection_send keeps the invariant. */
  lemma SendKeepsIdle(c: Conn, data: seq<byte>, allocFails: bool)
    requires Idle(c)
    ensures Idle(Send(c, data, allocFails).0) && Extends(c, Send(c, data, allocFails).0)
  {
    MakeSpaceSpec(c.wb, |data|, allocFails);
  }

  /** on_write keeps the invariant. */
  lemma OnWriteKeepsIdle(c: Conn, sent: int, r: Reaction)
    requires Idle(c) && sent <= |c.wb.bytes| - c.wb.start
    ensures Idle(OnWrite(c, sent, r)) && Extends(c, OnWrite(c, sent, r))
  {
    if sent < 0 {
      CloseKeepsIdle(c, r);
    } else {
      var f := Flush(c, sent);
      assert OnWrite(c, sent, r) == AfterWrite(f, r);
      if f.wb.start == |f.wb.bytes| && f.terminating {
        CloseKeepsIdle(f, r);
      } else {
        assert Idle(f);
      }
    }
  }

  /** A callback invoked inside on_read keeps the parser's invariant, and
      records its event and nothing else in the trace. */
  lemma FireKeepsParsing(r: Run, e: Event)
    requires Parsing(r.c) && r.c.closing == CloseDelay && e != Closed
    ensures Parsing(Fire(r, e).c) && Fire(r, e).c.trace == r.c.trace + [e]
  {
  }

  /** The end of the stream keeps the invariant: on_complete for a body
      read to the end, then the connection closes, invoking on_close if it
      is still set. */
  lemma EndOfStreamKeepsIdle(c: Conn, reactions: seq<Reaction>)
    requires Parsing(c) && c.closing == CloseDelay
    ensures var c' := EndOfStream(c, reactions);
      && Idle(c') && c'.state == c.state && ShutDown(c')
      && c'.trace == c.trace + (if c.state == 4 && c.cbs.onComplete then [Complete] else [])
                             + (if c.onClose then [Closed] else [])
  {
    var r0 := Run(c, reactions);
    if c.state == 4 && c.cbs.onComplete {
      var r := Fire(r0, Complete);
      FireKeepsParsing(r0, Complete);
      var x := r.c.(closing := CloseOk);
      assert EndOfStream(c, reactions) == Close(x, NextReaction(r.pending));
      CloseKeepsIdle(x, NextReaction(r.pending));
    } else {
      var x := c.(closing := CloseOk);
      assert EndOfStream(c, reactions) == Close(x, NextReaction(reactions));
      CloseKeepsIdle(x, NextReaction(reactions));
    }
  }

  /** The end of on_read keeps the invariant. When a callback asked to
      close, parsing is abandoned and the connection closes, invoking
      on_close if it is still set; otherwise only the guard is lowered. */
  lemma FinishKeepsIdle(r: Run)
    requires Parsing(r.c) && (r.c.closing == CloseDelay || r.c.closing == CloseRequested)
    requires !Aborted(r) && r.c.readArmed ==> r.c.state <= 4
    ensures Idle(Finish(r)) && Finish(r).state == r.c.state
    ensures Aborted(r) ==> ShutDown(Finish(r)) && Finish(r).trace == r.c.trace + (if r.c.onClose then [Closed] else [])
    ensures !Aborted(r) ==> Finish(r) == r.c.(closing := CloseOk)
  {
    if Aborted(r) {
      CloseKeepsIdle(r.c.(closing := CloseOk), NextReaction(r.pending));
    }
  }

  /** on_read keeps the invariant: every exit leaves the guard at CLOSE_OK,
      on_close has still fired at most once, and the phase never moves
      back. */
  lemma OnReadKeepsIdle(c: Conn, allocFails: bool, got: seq<byte>, reactions: seq<Reaction>)
    requires Idle(c) && c.readArmed && |got| <= 4096
    ensures var c' := OnRead(c, allocFails, got, reactions);
      Idle(c') && c'.state >= c.state
  {
    var (w, rc) := MakeSpaceOn(c.rb, 4096, allocFails);
    OnReadCases(c, allocFails, got, reactions, w, rc);
    MakeSpaceSpec(c.rb, 4096, allocFails);
    if rc != 0 {
      CloseKeepsIdle(c, NextReaction(reactions));
    } else if got == [] {
      EndOfStreamKeepsIdle(c.(closing := CloseDelay, rb := w), reactions);
    } else {
      var c1 := c.(closing := CloseDelay, rb := w.(bytes := w.bytes + got));
      FinishKeepsIdle(Parse(Run(c1, reactions)));
    }
  }

  // ---------------------------------------------------------------------
  // The output side

  /** Everything handed to send so far, in order: what reached the socket,
      then what still waits in the write buffer. */
  function Outgoing(c: Conn): seq<byte>
    requires c.wb.Valid()
  {
    c.wire + c.wb.Unconsumed()
  }

  /** send appends the data to the outgoing stream and arms the write
      watcher; when the buffer cannot grow it returns -1 and changes
      nothing. */
  lemma SendAppends(c: Conn, data: seq<byte>, allocFails: bool)
    requires c.wb.Valid()
    ensures var (c', rc) := Send(c, data, allocFails);
      && (rc == 0 || rc == -1)
      && (rc == 0 ==> c'.wb.Valid() && Outgoing(c') == Outgoing(c) + data && c'.writeArmed
                      && c'.wire == c.wire && c'.wb.start == c.wb.start
                      && |c'.wb.bytes| == |c.wb.bytes| + |data|)
      && (rc == -1 ==> c' == c && allocFails)
  {
    MakeSpaceSpec(c.wb, |data|, allocFails);
  }

  /** on_write moves the first sent bytes of the write buffer to the socket
      in order, and the outgoing stream is unchanged, unless write failed,
      which closes the connection and drops what was waiting. */
  lemma OnWriteKeepsOrder(c: Conn, sent: int, r: Reaction)
    requires Idle(c) && sent <= |c.wb.bytes| - c.wb.start
    ensures var c' := OnWrite(c, sent, r);
      && (sent < 0 ==> ShutDown(c') && c'.wire == c.wire)
      && (sent >= 0 ==> c'.wire == c.wire + c.wb.bytes[c.wb.start..c.wb.start + sent]
                        && Outgoing(c') == Outgoing(c))
  {
    OnWriteKeepsIdle(c, sent, r);
    if sent < 0 {
      CloseKeepsIdle(c, r);
    } else {
      var f := Flush(c, sent);
      assert Outgoing(f) == Outgoing(c) by {
        assert c.wb.Unconsumed() == c.wb.bytes[c.wb.start..c.wb.start + sent] + f.wb.Unconsumed();
      }
    }
  }

  /** on_write when the write buffer drains: a terminating connection
      closes; otherwise the buffer is rewound to empty and the write watcher
      stops. A partial write leaves both as they were. */
  lemma OnWriteDrains(c: Conn, sent: int, r: Reaction)
    requires Idle(c) && 0 <= sent <= |c.wb.bytes| - c.wb.start
    ensures var c' := OnWrite(c, sent, r);
      && (c.wb.start + sent == |c.wb.bytes| && c.terminating ==> ShutDown(c'))
      && (c.wb.start + sent == |c.wb.bytes| && !c.terminating ==>
            c'.wb.bytes == [] && c'.wb.start == 0 && !c'.writeArmed && c'.readArmed == c.readArmed)
      && (c.wb.start + sent < |c.wb.bytes| ==>
            c'.wb.start == c.wb.start + sent && c'.wb.bytes == c.wb.bytes && c'.writeArmed == c.writeArmed)
  {
    if c.wb.start + sent == |c.wb.bytes| && c.terminating {
      CloseKeepsIdle(Flush(c, sent), r);
    }
  }

  /** terminate with bytes still waiting does not close; the on_write that
      sends the rest does. */
  lemma TerminateThenDrain(c: Conn, r1: Reaction, r2: Reaction)
    requires Idle(c) && c.wb.start < |c.wb.bytes|
    ensures var t := Terminate(c, r1);
      && t.readArmed == c.readArmed && t.wb == c.wb
      && ShutDown(OnWrite(t, |c.wb.bytes| - c.wb.start, r2))
      && OnWrite(t, |c.wb.bytes| - c.wb.start, r2).wire == Outgoing(c)
  {
    var t := Terminate(c, r1);
    TerminateKeepsIdle(c, r1);
    OnWriteDrains(t, |c.wb.bytes| - c.wb.start, r2);
    OnWriteKeepsOrder(t, |c.wb.bytes| - c.wb.start, r2);
  }

  // ---------------------------------------------------------------------
  // Whole histories: the trace only grows, and on_close fires at most once

  /** One parsing step of phases 0 to 3 only appends to the trace. */
  lemma StepExtends(r: Run)
    requires Parsing(r.c) && r.c.closing == CloseDelay && Fires(r.c)
    ensures r.c.trace <= Step(r).c.trace
  {
    var s, st := r.c.rb.bytes, r.c.rb.start;
    var idx := FindFrom(s, st, Delim(r.c.state));
    if r.c.state <= 1 {
      TokenDelivers(r, idx);
      assert Step(r) == TokenStep(r, idx);
    } else if r.c.state == 2 {
      FindFromLeast(s, st, LF);
      FirstLineDelivers(r, idx);
      assert Step(r) == FirstLineStep(r, idx);
    } else {
      FindFromLeast(s, st, LF);
      HeaderStepCases(r, idx);
      assert Step(r) == HeaderStep(r, idx);
      if StripCR(s[st..idx]) == [] {
        HeadersEndDelivers(r, idx);
      } else {
        var end := LineEnd(s, st, idx);
        HeaderLineDelivers(r, idx, end, ReadHeader(s, st, end));
      }
    }
  }

  /** Phases 0 to 3 only append to the trace. */
  lemma {:induction false} ScanExtends(r: Run)
    requires Parsing(r.c) && r.c.closing == CloseDelay
    ensures r.c.trace <= Scan(r).c.trace
    decreases |r.c.rb.bytes| - r.c.rb.start
  {
    if Fires(r.c) {
      var r1 := Step(r);
      StepExtends(r);
      if !Aborted(r1) {
        ScanExtends(r1);
      }
    }
  }

  /** Phase 4 only appends to the trace. */
  lemma BodyExtends(r: Run)
    requires Parsing(r.c) && r.c.closing == CloseDelay
    ensures r.c.trace <= BodyStep(r).c.trace
  {
    if r.c.state == 4 && r.c.contentLength >= -1 {
      if r.c.cbs.onCompleteContent {
        WholeContentDelivers(r);
        assert BodyStep(r) == WholeContentStep(r);
      } else {
        ChunkDelivers(r);
        assert BodyStep(r) == ChunkStep(r);
      }
    }
  }

  /** Parsing what is buffered only appends to the trace. */
  lemma ParseExtends(r: Run)
    requires Parsing(r.c) && r.c.closing == CloseDelay
    ensures r.c.trace <= Parse(r).c.trace
  {
    ScanExtends(r);
    var r1 := Scan(r);
    if Aborted(r1) {
      assert Parse(r) == r1;
    } else {
      BodyExtends(r1);
      var r2 := BodyStep(r1);
      if Aborted(r2) {
        assert Parse(r) == r2;
      } else {
        assert Parse(r) == DoneStep(r2);
        if r2.c.state == 5 {
          DoneDelivers(r2);
        }
      }
    }
  }

  /** The end of the stream only appends to the trace. */
  lemma EndOfStreamExtends(c: Conn, reactions: seq<Reaction>)
    requires Parsing(c) && c.closing == CloseDelay
    ensures Extends(c, EndOfStream(c, reactions))
  {
    var r0 := Run(c, reactions);
    if c.state == 4 && c.cbs.onComplete {
      var r := Fire(r0, Complete);
      assert EndOfStream(c, reactions) == Close(r.c.(closing := CloseOk), NextReaction(r.pending));
    } else {
      assert EndOfStream(c, reactions) == Close(c.(closing := CloseOk), NextReaction(reactions));
    }
  }

  /** on_read only appends to the trace. */
  lemma OnReadExtends(c: Conn, allocFails: bool, got: seq<byte>, reactions: seq<Reaction>)
    requires Idle(c) && c.readArmed && |got| <= 4096
    ensures Extends(c, OnRead(c, allocFails, got, reactions))
  {
    var (w, rc) := MakeSpaceOn(c.rb, 4096, allocFails);
    OnReadCases(c, allocFails, got, reactions, w, rc);
    if rc == 0 && got == [] {
      MakeSpaceSpec(c.rb, 4096, allocFails);
      EndOfStreamExtends(c.(closing := CloseDelay, rb := w), reactions);
    } else if rc == 0 {
      var c1 := c.(closing := CloseDelay, rb := w.(bytes := w.bytes + got));
      ParseExtends(Run(c1, reactions));
    }
  }

  /** What the event loop and the program can do to a connection between
      dispatches: send, terminate, close, or a read or write event on an
      armed watcher. Each carries what the outside world decides. */
  datatype Op =
    | SendOp(data: seq<byte>, allocFails: bool)
    | TerminateOp(r: Reaction)
    | CloseOp(r: Reaction)
    | ReadOp(allocFails: bool, got: seq<byte>, reactions: seq<Reaction>)
    | WriteOp(sent: int, r: Reaction)

  /** One operation; a read or write event on a stopped watcher, or a
      write or read result out of range, does not happen. Every operation
      keeps the invariant and only appends to the trace. */
  function Apply(c: Conn, op: Op): (c': Conn)
    requires Idle(c)
    ensures Idle(c') && Extends(c, c')
  {
    match op
    case SendOp(data, allocFails) =>
      SendKeepsIdle(c, data, allocFails);
      Send(c, data, allocFails).0
    case TerminateOp(r) =>
      TerminateKeepsIdle(c, r);
      Terminate(c, r)
    case CloseOp(r) =>
      CloseKeepsIdle(c, r);
      Close(c, r)
    case ReadOp(allocFails, got, reactions) =>
      if c.readArmed && |got| <= 4096 then
        OnReadKeepsIdle(c, allocFails, got, reactions);
        OnReadExtends(c, allocFails, got, reactions);
        OnRead(c, allocFails, got, reactions)
      else c
    case WriteOp(sent, r) =>
      if c.writeArmed && sent <= |c.wb.bytes| - c.wb.start then
        OnWriteKeepsIdle(c, sent, r);
        OnWrite(c, sent, r)
      else c
  }

  /** A whole history of operations. */
  function History(c: Conn, ops: seq<Op>): (c': Conn)
    requires Idle(c)
    decreases |ops|
  {
    if ops == [] then c else History(Apply(c, ops[0]), ops[1..])
  }

  /** Over any history the trace only grows and the invariant holds, so
      on_close is invoked at most once in the life of a connection: every
      earlier trace is a prefix of the last one, which records at most one
      Closed. */
  lemma {:induction false} HistoryExtends(c: Conn, ops: seq<Op>)
    requires Idle(c)
    ensures var c' := History(c, ops);
      Idle(c') && c.trace <= c'.trace && ClosedCount(c'.trace) <= 1
    decreases |ops|
  {
    if ops != [] {
      HistoryExtends(Apply(c, ops[0]), ops[1..]);
    }
  }

  /** Once closed, a connection reports nothing more: with on_close cleared
      and the read watcher stopped, no callback is ever invoked again,
      whatever is sent, terminated, closed or written. */
  lemma {:induction false} SilentAfterClose(c: Conn, ops: seq<Op>)
    requires Idle(c) && !c.readArmed && !c.onClose
    ensures History(c, ops).trace == c.trace
    decreases |ops|
  {
    if ops != [] {
      var c1 := Apply(c, ops[0]);
      assert c1.trace == c.trace && !c1.readArmed && !c1.onClose by {
        match ops[0]
        case SendOp(data, allocFails) =>
          MakeSpaceSpec(c.wb, |data|, allocFails);
        case TerminateOp(r) =>
        case CloseOp(r) =>
        case ReadOp(_, _, _) =>
        case WriteOp(sent, r) =>
          if c.writeArmed && sent <= |c.wb.bytes| - c.wb.start && sent >= 0 {
            assert OnWrite(c, sent, r) == AfterWrite(Flush(c, sent), r);
          }
      }
      SilentAfterClose(c1, ops[1..]);
    }
  }

  /** evhttp_connection_close, then any history: on_close, if it was
      still set, is the last callback ever invoked. */
  lemma CloseIsFinal(c: Conn, r: Reaction, ops: seq<Op>)
    requires Idle(c)
    ensures var c1 := Apply(c, CloseOp(r));
      History(c1, ops).trace == c1.trace
  {
    CloseKeepsIdle(c, r);
    SilentAfterClose(Apply(c, CloseOp(r)), ops);
  }
}
