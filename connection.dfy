// The connection object of evhttpconn.c: its fields are updated in place by
// close, send, terminate, on_write and on_read. Every method is proved to
// move the object's abstract state as the value-level engine says.

module Connection {
  import opened ByteBuffer
  import opened HeaderLine
  import opened Engine

  class Connection {
    const readBuffer: Buffer
    const writeBuffer: Buffer
    var state: int
    var contentLength: int
    const tmp: array<int>
    var terminating: bool
    var closing: CloseMode
    var readArmed: bool
    var writeArmed: bool
    var onClose: bool
    const cbs: Callbacks
    /** The callbacks invoked so far and the bytes written to the socket. */
    ghost var trace: seq<Event>
    ghost var wire: seq<byte>

    ghost predicate Valid()
      reads readBuffer, writeBuffer, readBuffer.data, writeBuffer.data
    {
      && readBuffer != writeBuffer && readBuffer.data != writeBuffer.data
      && readBuffer.Valid() && writeBuffer.Valid() && tmp.Length == 4
    }

    /** The connection as the engine sees it. */
    ghost function Model(): Conn
      reads this, readBuffer, writeBuffer, tmp
      requires readBuffer.Shape() && writeBuffer.Shape() && tmp.Length == 4
    {
      Conn(readBuffer.ToView(), writeBuffer.ToView(), state, contentLength, [tmp[0], tmp[1], tmp[2], tmp[3]],
           terminating, closing, readArmed, writeArmed, onClose, cbs, trace, wire)
    }

    /** evhttp_connection_init: empty buffers, phase 0, body length not yet
        known, the read watcher started. */
    constructor Init(callbacks: Callbacks, withOnClose: bool)
      ensures Valid() && Model() == Engine.Init(callbacks, withOnClose)
      ensures fresh(readBuffer) && fresh(writeBuffer) && fresh(tmp)
      ensures fresh(readBuffer.data) && fresh(writeBuffer.data)
    {
      readBuffer := new Buffer.Init();
      writeBuffer := new Buffer.Init();
      tmp := new int[4](_ => 0);
      state, contentLength := 0, -2;
      terminating, closing := false, CloseOk;
      readArmed, writeArmed := true, false;
      onClose := withOnClose;
      cbs := callbacks;
      trace, wire := [], [];
      new;
      assert [tmp[0], tmp[1], tmp[2], tmp[3]] == [0, 0, 0, 0];
    }

    /** evhttp_connection_close; r is what on_close does. */
    method Close(r: Reaction)
      requires Valid()
      modifies this, readBuffer, writeBuffer
      ensures Valid() && Model() == Engine.Close(old(Model()), r)
      ensures old(closing) != CloseOk ==>
        readBuffer.data == old(readBuffer.data) && writeBuffer.data == old(writeBuffer.data)
      ensures readBuffer.data == old(readBuffer.data) || fresh(readBuffer.data)
      ensures writeBuffer.data == old(writeBuffer.data) || fresh(writeBuffer.data)
      decreases if onClose then 3 else 0
    {
      if closing != CloseOk {
        closing := CloseRequested;
        return;
      }
      Shutdown();
      if onClose {
        NotifyClose(r);
      }
    }

    /** The part of close that stops both watchers and releases both buffers. */
    method Shutdown()
      requires Valid()
      modifies this, readBuffer, writeBuffer
      ensures Valid() && fresh(readBuffer.data) && fresh(writeBuffer.data)
      ensures Model() == old(Model()).(readArmed := false, writeArmed := false, rb := Empty, wb := Empty)
    {
      readArmed, writeArmed := false, false;
      readBuffer.Free();
      writeBuffer.Free();
    }

    /** The part of close that clears on_close and then invokes it; r is what
        on_close does. A close from on_close finds nothing left to release. */
    method NotifyClose(r: Reaction)
      requires Valid() && onClose && closing == CloseOk && !readArmed && !writeArmed
      requires readBuffer.ToView() == Empty && writeBuffer.ToView() == Empty
      modifies this, readBuffer, writeBuffer
      ensures Valid() && Model() == Engine.Close(old(Model()), r)
      ensures readBuffer.data == old(readBuffer.data) || fresh(readBuffer.data)
      ensures writeBuffer.data == old(writeBuffer.data) || fresh(writeBuffer.data)
      decreases 2
    {
      onClose := false;
      trace := trace + [Closed];
      match r
      case Proceed =>
      case CallClose => Close(Proceed);
      case CallTerminate => Terminate(Proceed);
    }

    /** evhttp_connection_terminate */
    method Terminate(r: Reaction)
      requires Valid()
      modifies this, readBuffer, writeBuffer
      ensures Valid() && Model() == Engine.Terminate(old(Model()), r)
      ensures old(closing) != CloseOk ==>
        readBuffer.data == old(readBuffer.data) && writeBuffer.data == old(writeBuffer.data)
      ensures readBuffer.data == old(readBuffer.data) || fresh(readBuffer.data)
      ensures writeBuffer.data == old(writeBuffer.data) || fresh(writeBuffer.data)
      decreases if onClose then 4 else 1
    {
      terminating := true;
      if writeBuffer.start == writeBuffer.size {
        Close(r);
      }
    }

    /** evhttp_connection_send */
    method Send(data: seq<byte>, allocFails: bool) returns (rc: int)
      requires Valid()
      modifies this, writeBuffer, writeBuffer.data
      ensures Valid() && (Model(), rc) == Engine.Send(old(Model()), data, allocFails)
      ensures writeBuffer.data == old(writeBuffer.data) || fresh(writeBuffer.data)
    {
      rc := writeBuffer.MakeSpace(|data|, allocFails);
      if rc != 0 {
        return -1;
      }
      MakeSpaceSpec(old(writeBuffer.ToView()), |data|, allocFails);
      writeBuffer.Append(data);
      writeArmed := true;
    }

    /** on_write: write returned sent bytes (negative on error); r is what
        on_close does if the connection closes. */
    method OnWrite(sent: int, r: Reaction)
      requires Valid() && closing == CloseOk
      requires sent <= writeBuffer.size - writeBuffer.start
      modifies this, readBuffer, writeBuffer
      ensures Valid() && Model() == Engine.OnWrite(old(Model()), sent, r)
    {
      if sent < 0 {
        Close(r);
        return;
      }
      Consume(sent);
      Drain(r);
    }

    /** The sent bytes leave the write buffer for the socket. */
    method Consume(sent: int)
      requires Valid() && 0 <= sent <= writeBuffer.size - writeBuffer.start
      modifies this, writeBuffer
      ensures Valid() && Model() == Flush(old(Model()), sent)
    {
      wire := wire + writeBuffer.data[writeBuffer.start..writeBuffer.start + sent];
      writeBuffer.start := writeBuffer.start + sent;
    }

    /** The end of on_write once the bytes are accounted for. */
    method Drain(r: Reaction)
      requires Valid() && closing == CloseOk
      modifies this, readBuffer, writeBuffer
      ensures Valid() && Model() == AfterWrite(old(Model()), r)
    {
      if terminating && writeBuffer.start == writeBuffer.size {
        Close(r);
        return;
      }
      if writeBuffer.start == writeBuffer.size {
        writeBuffer.Reset();
        writeArmed := false;
      }
    }

    // -------------------------------------------------------------------
    // on_read

    /** A callback invoked while on_read dispatches: the event is recorded,
        then the callback does what the next reaction says, and its close or
        terminate meets the guard. */
    method Invoke(ghost e: Event, pending: seq<Reaction>) returns (rest: seq<Reaction>)
      requires Valid() && closing == CloseDelay
      modifies this, readBuffer, writeBuffer
      ensures Valid() && Run(Model(), rest) == Fire(Run(old(Model()), pending), e)
      ensures readBuffer.data == old(readBuffer.data) && writeBuffer.data == old(writeBuffer.data)
    {
      trace := trace + [e];
      rest := Later(pending);
      match NextReaction(pending)
      case Proceed =>
      case CallClose => Close(Proceed);
      case CallTerminate => Terminate(Proceed);
    }

    /** Phase 0: the first token ends at a space. */
    method FirstToken(ghost pending: seq<Reaction>)
      requires Valid() && Parsing(Model()) && closing == CloseDelay
      modifies this, readBuffer, tmp
      ensures Valid() && Run(Model(), pending) == Block(Run(old(Model()), pending), 0)
      ensures readBuffer.data == old(readBuffer.data)
    {
      if state == 0 {
        var idx := readBuffer.FindChr(Space);
        if idx >= 0 {
          TakeFirstToken(idx);
        }
      }
    }

    /** The first token [start, idx) goes to tmp[0..1] and the cursor moves
        past the space; from here on an absent Content-Length means "read to
        the end". */
    method TakeFirstToken(idx: int)
      requires Valid() && readBuffer.start <= idx < readBuffer.size
      modifies this, readBuffer, tmp
      ensures Valid() && Model() == Engine.TakeFirstToken(old(Model()), idx)
      ensures readBuffer.data == old(readBuffer.data)
    {
      tmp[0], tmp[1] := readBuffer.start, idx - readBuffer.start;
      readBuffer.start := idx + 1;
      state := 1;
      contentLength := -1;
    }

    /** Phase 1: the second token ends at a space. */
    method SecondToken(ghost pending: seq<Reaction>)
      requires Valid() && Parsing(Model()) && closing == CloseDelay
      modifies this, readBuffer, tmp
      ensures Valid() && Run(Model(), pending) == Block(Run(old(Model()), pending), 1)
      ensures readBuffer.data == old(readBuffer.data)
    {
      if state == 1 {
        var idx := readBuffer.FindChr(Space);
        if idx >= 0 {
          TakeSecondToken(idx);
        }
      }
    }

    /** The second token [start, idx) goes to tmp[2..3]. */
    method TakeSecondToken(idx: int)
      requires Valid() && readBuffer.start <= idx < readBuffer.size
      modifies this, readBuffer, tmp
      ensures Valid() && Model() == Engine.TakeSecondToken(old(Model()), idx)
      ensures readBuffer.data == old(readBuffer.data)
    {
      tmp[2], tmp[3] := readBuffer.start, idx - readBuffer.start;
      readBuffer.start := idx + 1;
      state := 2;
    }

    /** Phase 2: the rest of the first line ends at a newline. */
    method FirstLinePhase(pending: seq<Reaction>) returns (rest: seq<Reaction>)
      requires Valid() && Parsing(Model()) && closing == CloseDelay
      modifies this, readBuffer, writeBuffer, tmp
      ensures Valid() && Run(Model(), rest) == Block(Run(old(Model()), pending), 2)
      ensures readBuffer.data == old(readBuffer.data)
    {
      rest := pending;
      if state == 2 {
        var idx := readBuffer.FindChr(LF);
        if idx >= 0 {
          rest := FirstLineAt(idx, pending);
        }
      }
    }

    /** Phase 2 with the newline at nl: on_first_line receives the two tokens
        and the rest of the line without its carriage return. */
    method FirstLineAt(nl: int, pending: seq<Reaction>) returns (rest: seq<Reaction>)
      requires Valid() && Parsing(Model()) && state == 2 && closing == CloseDelay
      requires readBuffer.start <= nl < readBuffer.size
      modifies this, readBuffer, writeBuffer, tmp
      ensures Valid() && Run(Model(), rest) == FirstLineStep(Run(old(Model()), pending), nl)
      ensures readBuffer.data == old(readBuffer.data)
    {
      rest := pending;
      if cbs.onFirstLine {
        rest := ReportFirstLine(nl, pending);
        if closing == CloseRequested {
          return;
        }
      }
      EnterHeaders(nl);
    }

    /** The on_first_line call of phase 2. */
    method ReportFirstLine(nl: int, pending: seq<Reaction>) returns (rest: seq<Reaction>)
      requires Valid() && Parsing(Model()) && state == 2 && closing == CloseDelay
      requires readBuffer.start <= nl < readBuffer.size
      modifies this, readBuffer, writeBuffer
      ensures Valid() && Run(Model(), rest) == Fire(Run(old(Model()), pending), FirstLineEvent(old(Model()), nl))
      ensures readBuffer.data == old(readBuffer.data)
    {
      var end := nl;
      if end > readBuffer.start && readBuffer.data[end - 1] == CR {
        end := end - 1;
      }
      assert end == LineEnd(readBuffer.bytes, readBuffer.start, nl);
      ghost var e := FirstLineEvent(Model(), nl);
      assert e.third == readBuffer.bytes[readBuffer.start..end];
      rest := Invoke(e, pending);
    }

    /** Move past the first line; tmp[0] becomes the delivered-bytes counter. */
    method EnterHeaders(nl: int)
      requires Valid() && readBuffer.start <= nl < readBuffer.size
      modifies this, readBuffer, tmp
      ensures Valid() && Model() == Engine.EnterHeaders(old(Model()), nl)
      ensures readBuffer.data == old(readBuffer.data)
    {
      readBuffer.start := nl + 1;
      tmp[0] := 0;
      state := 3;
    }

    /** Phase 3, a header line [start, end) with its newline at nl: scan it,
        report it to on_header, move past it. */
    method HeaderLinePhase(nl: int, end: int, pending: seq<Reaction>) returns (rest: seq<Reaction>)
      requires Valid() && Parsing(Model()) && state == 3 && closing == CloseDelay
      requires readBuffer.start <= end <= nl < readBuffer.size
      modifies this, readBuffer, writeBuffer, readBuffer.data
      ensures Valid() && Run(Model(), rest) == HeaderLineStep(Run(old(Model()), pending), nl, end)
      ensures readBuffer.data == old(readBuffer.data)
    {
      ghost var c := Model();
      var key, value, valueLength := TakeHeader(end);
      assert Model() == Engine.TakeHeader(c, end);
      rest := pending;
      if cbs.onHeader {
        rest := Invoke(Header(key, value, valueLength), pending);
        if closing == CloseRequested {
          return;
        }
      }
      SkipLine(nl);
    }

    /** Move the read cursor past the newline at nl. */
    method SkipLine(nl: int)
      requires Valid() && readBuffer.start <= nl < readBuffer.size
      modifies readBuffer
      ensures Valid() && Model() == Engine.SkipLine(old(Model()), nl)
      ensures readBuffer.data == old(readBuffer.data)
    {
      readBuffer.start := nl + 1;
    }

    /** The scans of header line [start, end), then the Content-Length
        rule on the key and value found. */
    method TakeHeader(end: int) returns (key: seq<byte>, value: seq<byte>, valueLength: int)
      requires Valid() && readBuffer.start <= end <= readBuffer.size
      modifies this`contentLength, readBuffer, readBuffer.data
      ensures Valid() && readBuffer.data == old(readBuffer.data)
      ensures var h := ReadHeader(old(readBuffer.bytes), old(readBuffer.start), end);
        && readBuffer.ToView() == old(readBuffer.ToView()).(bytes := h.bytes)
        && contentLength == NextContentLength(old(contentLength), h.key, h.value)
        && key == h.key && value == h.value && valueLength == h.valueLength
    {
      var sp := ScanHeader(readBuffer, readBuffer.start, end);
      key := readBuffer.Slice(sp.keyStart, sp.keyEnd);
      value := [];
      if sp.valueStart <= sp.valueEnd {
        value := readBuffer.Slice(sp.valueStart, sp.valueEnd);
      }
      valueLength := sp.valueEnd - sp.valueStart;
      SetContentLength(key, value);
    }

    /** The Content-Length rule: while no length is known, a content-length
        header whose value parses to zero or more sets it. */
    method SetContentLength(key: seq<byte>, value: seq<byte>)
      modifies this`contentLength
      ensures contentLength == NextContentLength(old(contentLength), key, value)
    {
      if contentLength < 0 && key == ContentLength {
        var l := ParseLong(value);
        if l >= 0 {
          contentLength := l;
        }
      }
    }

    /** Phase 3, the empty line at nl: the headers are over, and
        on_headers_end receives everything buffered up to the newline. */
    method HeadersEndPhase(nl: int, pending: seq<Reaction>) returns (rest: seq<Reaction>)
      requires Valid() && Parsing(Model()) && state == 3 && closing == CloseDelay
      requires readBuffer.start <= nl < readBuffer.size
      modifies this, readBuffer, writeBuffer
      ensures Valid() && Run(Model(), rest) == HeadersEndStep(Run(old(Model()), pending), nl)
      ensures readBuffer.data == old(readBuffer.data)
    {
      var message := readBuffer.Slice(0, nl + 1);
      EndHeaders(nl);
      rest := pending;
      if cbs.onHeadersEnd {
        rest := Invoke(HeadersEnd(message), pending);
      }
    }

    /** Move past the empty line and enter the body phase. */
    method EndHeaders(nl: int)
      requires Valid() && readBuffer.start <= nl < readBuffer.size
      modifies this, readBuffer
      ensures Valid() && Model() == Engine.SkipLine(old(Model()), nl).(state := 4)
      ensures readBuffer.data == old(readBuffer.data)
    {
      readBuffer.start := nl + 1;
      state := 4;
    }

    /** Phase 3: one header line per buffered newline, until the empty line
        or a close request. */
    method HeaderPhase(pending: seq<Reaction>) returns (rest: seq<Reaction>)
      requires Valid() && Parsing(Model()) && closing == CloseDelay
      modifies this, readBuffer, writeBuffer, readBuffer.data
      ensures Valid() && Run(Model(), rest) == HeaderLoop(Run(old(Model()), pending))
      ensures readBuffer.data == old(readBuffer.data)
    {
      rest := pending;
      if state != 3 {
        return;
      }
      ghost var r := Run(Model(), rest);
      ghost var target := HeaderLoop(r);
      var newline := readBuffer.FindChr(LF);
      while newline >= 0
        invariant Valid() && readBuffer.data == old(readBuffer.data)
        invariant r == Run(Model(), rest)
        invariant newline >= 0 ==> Parsing(r.c) && r.c.closing == CloseDelay && r.c.state == 3
        invariant newline >= 0 ==> newline == FindFrom(r.c.rb.bytes, r.c.rb.start, LF)
        invariant target == if newline < 0 then r else HeaderLoop(r)
        decreases if newline < 0 then 0 else |r.c.rb.bytes| - r.c.rb.start + 1
      {
        ghost var r0 := r;
        var next;
        rest, next, r := HeaderRound(r, newline, rest);
        HeaderLoopRound(r0, newline, r, next);
        newline := next;
      }
    }

    /** One round of the phase-3 loop from the run r: the line ending at the
        newline, then the next newline, or -1 when the headers ended or a
        close was requested. */
    method HeaderRound(ghost r: Run, newline: int, pending: seq<Reaction>)
      returns (rest: seq<Reaction>, next: int, ghost r': Run)
      requires Valid() && r == Run(Model(), pending)
      requires Parsing(r.c) && r.c.closing == CloseDelay && r.c.state == 3
      requires 0 <= newline && r.c.rb.start <= newline < |r.c.rb.bytes|
      modifies this, readBuffer, writeBuffer, readBuffer.data
      ensures Valid() && readBuffer.data == old(readBuffer.data) && r' == Run(Model(), rest)
      ensures r' == HeaderStep(r, newline)
      ensures next == RoundEnd(r')
    {
      rest := HeaderLineAt(newline, pending);
      r' := Run(Model(), rest);
      if state != 3 || closing == CloseRequested {
        return rest, -1, r';
      }
      next := NextNewline(r'.c.rb);
    }

    /** The first newline at or after the read cursor, as seen in v. */
    method NextNewline(ghost v: View) returns (nl: int)
      requires readBuffer.Valid() && v == readBuffer.ToView()
      ensures nl == FindFrom(v.bytes, v.start, LF)
    {
      nl := readBuffer.FindChr(LF);
    }

    /** Phase 3 with the newline at nl: the empty line ends the headers, any
        other line is a header. */
    method HeaderLineAt(nl: int, pending: seq<Reaction>) returns (rest: seq<Reaction>)
      requires Valid() && Parsing(Model()) && state == 3 && closing == CloseDelay
      requires readBuffer.start <= nl < readBuffer.size
      modifies this, readBuffer, writeBuffer, readBuffer.data
      ensures Valid() && Run(Model(), rest) == HeaderStep(Run(old(Model()), pending), nl)
      ensures readBuffer.data == old(readBuffer.data)
    {
      var end := nl;
      if end > readBuffer.start && readBuffer.data[end - 1] == CR {
        end := end - 1;
      }
      assert end == LineEnd(readBuffer.bytes, readBuffer.start, nl);
      if end == readBuffer.start {
        rest := HeadersEndPhase(nl, pending);
      } else {
        rest := HeaderLinePhase(nl, end, pending);
      }
    }

    /** Phase 4: the body, in whole-content or chunk mode. */
    method BodyPhase(pending: seq<Reaction>) returns (rest: seq<Reaction>)
      requires Valid() && Parsing(Model()) && closing == CloseDelay
      modifies this, readBuffer, writeBuffer, tmp
      ensures Valid() && Run(Model(), rest) == BodyStep(Run(old(Model()), pending))
      ensures readBuffer.data == old(readBuffer.data)
    {
      rest := pending;
      if state != 4 {
        return;
      }
      if contentLength < -1 {
        // the source skips the body here; Parsing rules this out past phase 0
        assert false;
      } else if cbs.onCompleteContent {
        rest := WholeContent(pending);
      } else {
        rest := ChunkContent(pending);
      }
    }

    /** Phase 4 with on_complete_content: once the explicit length is
        buffered, exactly that many bytes are delivered. */
    method WholeContent(pending: seq<Reaction>) returns (rest: seq<Reaction>)
      requires Valid() && Parsing(Model()) && closing == CloseDelay && state == 4 && contentLength >= -1
      modifies this, readBuffer, writeBuffer
      ensures Valid() && Run(Model(), rest) == WholeContentStep(Run(old(Model()), pending))
      ensures readBuffer.data == old(readBuffer.data)
    {
      rest := pending;
      var len := readBuffer.size - readBuffer.start;
      if 0 <= contentLength <= len {
        var content := readBuffer.Slice(readBuffer.start, readBuffer.start + contentLength);
        SetState(5);
        rest := Invoke(CompleteContent(content), pending);
      }
    }

    /** Phase 4 without on_complete_content: every unconsumed byte goes to
        on_chunk and is counted. */
    method ChunkContent(pending: seq<Reaction>) returns (rest: seq<Reaction>)
      requires Valid() && Parsing(Model()) && closing == CloseDelay && state == 4 && contentLength >= -1
      modifies this, readBuffer, writeBuffer, tmp
      ensures Valid() && Run(Model(), rest) == ChunkStep(Run(old(Model()), pending))
      ensures readBuffer.data == old(readBuffer.data)
    {
      var len := readBuffer.size - readBuffer.start;
      rest := pending;
      if cbs.onChunk {
        var content := readBuffer.Slice(readBuffer.start, readBuffer.size);
        assert content == readBuffer.bytes[readBuffer.start..];
        rest := Invoke(Chunk(content), pending);
        if closing == CloseRequested {
          return;
        }
      }
      AddChunk(len);
    }

    /** Count len delivered bytes in tmp[0]; finish at the explicit length,
        otherwise empty the read buffer. */
    method AddChunk(len: int)
      requires Valid()
      modifies this, readBuffer, tmp
      ensures Valid() && Model() == Engine.AddChunk(old(Model()), len)
      ensures readBuffer.data == old(readBuffer.data)
    {
      tmp[0] := tmp[0] + len;
      if 0 <= contentLength <= tmp[0] {
        state := 5;
      } else {
        readBuffer.Reset();
      }
    }

    /** Phase 5: the terminal phase, on_complete, and the read watcher stops
        (keep-alive is not supported). */
    method DonePhase(pending: seq<Reaction>) returns (rest: seq<Reaction>)
      requires Valid() && closing == CloseDelay
      modifies this, readBuffer, writeBuffer
      ensures Valid() && Run(Model(), rest) == DoneStep(Run(old(Model()), pending))
      ensures readBuffer.data == old(readBuffer.data)
    {
      rest := pending;
      if state != 5 {
        return;
      }
      SetState(6);
      if cbs.onComplete {
        rest := Invoke(Complete, pending);
        if closing == CloseRequested {
          return;
        }
      }
      StopReading();
    }

    /** ev_io_stop on the read watcher. */
    method StopReading()
      requires Valid()
      modifies this
      ensures Valid() && Model() == old(Model()).(readArmed := false)
    {
      readArmed := false;
    }

    /** Enter parse phase k. */
    method SetState(k: int)
      requires Valid()
      modifies this
      ensures Valid() && Model() == old(Model()).(state := k)
    {
      state := k;
    }

    /** Phases 0 to 5 on the buffered bytes, stopping at a close request. */
    method ParseBuffered(pending: seq<Reaction>) returns (rest: seq<Reaction>)
      requires Valid() && Parsing(Model()) && closing == CloseDelay
      modifies this, readBuffer, writeBuffer, readBuffer.data, tmp
      ensures Valid() && Run(Model(), rest) == Parse(Run(old(Model()), pending))
      ensures readBuffer.data == old(readBuffer.data)
    {
      rest := ScanPhases(pending);
      if closing == CloseRequested {
        return;
      }
      rest := BodyPhase(rest);
      if closing == CloseRequested {
        return;
      }
      rest := DonePhase(rest);
    }

    /** Phases 0 to 3: the three straight-line blocks, then the header loop
        unless a callback asked to close. */
    method ScanPhases(pending: seq<Reaction>) returns (rest: seq<Reaction>)
      requires Valid() && Parsing(Model()) && closing == CloseDelay
      modifies this, readBuffer, writeBuffer, readBuffer.data, tmp
      ensures Valid() && Run(Model(), rest) == Scan(Run(old(Model()), pending))
      ensures readBuffer.data == old(readBuffer.data)
    {
      ghost var r := Run(Model(), pending);
      rest := FirstLinePhases(pending);
      ghost var r2 := Run(Model(), rest);
      if closing != CloseRequested {
        rest := HeaderPhase(rest);
      }
      ScanByPhases(r, r2, Run(Model(), rest));
    }

    /** The blocks for phases 0, 1 and 2. */
    method FirstLinePhases(pending: seq<Reaction>) returns (rest: seq<Reaction>)
      requires Valid() && Parsing(Model()) && closing == CloseDelay
      modifies this, readBuffer, writeBuffer, tmp
      ensures Valid() && Run(Model(), rest) == Block(Block(Block(Run(old(Model()), pending), 0), 1), 2)
      ensures readBuffer.data == old(readBuffer.data)
    {
      FirstToken(pending);
      SecondToken(pending);
      rest := FirstLinePhase(pending);
    }

    /** on_read: allocFails says whether growing the read buffer fails, got
        is what read returned (empty for the end of the stream or an error)
        and reactions are what the callbacks it invokes do, on_close
        included. */
    method OnRead(allocFails: bool, got: seq<byte>, reactions: seq<Reaction>)
      requires Valid() && Idle(Model()) && readArmed && |got| <= 4096
      modifies this, readBuffer, writeBuffer, readBuffer.data, tmp
      ensures Valid() && Model() == Engine.OnRead(old(Model()), allocFails, got, reactions)
    {
      ghost var c := Model();
      SetClosing(CloseDelay);
      var rc := Grow(allocFails);
      if rc != 0 {
        ghost var w := readBuffer.ToView();
        ReadFailed(reactions);
        OnReadCases(c, allocFails, got, reactions, w, rc);
      } else {
        Serve(c, allocFails, got, reactions);
      }
    }

    /** on_read once the read buffer has room: the end of the stream, or
        bytes to parse. c is the connection as on_read found it. */
    method Serve(ghost c: Conn, allocFails: bool, got: seq<byte>, reactions: seq<Reaction>)
      requires Valid() && Idle(c) && c.readArmed && |got| <= 4096
      requires (readBuffer.ToView(), 0) == MakeSpaceOn(c.rb, 4096, allocFails)
      requires Model() == c.(closing := CloseDelay, rb := readBuffer.ToView())
      modifies this, readBuffer, writeBuffer, readBuffer.data, tmp
      ensures Valid() && Model() == Engine.OnRead(c, allocFails, got, reactions)
    {
      ghost var w := readBuffer.ToView();
      if got == [] {
        EndOfStream(reactions);
      } else {
        MakeSpaceSpec(c.rb, 4096, allocFails);
        assert Parsing(Model());
        Received(got, reactions);
      }
      OnReadCases(c, allocFails, got, reactions, w, 0);
    }

    /** Make room for one read of up to 4096 bytes. */
    method Grow(allocFails: bool) returns (rc: int)
      requires Valid()
      modifies readBuffer
      ensures Valid() && (readBuffer.ToView(), rc) == MakeSpaceOn(old(readBuffer.ToView()), 4096, allocFails)
      ensures Model() == old(Model()).(rb := readBuffer.ToView())
      ensures readBuffer.data == old(readBuffer.data) || fresh(readBuffer.data)
    {
      rc := readBuffer.MakeSpace(4096, allocFails);
    }

    /** The bytes read are appended and parsed. */
    method Received(got: seq<byte>, reactions: seq<Reaction>)
      requires Valid() && closing == CloseDelay
      requires |got| <= readBuffer.capacity - readBuffer.size && Parsing(Model())
      modifies this, readBuffer, writeBuffer, readBuffer.data, tmp
      ensures Valid()
      ensures Model() == Finish(Parse(Run(old(Model()).(rb := old(readBuffer.ToView()).(bytes := old(readBuffer.bytes) + got)), reactions)))
    {
      readBuffer.Append(got);
      ParseAndFinish(reactions);
    }

    /** Parse what is buffered, then finish the dispatch. */
    method ParseAndFinish(reactions: seq<Reaction>)
      requires Valid() && Parsing(Model()) && closing == CloseDelay
      modifies this, readBuffer, writeBuffer, readBuffer.data, tmp
      ensures Valid() && Model() == Finish(Parse(Run(old(Model()), reactions)))
    {
      var rest := ParseBuffered(reactions);
      FinishRead(rest);
    }

    /** Set the reentrancy guard. */
    method SetClosing(m: CloseMode)
      requires Valid()
      modifies this
      ensures Valid() && Model() == old(Model()).(closing := m)
    {
      closing := m;
    }

    /** Growing the read buffer failed: close at once. */
    method ReadFailed(pending: seq<Reaction>)
      requires Valid()
      modifies this, readBuffer, writeBuffer
      ensures Valid() && Model() == Engine.Close(old(Model()).(closing := CloseOk), NextReaction(pending))
    {
      SetClosing(CloseOk);
      Close(NextReaction(pending));
    }

    /** The end of the stream: on_complete for a body read to the end, then
        close. */
    method EndOfStream(pending: seq<Reaction>)
      requires Valid() && closing == CloseDelay
      modifies this, readBuffer, writeBuffer
      ensures Valid() && Model() == Engine.EndOfStream(old(Model()), pending)
    {
      var rest := pending;
      if state == 4 && cbs.onComplete {
        rest := Invoke(Complete, pending);
      }
      SetClosing(CloseOk);
      Close(NextReaction(rest));
    }

    /** The end of on_read: clear the guard, then close if a callback asked. */
    method FinishRead(pending: seq<Reaction>)
      requires Valid()
      modifies this, readBuffer, writeBuffer
      ensures Valid() && Model() == Finish(Run(old(Model()), pending))
    {
      var aborted := closing == CloseRequested;
      SetClosing(CloseOk);
      if aborted {
        Close(NextReaction(pending));
      }
    }
  }
}
