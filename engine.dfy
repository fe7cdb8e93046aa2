// The connection engine as a state machine on values: what
// evhttp_connection_init, close, send, terminate, on_read and on_write do to
// a connection. The class in connection.dfy is proved to follow it.
//
// User callbacks are opaque: each invocation appends an Event to the trace,
// and what the callback did to the connection is a Reaction supplied from
// outside (nothing, close, or terminate).

module Engine {
  import opened ByteBuffer
  import opened HeaderLine

  /** What a user callback does to the connection before it returns. */
  datatype Reaction = Proceed | CallClose | CallTerminate

  /** One invocation of a user callback, with the views it receives. */
  datatype Event =
    | FirstLine(first: seq<byte>, second: seq<byte>, third: seq<byte>)
    | Header(key: seq<byte>, value: seq<byte>, valueLength: int)
    | HeadersEnd(message: seq<byte>)
    | Chunk(content: seq<byte>)
    | CompleteContent(content: seq<byte>)
    | Complete
    | Closed

  /** CLOSE_OK, CLOSE_DELAY and CLOSE_REQESTED. */
  datatype CloseMode = CloseOk | CloseDelay | CloseRequested

  /** Which of the parsing callbacks were registered (non-NULL). */
  datatype Callbacks = Callbacks(
    onFirstLine: bool, onHeader: bool, onHeadersEnd: bool,
    onChunk: bool, onCompleteContent: bool, onComplete: bool)

  /** A connection: both buffers, the parse phase (0 to 6), the body length
      (-2 not yet known, -1 unspecified), the scratch slots tmp[0..3], the
      flags, whether each watcher is armed, whether on_close is still set,
      the callbacks invoked so far and the bytes written to the socket. */
  datatype Conn = Conn(
    rb: View, wb: View,
    state: int, contentLength: int, tmp: seq<int>,
    terminating: bool, closing: CloseMode,
    readArmed: bool, writeArmed: bool,
    onClose: bool, cbs: Callbacks,
    trace: seq<Event>, wire: seq<byte>)

  /** Number of Closed events in a trace. */
  function ClosedCount(t: seq<Event>): (n: nat)
    ensures n <= |t|
  {
    if t == [] then 0 else ClosedCount(t[..|t| - 1]) + (if t[|t| - 1] == Closed then 1 else 0)
  }

  lemma ClosedCountAppend(t: seq<Event>, e: Event)
    ensures ClosedCount(t + [e]) == ClosedCount(t) + (if e == Closed then 1 else 0)
  {
    assert (t + [e])[..|t|] == t;
  }

  /** Facts that hold of every connection at all times. */
  ghost predicate Base(c: Conn) {
    && c.rb.Valid() && c.wb.Valid() && |c.tmp| == 4
    && 0 <= c.state <= 6
    && c.contentLength >= -2 && (c.state >= 1 ==> c.contentLength >= -1)
    && ClosedCount(c.trace) <= 1 && (c.onClose ==> ClosedCount(c.trace) == 0)
  }

  /** The scratch slots hold what the current phase needs: the first two
      tokens of the first line, then the count of body bytes delivered. */
  ghost predicate Tokens(c: Conn)
    requires |c.tmp| == 4
  {
    && (1 <= c.state <= 2 ==> 0 <= c.tmp[0] && 0 <= c.tmp[1] && c.tmp[0] + c.tmp[1] < c.rb.start)
    && (c.state == 2 ==> 0 <= c.tmp[2] && 0 <= c.tmp[3] && c.tmp[2] + c.tmp[3] < c.rb.start)
    && (c.state >= 3 ==> c.tmp[0] >= 0)
  }

  /** What the parser relies on while it runs. */
  ghost predicate Parsing(c: Conn) {
    Base(c) && Tokens(c)
  }

  /** The invariant kept between calls: while the read watcher is armed the
      parse has not finished and the scratch slots are meaningful. */
  ghost predicate Inv(c: Conn) {
    Base(c) && (c.readArmed ==> c.state <= 4 && Tokens(c))
  }

  /** A connection outside any dispatch. */
  ghost predicate Idle(c: Conn) {
    Inv(c) && c.closing == CloseOk
  }

  /** evhttp_connection_init */
  function Init(cbs: Callbacks, onClose: bool): (c: Conn)
    ensures Idle(c) && c.readArmed && !c.writeArmed && c.state == 0 && c.trace == []
  {
    Conn(Empty, Empty, 0, -2, [0, 0, 0, 0], false, CloseOk, true, false, onClose, cbs, [], [])
  }

  /** evhttp_connection_close. Inside a dispatch only the request is recorded.
      Otherwise both watchers stop, both buffers are released and on_close is
      cleared and then invoked, so it runs at most once; r is what on_close
      does. A close from on_close finds everything released and on_close
      cleared, so it changes nothing; a terminate sets the flag first. */
  function Close(c: Conn, r: Reaction): (c': Conn)
    ensures c.closing != CloseOk ==> c' == c.(closing := CloseRequested)
    ensures c.closing == CloseOk ==>
      && !c'.readArmed && !c'.writeArmed && c'.rb == Empty && c'.wb == Empty
      && !c'.onClose && c'.closing == CloseOk
      && c'.trace == c.trace + (if c.onClose then [Closed] else [])
      && c'.terminating == (c.terminating || (c.onClose && r == CallTerminate))
      && c'.state == c.state && c'.wire == c.wire
  {
    if c.closing != CloseOk then c.(closing := CloseRequested)
    else
      var stopped := c.(readArmed := false, writeArmed := false, rb := Empty, wb := Empty);
      if !stopped.onClose then stopped
      else
        var notified := stopped.(onClose := false, trace := stopped.trace + [Closed]);
        if r == CallTerminate then notified.(terminating := true) else notified
  }

  /** evhttp_connection_terminate: close once the write buffer is drained,
      at once if it already is. */
  function Terminate(c: Conn, r: Reaction): (c': Conn)
  {
    var t := c.(terminating := true);
    if t.wb.start == |t.wb.bytes| then Close(t, r) else t
  }

  /** evhttp_connection_send: the new connection and the return code. */
  function Send(c: Conn, data: seq<byte>, allocFails: bool): (Conn, int)
  {
    var (w, rc) := MakeSpaceOn(c.wb, |data|, allocFails);
    if rc != 0 then (c, -1)
    else (c.(wb := w.(bytes := w.bytes + data), writeArmed := true), 0)
  }

  /** The sent bytes leave the write buffer for the socket. */
  function Flush(c: Conn, sent: int): Conn
    requires c.wb.Valid() && 0 <= sent <= |c.wb.bytes| - c.wb.start
  {
    c.(wb := c.wb.(start := c.wb.start + sent), wire := c.wire + c.wb.bytes[c.wb.start..c.wb.start + sent])
  }

  /** After a write: close a terminating connection once drained; otherwise a
      drained buffer is rewound and the write watcher stops. */
  function AfterWrite(c: Conn, r: Reaction): Conn
    requires c.closing == CloseOk
  {
    if c.terminating && c.wb.start == |c.wb.bytes| then Close(c, r)
    else if c.wb.start == |c.wb.bytes| then c.(wb := c.wb.(bytes := [], start := 0), writeArmed := false)
    else c
  }

  /** on_write: write returned sent (negative on error); r is what on_close
      does if the connection closes. */
  function OnWrite(c: Conn, sent: int, r: Reaction): Conn
    requires c.wb.Valid() && c.closing == CloseOk
    requires sent <= |c.wb.bytes| - c.wb.start
  {
    if sent < 0 then Close(c, r) else AfterWrite(Flush(c, sent), r)
  }

  // ---------------------------------------------------------------------
  // on_read

  /** The connection while on_read dispatches, with the outcomes of the
      callbacks still to be invoked (an empty list means they do nothing). */
  datatype Run = Run(c: Conn, pending: seq<Reaction>)

  function NextReaction(pending: seq<Reaction>): Reaction {
    if pending == [] then Proceed else pending[0]
  }

  function Later(pending: seq<Reaction>): seq<Reaction> {
    if pending == [] then [] else pending[1..]
  }

  /** What a callback's close or terminate does while on_read dispatches:
      the guard turns the close into a request. */
  function React(c: Conn, x: Reaction): (c': Conn)
    requires c.closing == CloseDelay
    ensures c' == c.(terminating := c.terminating || x == CallTerminate,
                     closing := if x == CallClose || (x == CallTerminate && c.wb.start == |c.wb.bytes|)
                                then CloseRequested else CloseDelay)
  {
    match x
    case Proceed => c
    case CallClose => Close(c, Proceed)
    case CallTerminate => Terminate(c, Proceed)
  }

  /** Invoke a callback inside on_read: the event is recorded, then the
      callback's close or terminate meets the guard and at most records a
      close request. Nothing else about the connection changes. */
  function Fire(r: Run, e: Event): (r': Run)
    requires r.c.closing == CloseDelay
    ensures r' == Run(React(r.c.(trace := r.c.trace + [e]), NextReaction(r.pending)), Later(r.pending))
    ensures ClosedCount(r'.c.trace) == ClosedCount(r.c.trace) + (if e == Closed then 1 else 0)
  {
    ClosedCountAppend(r.c.trace, e);
    Run(React(r.c.(trace := r.c.trace + [e]), NextReaction(r.pending)), Later(r.pending))
  }

  /** Invoke a parsing callback if it is registered. Only the trace, the
      terminate flag and the close request can change, and the invariants
      the parser relies on survive. */
  function FireIf(r: Run, registered: bool, e: Event): (r': Run)
    requires r.c.closing == CloseDelay && e != Closed
    ensures !registered ==> r' == r
    ensures registered ==> r' == Fire(r, e)
    ensures r'.c.closing == CloseDelay || r'.c.closing == CloseRequested
    ensures Parsing(r.c) ==> Parsing(r'.c)
    ensures r'.c.rb == r.c.rb && r'.c.state == r.c.state && r'.c.tmp == r.c.tmp
    ensures r'.c.contentLength == r.c.contentLength
    ensures r'.c.readArmed == r.c.readArmed && r'.c.onClose == r.c.onClose
    ensures r'.c.wb == r.c.wb && r'.c.wire == r.c.wire && r'.c.cbs == r.c.cbs
  {
    if registered then Fire(r, e) else r
  }

  /** A callback asked for the connection to close: parsing is abandoned. */
  predicate Aborted(r: Run) {
    r.c.closing == CloseRequested
  }

  /** What every parsing phase keeps: the parser's invariant, a phase that
      never goes back, a guard that at most records a close request, and the
      watchers, on_close, the output side and the callbacks untouched. */
  ghost predicate Advances(r: Run, r': Run) {
    && Parsing(r'.c) && r'.c.state >= r.c.state
    && (r'.c.closing == CloseDelay || r'.c.closing == CloseRequested)
    && r'.c.readArmed == r.c.readArmed && r'.c.onClose == r.c.onClose
    && r'.c.wb == r.c.wb && r'.c.wire == r.c.wire && r'.c.cbs == r.c.cbs
  }

  /** The byte the current phase looks for: a space in phases 0 and 1, a
      newline in phases 2 and 3. */
  function Delim(state: int): byte {
    if state <= 1 then Space else LF
  }

  /** Phases 0 to 3 can make progress: their delimiter is buffered. */
  predicate Fires(c: Conn)
    requires c.rb.Valid()
  {
    0 <= c.state <= 3 && FindFrom(c.rb.bytes, c.rb.start, Delim(c.state)) >= 0
  }

  /** The end of the line [start, nl): one carriage return before the newline
      is dropped. */
  function LineEnd(s: seq<byte>, start: int, nl: int): (end: int)
    requires 0 <= start <= nl < |s|
    ensures start <= end <= nl
    ensures end == nl || (end == nl - 1 && s[end] == CR)
    ensures end == nl - 1 <==> nl > start && s[nl - 1] == CR
  {
    if nl > start && s[nl - 1] == CR then nl - 1 else nl
  }

  /** Phase 2 with the newline at nl: report the first line, then start the
      headers with the delivered-bytes counter at zero. */
  function FirstLineStep(r: Run, nl: int): (r': Run)
    requires Parsing(r.c) && r.c.state == 2 && r.c.closing == CloseDelay
    requires r.c.rb.start <= nl < |r.c.rb.bytes|
    ensures Advances(r, r')
    ensures |r'.c.rb.bytes| == |r.c.rb.bytes|
    ensures !Aborted(r') ==> r'.c.rb.start > r.c.rb.start
    ensures !Aborted(r') ==> r'.c.state == 3
  {
    var r1 := FireIf(r, r.c.cbs.onFirstLine, FirstLineEvent(r.c, nl));
    if Aborted(r1) then r1 else Run(EnterHeaders(r1.c, nl), r1.pending)
  }

  /** What on_first_line receives: the two tokens and the rest of the line
      up to the newline at nl, without its carriage return. */
  function FirstLineEvent(c: Conn, nl: int): (e: Event)
    requires Parsing(c) && c.state == 2 && c.rb.start <= nl < |c.rb.bytes|
    ensures e.FirstLine?
  {
    var b := c.rb;
    FirstLine(b.bytes[c.tmp[0]..c.tmp[0] + c.tmp[1]], b.bytes[c.tmp[2]..c.tmp[2] + c.tmp[3]],
              b.bytes[b.start..LineEnd(b.bytes, b.start, nl)])
  }

  /** The end of phase 2: move past the first line and start the headers with
      the delivered-bytes counter tmp[0] at zero. */
  function EnterHeaders(c: Conn, nl: int): Conn
    requires |c.tmp| == 4
  {
    c.(rb := c.rb.(start := nl + 1), tmp := c.tmp[0 := 0], state := 3)
  }

  /** The content length after a header: set only while still negative, only
      by a content-length header, and only to a value that parses as >= 0. */
  function NextContentLength(current: int, key: seq<byte>, value: seq<byte>): (cl: int)
    ensures cl == current || (current < 0 && key == ContentLength && cl == ParseLong(value) && cl >= 0)
    ensures current >= 0 ==> cl == current
  {
    if current < 0 && key == ContentLength && ParseLong(value) >= 0 then ParseLong(value) else current
  }

  /** Phase 3, empty line ending at nl: the headers are over; on_headers_end
      receives everything buffered up to and including the newline. */
  function HeadersEndStep(r: Run, nl: int): (r': Run)
    requires Parsing(r.c) && r.c.state == 3 && r.c.closing == CloseDelay
    requires r.c.rb.start <= nl < |r.c.rb.bytes|
    ensures Advances(r, r')
    ensures |r'.c.rb.bytes| == |r.c.rb.bytes|
    ensures !Aborted(r') ==> r'.c.rb.start > r.c.rb.start
    ensures r'.c.state == 4
  {
    FireIf(Run(SkipLine(r.c, nl).(state := 4), r.pending), r.c.cbs.onHeadersEnd,
           HeadersEnd(r.c.rb.bytes[..nl + 1]))
  }

  /** The scans of header line [start, end): the key is lower-cased in the
      buffer and a content-length header may set the body length. */
  function TakeHeader(c: Conn, end: int): Conn
    requires c.rb.Valid() && c.rb.start <= end <= |c.rb.bytes|
  {
    var h := ReadHeader(c.rb.bytes, c.rb.start, end);
    c.(rb := c.rb.(bytes := h.bytes), contentLength := NextContentLength(c.contentLength, h.key, h.value))
  }

  /** Phase 3, header line [start, end) with its newline at nl: the key is
      lower-cased in the buffer, a content-length header may set the body
      length, on_header receives the key and the value. */
  function HeaderLineStep(r: Run, nl: int, end: int): (r': Run)
    requires Parsing(r.c) && r.c.state == 3 && r.c.closing == CloseDelay
    requires r.c.rb.start <= end <= nl < |r.c.rb.bytes|
    ensures Advances(r, r')
    ensures |r'.c.rb.bytes| == |r.c.rb.bytes|
    ensures !Aborted(r') ==> r'.c.rb.start > r.c.rb.start
    ensures r'.c.state == 3
  {
    var c := r.c;
    var h := ReadHeader(c.rb.bytes, c.rb.start, end);
    var r1 := FireIf(Run(TakeHeader(c, end), r.pending), c.cbs.onHeader, Header(h.key, h.value, h.valueLength));
    if Aborted(r1) then r1 else Run(SkipLine(r1.c, nl), r1.pending)
  }

  /** Move the read cursor past the newline at nl. */
  function SkipLine(c: Conn, nl: int): Conn {
    c.(rb := c.rb.(start := nl + 1))
  }

  /** Phase 3 with the newline at nl: an empty line (after dropping one
      carriage return) ends the headers, any other line is a header. */
  function HeaderStep(r: Run, nl: int): (r': Run)
    requires Parsing(r.c) && r.c.state == 3 && r.c.closing == CloseDelay
    requires r.c.rb.start <= nl < |r.c.rb.bytes|
    ensures Advances(r, r')
    ensures |r'.c.rb.bytes| == |r.c.rb.bytes|
    ensures !Aborted(r') ==> r'.c.rb.start > r.c.rb.start
    ensures r'.c.state == 3 || r'.c.state == 4
  {
    var end := LineEnd(r.c.rb.bytes, r.c.rb.start, nl);
    if end == r.c.rb.start then HeadersEndStep(r, nl) else HeaderLineStep(r, nl, end)
  }

  /** Phase 0 with the space at idx: the first token [start, idx) goes to
      tmp[0..1], the cursor moves past the space, and from here on an absent
      Content-Length means "read to the end" (-1). */
  function TakeFirstToken(c: Conn, idx: int): Conn
    requires c.rb.Valid() && |c.tmp| == 4 && c.rb.start <= idx < |c.rb.bytes|
  {
    c.(tmp := c.tmp[0 := c.rb.start][1 := idx - c.rb.start], rb := c.rb.(start := idx + 1),
       state := 1, contentLength := -1)
  }

  /** Phase 1 with the space at idx: the second token goes to tmp[2..3]. */
  function TakeSecondToken(c: Conn, idx: int): Conn
    requires c.rb.Valid() && |c.tmp| == 4 && c.rb.start <= idx < |c.rb.bytes|
  {
    c.(tmp := c.tmp[2 := c.rb.start][3 := idx - c.rb.start], rb := c.rb.(start := idx + 1), state := 2)
  }

  /** Phases 0 and 1 with the space at idx: record the token [start, idx)
      in the scratch slots and move past the space. Phase 0 also makes the
      body length "unspecified". */
  function TokenStep(r: Run, idx: int): (r': Run)
    requires Parsing(r.c) && r.c.state <= 1 && r.c.closing == CloseDelay
    requires r.c.rb.start <= idx < |r.c.rb.bytes|
    ensures Advances(r, r')
    ensures |r'.c.rb.bytes| == |r.c.rb.bytes|
    ensures !Aborted(r') ==> r'.c.rb.start > r.c.rb.start
    ensures r'.c.state == r.c.state + 1 && !Aborted(r')
  {
    Run(if r.c.state == 0 then TakeFirstToken(r.c, idx) else TakeSecondToken(r.c, idx), r.pending)
  }

  /** One unit of progress in phases 0 to 3: a token, the first line, a
      header line or the end of the headers. */
  function Step(r: Run): (r': Run)
    requires Parsing(r.c) && r.c.closing == CloseDelay && Fires(r.c)
    ensures Advances(r, r')
    ensures |r'.c.rb.bytes| == |r.c.rb.bytes|
    ensures !Aborted(r') ==> r'.c.rb.start > r.c.rb.start
    ensures r.c.state <= 1 ==> r'.c.state == r.c.state + 1 && !Aborted(r')
    ensures r.c.state == 2 && !Aborted(r') ==> r'.c.state == 3
    ensures r.c.state == 3 ==> r'.c.state == 3 || r'.c.state == 4
  {
    var idx := FindFrom(r.c.rb.bytes, r.c.rb.start, Delim(r.c.state));
    if r.c.state <= 1 then TokenStep(r, idx)
    else if r.c.state == 2 then FirstLineStep(r, idx)
    else HeaderStep(r, idx)
  }

  /** Phases 0 to 3 as on_read runs them: keep going while the delimiter of
      the current phase is buffered and no callback asked to close. */
  function Scan(r: Run): (r': Run)
    requires Parsing(r.c) && r.c.closing == CloseDelay
    ensures Parsing(r'.c) && r'.c.state >= r.c.state
    ensures r'.c.closing == CloseDelay || r'.c.closing == CloseRequested
    ensures !Aborted(r') ==> !Fires(r'.c)
    ensures r.c.state <= 4 ==> r'.c.state <= 4
    ensures r'.c.readArmed == r.c.readArmed && r'.c.onClose == r.c.onClose
    ensures r'.c.wb == r.c.wb && r'.c.wire == r.c.wire && r'.c.cbs == r.c.cbs
    decreases |r.c.rb.bytes| - r.c.rb.start
  {
    if Fires(r.c) then
      var r1 := Step(r);
      if Aborted(r1) then r1 else Scan(r1)
    else r
  }

  /** One of on_read's `if (state == k)` blocks for phases 0 to 2: a step
      when the connection is in phase k and that phase's delimiter is
      buffered. */
  function Block(r: Run, k: int): (r': Run)
    requires Parsing(r.c) && r.c.closing == CloseDelay
    ensures Advances(r, r')
    ensures !(r.c.state == k && Fires(r.c)) ==> r' == r
  {
    if r.c.state == k && Fires(r.c) then Step(r) else r
  }

  /** on_read's phase-3 loop: one header line per buffered newline, until the
      empty line or a close request. */
  function HeaderLoop(r: Run): (r': Run)
    requires Parsing(r.c) && r.c.closing == CloseDelay
    ensures Advances(r, r')
    ensures r.c.state != 3 ==> r' == r
    decreases |r.c.rb.bytes| - r.c.rb.start
  {
    if r.c.state == 3 && Fires(r.c) then
      var r1 := HeaderStep(r, FindFrom(r.c.rb.bytes, r.c.rb.start, LF));
      if Aborted(r1) then r1 else HeaderLoop(r1)
    else r
  }

  /** One round of the phase-3 loop: the step at the first newline, then
      the rest of the loop unless the headers ended or a close was asked. */
  lemma HeaderLoopUnfolds(r: Run)
    requires Parsing(r.c) && r.c.closing == CloseDelay && r.c.state == 3 && Fires(r.c)
    ensures var r1 := HeaderStep(r, FindFrom(r.c.rb.bytes, r.c.rb.start, LF));
      HeaderLoop(r) == if Aborted(r1) || r1.c.state != 3 then r1 else HeaderLoop(r1)
  {
  }

  /** What on_read's phase-3 loop looks at after a line: -1 when the
      headers ended or a close was requested, otherwise the next newline. */
  function RoundEnd(r: Run): int
    requires r.c.rb.Valid()
  {
    if Aborted(r) || r.c.state != 3 then -1 else FindFrom(r.c.rb.bytes, r.c.rb.start, LF)
  }

  /** One round of the phase-3 loop: the loop from r is the loop from the
      step's result, or that result itself once the round ends the loop. */
  lemma HeaderLoopRound(r: Run, nl: int, r': Run, next: int)
    requires Parsing(r.c) && r.c.closing == CloseDelay && r.c.state == 3
    requires 0 <= nl && nl == FindFrom(r.c.rb.bytes, r.c.rb.start, LF)
    requires r' == HeaderStep(r, nl) && next == RoundEnd(r')
    ensures next >= 0 ==> Parsing(r'.c) && r'.c.closing == CloseDelay && r'.c.state == 3
    ensures next >= 0 ==> |r'.c.rb.bytes| - r'.c.rb.start < |r.c.rb.bytes| - r.c.rb.start
    ensures HeaderLoop(r) == if next < 0 then r' else HeaderLoop(r')
  {
    HeaderLoopUnfolds(r);
  }

  /** Phases 0 to 3 in the order on_read's code runs them. */
  function Phases(r: Run): (r': Run)
    requires Parsing(r.c) && r.c.closing == CloseDelay
  {
    var r2 := Block(Block(Block(r, 0), 1), 2);
    if Aborted(r2) then r2 else HeaderLoop(r2)
  }

  /** In phase 3 the loop and the step iteration agree. */
  lemma {:induction false} HeaderLoopIsScan(r: Run)
    requires Parsing(r.c) && r.c.closing == CloseDelay && r.c.state == 3
    ensures HeaderLoop(r) == Scan(r)
    decreases |r.c.rb.bytes| - r.c.rb.start
  {
    if Fires(r.c) {
      var r1 := Step(r);
      if !Aborted(r1) && r1.c.state == 3 {
        HeaderLoopIsScan(r1);
      }
    }
  }

  /** The straight-line blocks of on_read compute what iterating Step does:
      each block finds its phase only if the previous one completed. */
  lemma {:induction false} PhasesAreScan(r: Run)
    requires Parsing(r.c) && r.c.closing == CloseDelay
    ensures Phases(r) == Scan(r)
    decreases |r.c.rb.bytes| - r.c.rb.start
  {
    if r.c.state == 3 {
      assert Phases(r) == HeaderLoop(r);
      HeaderLoopIsScan(r);
    } else if r.c.state <= 2 && Fires(r.c) {
      PhasesFromFiring(r);
      var r1 := Step(r);
      if !Aborted(r1) {
        PhasesAreScan(r1);
      }
    }
  }

  /** PhasesAreScan with the intermediate runs named: r2 after the three
      blocks, r3 after the phase-3 loop unless a callback asked to close. */
  lemma ScanByPhases(r: Run, r2: Run, r3: Run)
    requires Parsing(r.c) && r.c.closing == CloseDelay
    requires r2 == Block(Block(Block(r, 0), 1), 2)
    requires Parsing(r2.c) && r2.c.closing == CloseDelay ==> r3 == HeaderLoop(r2)
    requires Aborted(r2) ==> r3 == r2
    ensures r3 == Scan(r)
  {
    PhasesAreScan(r);
  }

  /** In phases 0 to 2, when the current block fires, the remaining blocks
      run from the step's result. */
  lemma PhasesFromFiring(r: Run)
    requires Parsing(r.c) && r.c.closing == CloseDelay && r.c.state <= 2 && Fires(r.c)
    ensures Phases(r) == (if Aborted(Step(r)) then Step(r) else Phases(Step(r)))
  {
    var r1 := Step(r);
    if r.c.state == 0 {
      assert Block(r, 0) == r1 && Block(r1, 0) == r1;
    } else if r.c.state == 1 {
      assert Block(r, 0) == r && Block(r, 1) == r1;
      assert Block(r1, 0) == r1 && Block(r1, 1) == r1;
    } else {
      assert Block(Block(Block(r, 0), 1), 2) == r1;
      assert !Aborted(r1) ==> Block(Block(Block(r1, 0), 1), 2) == r1;
    }
  }

  /** Phase 4 in whole-content mode (on_complete_content set): wait until
      the explicit length is buffered, then deliver exactly that many bytes. */
  function WholeContentStep(r: Run): (r': Run)
    requires Parsing(r.c) && r.c.closing == CloseDelay && r.c.state == 4 && r.c.contentLength >= -1
    ensures Advances(r, r') && (r'.c.state == 4 || r'.c.state == 5)
  {
    var c := r.c;
    var b := c.rb;
    if 0 <= c.contentLength <= |b.bytes| - b.start then
      FireIf(Run(c.(state := 5), r.pending), true, CompleteContent(b.bytes[b.start..b.start + c.contentLength]))
    else r
  }

  /** Phase 4 in chunk mode: deliver all unconsumed bytes to on_chunk, count
      them in tmp[0], then finish once the explicit length is reached or
      empty the buffer. */
  function ChunkStep(r: Run): (r': Run)
    requires Parsing(r.c) && r.c.closing == CloseDelay && r.c.state == 4 && r.c.contentLength >= -1
    ensures Advances(r, r') && (r'.c.state == 4 || r'.c.state == 5)
  {
    var b := r.c.rb;
    var len := |b.bytes| - b.start;
    var r1 := FireIf(r, r.c.cbs.onChunk, Chunk(b.bytes[b.start..]));
    if Aborted(r1) then r1 else CountChunk(r1, len)
  }

  /** After on_chunk: add the len delivered bytes to tmp[0]; the body is over
      once an explicit length is reached, otherwise the buffer is emptied. */
  function CountChunk(r: Run, len: int): (r': Run)
    requires Parsing(r.c) && r.c.closing == CloseDelay && r.c.state == 4 && len >= 0
    ensures Advances(r, r') && r'.c.closing == CloseDelay && (r'.c.state == 4 || r'.c.state == 5)
  {
    Run(AddChunk(r.c, len), r.pending)
  }

  /** The counting of CountChunk on the connection. */
  function AddChunk(c: Conn, len: int): (c': Conn)
    requires |c.tmp| == 4
    ensures c'.state == c.state || c'.state == 5
  {
    var count := c.tmp[0] + len;
    if 0 <= c.contentLength <= count then c.(tmp := c.tmp[0 := count], state := 5)
    else c.(tmp := c.tmp[0 := count], rb := c.rb.(bytes := [], start := 0))
  }

  /** Phase 4. A length below -1 (never the case once phase 1 is reached)
      skips the body. */
  function BodyStep(r: Run): (r': Run)
    requires Parsing(r.c) && r.c.closing == CloseDelay
    ensures Advances(r, r')
    ensures r'.c.state == r.c.state || (r.c.state == 4 && r'.c.state == 5)
  {
    if r.c.state != 4 then r
    else if r.c.contentLength < -1 then Run(r.c.(state := 5), r.pending)
    else if r.c.cbs.onCompleteContent then WholeContentStep(r)
    else ChunkStep(r)
  }

  /** Phase 5: go to the terminal phase 6, report completion and stop
      reading (keep-alive is not supported). */
  function DoneStep(r: Run): (r': Run)
    requires r.c.closing == CloseDelay
    ensures Parsing(r.c) ==> Parsing(r'.c)
    ensures r'.c.state == (if r.c.state == 5 then 6 else r.c.state)
    ensures r'.c.closing == CloseDelay || r'.c.closing == CloseRequested
    ensures r.c.state == 5 && !Aborted(r') ==> !r'.c.readArmed
    ensures r.c.state != 5 ==> r' == r
  {
    if r.c.state != 5 then r
    else
      var c1 := r.c.(state := 6);
      var r1 := FireIf(Run(c1, r.pending), c1.cbs.onComplete, Complete);
      if Aborted(r1) then r1 else Run(r1.c.(readArmed := false), r1.pending)
  }

  /** Phases 0 to 5 on the bytes now buffered, stopping at a close request. */
  function Parse(r: Run): (r': Run)
    requires Parsing(r.c) && r.c.closing == CloseDelay
    ensures Parsing(r'.c) && r'.c.state >= r.c.state
    ensures r'.c.closing == CloseDelay || r'.c.closing == CloseRequested
    ensures !Aborted(r') && r'.c.readArmed && r.c.state <= 4 ==> r'.c.state <= 4
  {
    var r1 := Scan(r);
    if Aborted(r1) then r1
    else
      var r2 := BodyStep(r1);
      if Aborted(r2) then r2 else DoneStep(r2)
  }

  /** The end of on_read: clear the guard, then close if a callback asked. */
  function Finish(r: Run): Conn {
    var c := r.c.(closing := CloseOk);
    if Aborted(r) then Close(c, NextReaction(r.pending)) else c
  }

  /** on_read when read reports the end of the stream or an error: a body
      read to the end (phase 4) is complete, then the connection closes. */
  function EndOfStream(c: Conn, reactions: seq<Reaction>): Conn
    requires c.closing == CloseDelay
  {
    var r0 := Run(c, reactions);
    var r := if c.state == 4 && c.cbs.onComplete then Fire(r0, Complete) else r0;
    Close(r.c.(closing := CloseOk), NextReaction(r.pending))
  }

  /** on_read. allocFails says whether growing the read buffer fails; got is
      what read returned (empty for end of stream or an error); reactions
      are the outcomes of the callbacks it invokes, on_close included. */
  function OnRead(c: Conn, allocFails: bool, got: seq<byte>, reactions: seq<Reaction>): Conn
    requires Idle(c) && c.readArmed && |got| <= 4096
  {
    var c0 := c.(closing := CloseDelay);
    var (w, rc) := MakeSpaceOn(c0.rb, 4096, allocFails);
    if rc != 0 then Close(c0.(closing := CloseOk), NextReaction(reactions))
    else if got == [] then EndOfStream(c0.(rb := w), reactions)
    else
      Finish(Parse(Run(c0.(rb := w.(bytes := w.bytes + got)), reactions)))
  }

  /** The three ways on_read goes, named by what growing the buffer gave. */
  lemma OnReadCases(c: Conn, allocFails: bool, got: seq<byte>, reactions: seq<Reaction>, w: View, rc: int)
    requires Idle(c) && c.readArmed && |got| <= 4096
    requires (w, rc) == MakeSpaceOn(c.rb, 4096, allocFails)
    ensures rc != 0 ==>
      OnRead(c, allocFails, got, reactions) == Close(c.(closing := CloseOk), NextReaction(reactions))
    ensures rc == 0 && got == [] ==>
      OnRead(c, allocFails, got, reactions) == EndOfStream(c.(closing := CloseDelay, rb := w), reactions)
    ensures rc == 0 && got != [] ==>
      var c1 := c.(closing := CloseDelay, rb := w.(bytes := w.bytes + got));
      Parsing(c1) && OnRead(c, allocFails, got, reactions) == Finish(Parse(Run(c1, reactions)))
  {
    if rc == 0 {
      ReadKeepsBounds(c.rb, got, allocFails);
    }
  }
}
