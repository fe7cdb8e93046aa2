// What each phase of on_read delivers, stated against reference definitions
// on the buffered bytes: the two tokens and the rest of the first line, the
// key and value of a header line, the whole head of the message, the
// content, and the chunk counter.

module PhaseSteps {
  import opened ByteBuffer
  import opened HeaderLine
  import opened Engine

  /** Phase 3, header line [start, end) with its newline at nl: on_header
      receives the key, value and value length that ReadHeader reads from
      the line (ReadHeaderSpec states them against the reference
      definitions); the body length follows NextContentLength on that key
      and value, and the cursor moves past the newline unless on_header
      asked to close. */
  lemma HeaderLineDelivers(r: Run, nl: int, end: int, h: HeaderFields)
    requires Parsing(r.c) && r.c.state == 3 && r.c.closing == CloseDelay
    requires r.c.rb.start <= end <= nl < |r.c.rb.bytes|
    requires h == ReadHeader(r.c.rb.bytes, r.c.rb.start, end)
    ensures var r' := HeaderLineStep(r, nl, end);
      && r'.c.contentLength == NextContentLength(r.c.contentLength, h.key, h.value)
      && r'.c.trace == r.c.trace + (if r.c.cbs.onHeader then [Header(h.key, h.value, h.valueLength)] else [])
      && (!Aborted(r') ==> r'.c.rb.start == nl + 1)
  {
  }

  /** A line without its newline: one carriage return at its end, if any,
      is dropped. */
  function StripCR(x: seq<byte>): (r: seq<byte>)
    ensures r == x || (x == r + [CR])
  {
    if |x| > 0 && x[|x| - 1] == CR then x[..|x| - 1] else x
  }

  /** LineEnd cuts exactly StripCR's line out of the buffer. */
  lemma LineEndStrips(s: seq<byte>, start: int, nl: int)
    requires 0 <= start <= nl < |s|
    ensures s[start..LineEnd(s, start, nl)] == StripCR(s[start..nl])
  {
    if nl > start && s[nl - 1] == CR {
      assert s[start..nl][..nl - 1 - start] == s[start..nl - 1];
    }
  }

  /** Phases 0 and 1 with the first space at idx: the token recorded in
      the scratch slots is the run of bytes before that space, the cursor
      moves past it, and phase 0 makes the body length "unspecified". */
  lemma TokenDelivers(r: Run, idx: int)
    requires Parsing(r.c) && r.c.state <= 1 && r.c.closing == CloseDelay
    requires idx == FindFrom(r.c.rb.bytes, r.c.rb.start, Space) && idx >= 0
    ensures var s, st := r.c.rb.bytes, r.c.rb.start;
      var r' := TokenStep(r, idx);
      var k := if r.c.state == 0 then 0 else 2;
      && r'.c.tmp[k] == st && r'.c.tmp[k + 1] == idx - st
      && s[idx] == Space && (forall j :: st <= j < idx ==> s[j] != Space)
      && r'.c.rb.start == idx + 1 && r'.c.state == r.c.state + 1
      && r'.c.rb.bytes == s && r'.c.trace == r.c.trace
      && r'.c.contentLength == (if r.c.state == 0 then -1 else r.c.contentLength)
  {
    FindFromLeast(r.c.rb.bytes, r.c.rb.start, Space);
  }

  /** What on_first_line receives: the two tokens recorded in the scratch
      slots and the rest of the line up to the newline at nl, without one
      carriage return. */
  lemma FirstLineEventSpec(c: Conn, nl: int)
    requires Parsing(c) && c.state == 2 && c.rb.start <= nl < |c.rb.bytes|
    ensures var s, t := c.rb.bytes, c.tmp;
      FirstLineEvent(c, nl) == FirstLine(s[t[0]..t[0] + t[1]], s[t[2]..t[2] + t[3]], StripCR(s[c.rb.start..nl]))
  {
    LineEndStrips(c.rb.bytes, c.rb.start, nl);
  }

  /** Phase 2 with the newline at nl: on_first_line, if registered, is
      invoked once with FirstLineEvent; then the headers start with the
      delivered-bytes counter at zero and the cursor past the newline. */
  lemma FirstLineDelivers(r: Run, nl: int)
    requires Parsing(r.c) && r.c.state == 2 && r.c.closing == CloseDelay
    requires r.c.rb.start <= nl < |r.c.rb.bytes|
    ensures var r' := FirstLineStep(r, nl);
      && r'.c.trace == r.c.trace + (if r.c.cbs.onFirstLine then [FirstLineEvent(r.c, nl)] else [])
      && r'.c.rb.bytes == r.c.rb.bytes
      && (!Aborted(r') ==> r'.c.state == 3 && r'.c.tmp[0] == 0 && r'.c.rb.start == nl + 1)
  {
  }

  /** Phase 3, empty line ending at nl: on_headers_end receives every byte
      of the buffer up to and including that newline; the body phase
      starts with the cursor past it. */
  lemma HeadersEndDelivers(r: Run, nl: int)
    requires Parsing(r.c) && r.c.state == 3 && r.c.closing == CloseDelay
    requires r.c.rb.start <= nl < |r.c.rb.bytes|
    ensures var s := r.c.rb.bytes;
      var r' := HeadersEndStep(r, nl);
      && r'.c.state == 4 && r'.c.rb.start == nl + 1 && r'.c.rb.bytes == s
      && r'.c.trace == r.c.trace + (if r.c.cbs.onHeadersEnd then [HeadersEnd(s[..nl + 1])] else [])
      && r'.c.contentLength == r.c.contentLength
  {
  }

  /** Phase 3 at the newline nl: the line is the end of the headers exactly
      when it is empty once one carriage return is dropped. */
  lemma HeaderStepCases(r: Run, nl: int)
    requires Parsing(r.c) && r.c.state == 3 && r.c.closing == CloseDelay
    requires r.c.rb.start <= nl < |r.c.rb.bytes|
    ensures var s, st := r.c.rb.bytes, r.c.rb.start;
      HeaderStep(r, nl) == if StripCR(s[st..nl]) == [] then HeadersEndStep(r, nl)
                           else HeaderLineStep(r, nl, LineEnd(s, st, nl))
  {
    LineEndStrips(r.c.rb.bytes, r.c.rb.start, nl);
  }

  /** Phase 4 in whole-content mode: nothing happens until the explicit
      length is buffered; then on_complete_content receives exactly that many
      bytes, the first unconsumed ones, and the body is over. An
      unspecified length (-1) is never delivered this way. */
  lemma WholeContentDelivers(r: Run)
    requires Parsing(r.c) && r.c.closing == CloseDelay && r.c.state == 4 && r.c.contentLength >= -1
    ensures var b, cl := r.c.rb, r.c.contentLength;
      var r' := WholeContentStep(r);
      && (0 <= cl <= |b.Unconsumed()| ==>
            var content := r'.c.trace[|r.c.trace|].content;
            && r'.c.trace == r.c.trace + [CompleteContent(content)]
            && |content| == cl && content == b.Unconsumed()[..cl]
            && r'.c.state == 5 && r'.c.rb == b)
      && (!(0 <= cl <= |b.Unconsumed()|) ==> r' == r)
  {
    var b, cl := r.c.rb, r.c.contentLength;
    if 0 <= cl <= |b.Unconsumed()| {
      assert b.bytes[b.start..b.start + cl] == b.Unconsumed()[..cl];
    }
  }

  /** Phase 4 in chunk mode: on_chunk, if registered, receives every
      unconsumed byte; unless it asked to close, the counter tmp[0] grows by
      their number, and the body is over exactly when an explicit length
      is reached; otherwise the buffer is emptied for the next read. */
  lemma ChunkDelivers(r: Run)
    requires Parsing(r.c) && r.c.closing == CloseDelay && r.c.state == 4 && r.c.contentLength >= -1
    ensures var b, cl := r.c.rb, r.c.contentLength;
      var r' := ChunkStep(r);
      var count := r.c.tmp[0] + |b.Unconsumed()|;
      && r'.c.trace == r.c.trace + (if r.c.cbs.onChunk then [Chunk(b.Unconsumed())] else [])
      && (!Aborted(r') ==>
            && r'.c.tmp[0] == count
            && (r'.c.state == 5 <==> 0 <= cl <= count)
            && (r'.c.state == 5 ==> r'.c.rb == b)
            && (r'.c.state == 4 ==> r'.c.rb.bytes == [] && r'.c.rb.start == 0))
  {
    var b := r.c.rb;
    var len := |b.bytes| - b.start;
    var r1 := FireIf(r, r.c.cbs.onChunk, Chunk(b.bytes[b.start..]));
    if !Aborted(r1) {
      assert ChunkStep(r) == Run(AddChunk(r1.c, len), r1.pending);
      AddChunkCounts(r1.c, len);
    }
  }

  /** The counting after on_chunk, on the connection alone. */
  lemma AddChunkCounts(c: Conn, len: int)
    requires |c.tmp| == 4 && c.state == 4
    ensures var c', count := AddChunk(c, len), c.tmp[0] + len;
      && c'.tmp[0] == count && c'.trace == c.trace
      && (c'.state == 5 <==> 0 <= c.contentLength <= count)
      && (c'.state == 5 ==> c'.rb == c.rb)
      && (c'.state == 4 ==> c'.rb.bytes == [] && c'.rb.start == 0)
  {
  }

  /** Phase 5: the terminal phase 6, on_complete if registered, and the read
      watcher stops unless on_complete asked to close. Any other phase is
      left alone. */
  lemma DoneDelivers(r: Run)
    requires Parsing(r.c) && r.c.closing == CloseDelay && r.c.state == 5
    ensures var r' := DoneStep(r);
      && r'.c.state == 6
      && r'.c.trace == r.c.trace + (if r.c.cbs.onComplete then [Complete] else [])
      && (!Aborted(r') ==> !r'.c.readArmed)
  {
  }

  /** A connection in the terminal phase parses nothing more. */
  lemma ParseDone(r: Run)
    requires Parsing(r.c) && r.c.closing == CloseDelay && r.c.state == 6
    ensures Parse(r) == r
  {
    assert !Fires(r.c);
  }
}
