// How phases 0 to 3 of on_read depend on the way the peer's bytes are split
// into reads: not at all. Parsing what one read buffered and then, after the
// next read appended more, parsing on gives the same callbacks, phase,
// cursor, scratch slots and body length as parsing both reads' bytes at once.

module Fragments {
  import opened ByteBuffer
  import opened HeaderLine
  import opened Engine

  /** The run after the next read appended t to the read buffer, whose
      capacity is now cap (buffer_make_space keeps the bytes and cursor). */
  function Extend(r: Run, t: seq<byte>, cap: int): Run {
    Run(r.c.(rb := View(r.c.rb.bytes + t, r.c.rb.start, cap)), r.pending)
  }

  lemma ExtendParsing(r: Run, t: seq<byte>, cap: int)
    requires Parsing(r.c) && |r.c.rb.bytes| + |t| <= cap
    ensures Parsing(Extend(r, t, cap).c)
  {
  }

  /** A callback invoked inside on_read does the same whatever is buffered
      after the cursor. */
  lemma FireIfAppend(r: Run, t: seq<byte>, cap: int, registered: bool, e: Event)
    requires r.c.closing == CloseDelay && e != Closed
    ensures FireIf(Extend(r, t, cap), registered, e) == Extend(FireIf(r, registered, e), t, cap)
  {
  }

  lemma TokenAppend(r: Run, t: seq<byte>, cap: int, idx: int)
    requires Parsing(r.c) && r.c.state <= 1 && r.c.closing == CloseDelay
    requires r.c.rb.start <= idx < |r.c.rb.bytes| && |r.c.rb.bytes| + |t| <= cap
    requires Parsing(Extend(r, t, cap).c)
    ensures TokenStep(Extend(r, t, cap), idx) == Extend(TokenStep(r, idx), t, cap)
  {
    var c := r.c;
    if c.state == 0 {
      assert TakeFirstToken(Extend(r, t, cap).c, idx) == Extend(Run(TakeFirstToken(c, idx), r.pending), t, cap).c;
    } else {
      assert TakeSecondToken(Extend(r, t, cap).c, idx) == Extend(Run(TakeSecondToken(c, idx), r.pending), t, cap).c;
    }
  }

  lemma FirstLineEventAppend(c: Conn, x: Conn, t: seq<byte>, nl: int)
    requires Parsing(c) && c.state == 2 && c.rb.start <= nl < |c.rb.bytes|
    requires Parsing(x) && x == c.(rb := x.rb) && x.rb.bytes == c.rb.bytes + t && x.rb.start == c.rb.start
    ensures FirstLineEvent(x, nl) == FirstLineEvent(c, nl)
  {
    var s, u := c.rb.bytes, x.rb.bytes;
    var end := LineEnd(s, c.rb.start, nl);
    assert LineEnd(u, c.rb.start, nl) == end;
    assert u[c.tmp[0]..c.tmp[0] + c.tmp[1]] == s[c.tmp[0]..c.tmp[0] + c.tmp[1]];
    assert u[c.tmp[2]..c.tmp[2] + c.tmp[3]] == s[c.tmp[2]..c.tmp[2] + c.tmp[3]];
    assert u[c.rb.start..end] == s[c.rb.start..end];
  }

  lemma FirstLineAppend(r: Run, t: seq<byte>, cap: int, nl: int)
    requires Parsing(r.c) && r.c.state == 2 && r.c.closing == CloseDelay
    requires r.c.rb.start <= nl < |r.c.rb.bytes| && |r.c.rb.bytes| + |t| <= cap
    requires Parsing(Extend(r, t, cap).c)
    ensures FirstLineStep(Extend(r, t, cap), nl) == Extend(FirstLineStep(r, nl), t, cap)
  {
    var x := Extend(r, t, cap);
    var e := FirstLineEvent(r.c, nl);
    FirstLineEventAppend(r.c, x.c, t, nl);
    FireIfAppend(r, t, cap, r.c.cbs.onFirstLine, e);
    FirstLineThenHeaders(r, x, t, cap, nl, FireIf(r, r.c.cbs.onFirstLine, e));
  }

  lemma FirstLineThenHeaders(r: Run, x: Run, t: seq<byte>, cap: int, nl: int, r1: Run)
    requires Parsing(r.c) && r.c.state == 2 && r.c.closing == CloseDelay
    requires r.c.rb.start <= nl < |r.c.rb.bytes| && |r.c.rb.bytes| + |t| <= cap
    requires x == Extend(r, t, cap) && Parsing(x.c)
    requires FirstLineEvent(x.c, nl) == FirstLineEvent(r.c, nl)
    requires r1 == FireIf(r, r.c.cbs.onFirstLine, FirstLineEvent(r.c, nl))
    requires FireIf(x, r.c.cbs.onFirstLine, FirstLineEvent(r.c, nl)) == Extend(r1, t, cap)
    ensures FirstLineStep(x, nl) == Extend(FirstLineStep(r, nl), t, cap)
  {
  }

  lemma HeadersEndAppend(r: Run, t: seq<byte>, cap: int, nl: int)
    requires Parsing(r.c) && r.c.state == 3 && r.c.closing == CloseDelay
    requires r.c.rb.start <= nl < |r.c.rb.bytes| && |r.c.rb.bytes| + |t| <= cap
    requires Parsing(Extend(r, t, cap).c)
    ensures HeadersEndStep(Extend(r, t, cap), nl) == Extend(HeadersEndStep(r, nl), t, cap)
  {
    var s := r.c.rb.bytes;
    assert (s + t)[..nl + 1] == s[..nl + 1];
    FireIfAppend(Run(SkipLine(r.c, nl).(state := 4), r.pending), t, cap,
                 r.c.cbs.onHeadersEnd, HeadersEnd(s[..nl + 1]));
  }

  lemma HeaderLineAppend(r: Run, t: seq<byte>, cap: int, nl: int, end: int)
    requires Parsing(r.c) && r.c.state == 3 && r.c.closing == CloseDelay
    requires r.c.rb.start <= end <= nl < |r.c.rb.bytes| && |r.c.rb.bytes| + |t| <= cap
    requires Parsing(Extend(r, t, cap).c)
    ensures HeaderLineStep(Extend(r, t, cap), nl, end) == Extend(HeaderLineStep(r, nl, end), t, cap)
  {
    var x := Extend(r, t, cap);
    var s, st := r.c.rb.bytes, r.c.rb.start;
    var h := ReadHeader(s, st, end);
    ReadHeaderAppend(s, t, st, end);
    var r0 := Run(TakeHeader(r.c, end), r.pending);
    assert Run(TakeHeader(x.c, end), r.pending) == Extend(r0, t, cap);
    var e := Header(h.key, h.value, h.valueLength);
    FireIfAppend(r0, t, cap, r.c.cbs.onHeader, e);
    HeaderLineThenSkip(r, x, t, cap, nl, end, h, FireIf(r0, r.c.cbs.onHeader, e));
  }

  lemma HeaderLineThenSkip(r: Run, x: Run, t: seq<byte>, cap: int, nl: int, end: int,
                           h: HeaderFields, r1: Run)
    requires Parsing(r.c) && r.c.state == 3 && r.c.closing == CloseDelay
    requires r.c.rb.start <= end <= nl < |r.c.rb.bytes| && |r.c.rb.bytes| + |t| <= cap
    requires x == Extend(r, t, cap) && Parsing(x.c)
    requires h == ReadHeader(r.c.rb.bytes, r.c.rb.start, end)
    requires ReadHeader(x.c.rb.bytes, x.c.rb.start, end) == h.(bytes := h.bytes + t)
    requires r1 == FireIf(Run(TakeHeader(r.c, end), r.pending), r.c.cbs.onHeader, Header(h.key, h.value, h.valueLength))
    requires FireIf(Run(TakeHeader(x.c, end), r.pending), r.c.cbs.onHeader, Header(h.key, h.value, h.valueLength))
             == Extend(r1, t, cap)
    ensures HeaderLineStep(x, nl, end) == Extend(HeaderLineStep(r, nl, end), t, cap)
  {
  }

  /** Each step of phases 0 to 3 finds its delimiter in the bytes already
      buffered and reads nothing past it, so bytes appended later do not
      change what it does. */
  lemma StepAppend(r: Run, t: seq<byte>, cap: int)
    requires Parsing(r.c) && r.c.closing == CloseDelay && Fires(r.c)
    requires |r.c.rb.bytes| + |t| <= cap
    ensures Parsing(Extend(r, t, cap).c) && Fires(Extend(r, t, cap).c)
    ensures Step(Extend(r, t, cap)) == Extend(Step(r), t, cap)
  {
    var s, st := r.c.rb.bytes, r.c.rb.start;
    var d := Delim(r.c.state);
    var idx := FindFrom(s, st, d);
    FindFromAppend(s, t, st, d);
    var x := Extend(r, t, cap);
    assert x.c.rb.bytes == s + t;
    ExtendParsing(r, t, cap);
    if r.c.state <= 1 {
      TokenAppend(r, t, cap, idx);
      assert Step(x) == TokenStep(x, idx);
    } else if r.c.state == 2 {
      FirstLineAppend(r, t, cap, idx);
      assert Step(x) == FirstLineStep(x, idx);
    } else {
      var end := LineEnd(s, st, idx);
      assert LineEnd(s + t, st, idx) == end;
      assert Step(x) == HeaderStep(x, idx);
      if end == st {
        HeadersEndAppend(r, t, cap, idx);
      } else {
        HeaderLineAppend(r, t, cap, idx, end);
      }
    }
  }

  /** Phases 0 to 3 over two reads. Scanning what the first read buffered,
      appending the second read's bytes t and scanning on gives exactly the
      run that scanning all the bytes at once gives: the same callbacks in
      the same order with the same views, the same phase, cursor, scratch
      slots and body length. When a callback asked to close during the
      first scan, the later bytes are never looked at. */
  lemma {:induction false} ScanAppend(r: Run, t: seq<byte>, cap: int)
    requires Parsing(r.c) && r.c.closing == CloseDelay
    requires |r.c.rb.bytes| + |t| <= cap
    ensures |Scan(r).c.rb.bytes| == |r.c.rb.bytes|
    ensures Parsing(Extend(r, t, cap).c) && Parsing(Extend(Scan(r), t, cap).c)
    ensures var r1 := Scan(r);
      Scan(Extend(r, t, cap)) == if Aborted(r1) then Extend(r1, t, cap) else Scan(Extend(r1, t, cap))
    decreases |r.c.rb.bytes| - r.c.rb.start
  {
    ExtendParsing(r, t, cap);
    if Fires(r.c) {
      var r1 := Step(r);
      StepAppend(r, t, cap);
      if Aborted(r1) {
        assert Scan(r) == r1;
        ExtendParsing(r1, t, cap);
      } else {
        assert Scan(r) == Scan(r1);
        ScanAppend(r1, t, cap);
      }
    }
  }
}
