// The body length across the headers of one message: the first
// content-length header whose value strtol reads as a non-negative number
// sets it, and later ones are ignored.

module BodyLength {
  import opened ByteBuffer
  import opened HeaderLine
  import opened Engine
  import opened PhaseSteps

  /** A header that sets the body length while it is still unknown. */
  predicate SetsLength(h: (seq<byte>, seq<byte>)) {
    h.0 == ContentLength && ParseLong(h.1) >= 0
  }

  /** The body length after the headers hs, in order, starting from cl. */
  function LengthAfter(cl: int, hs: seq<(seq<byte>, seq<byte>)>): int
    decreases |hs|
  {
    if hs == [] then cl else LengthAfter(NextContentLength(cl, hs[0].0, hs[0].1), hs[1..])
  }

  /** Only the first header that sets the length counts: a length already
      known stays; otherwise it is that header's value, or stays unknown
      when no header sets it. */
  lemma {:induction false} FirstLengthWins(cl: int, hs: seq<(seq<byte>, seq<byte>)>)
    ensures cl >= 0 ==> LengthAfter(cl, hs) == cl
    ensures cl < 0 && (forall i :: 0 <= i < |hs| ==> !SetsLength(hs[i])) ==> LengthAfter(cl, hs) == cl
    ensures cl < 0 ==> forall i :: 0 <= i < |hs| && SetsLength(hs[i]) && (forall j :: 0 <= j < i ==> !SetsLength(hs[j])) ==>
      LengthAfter(cl, hs) == ParseLong(hs[i].1)
    decreases |hs|
  {
    if hs != [] {
      var cl1 := NextContentLength(cl, hs[0].0, hs[0].1);
      FirstLengthWins(cl1, hs[1..]);
      if cl < 0 && !SetsLength(hs[0]) {
        assert cl1 == cl;
        forall i | 0 <= i < |hs| && SetsLength(hs[i]) && (forall j :: 0 <= j < i ==> !SetsLength(hs[j]))
          ensures LengthAfter(cl, hs) == ParseLong(hs[i].1)
        {
          assert i > 0 && hs[1..][i - 1] == hs[i];
          assert forall j :: 0 <= j < i - 1 ==> !SetsLength(hs[1..][j]) by {
            forall j | 0 <= j < i - 1 ensures !SetsLength(hs[1..][j]) {
              assert hs[1..][j] == hs[j + 1];
            }
          }
        }
        if forall i :: 0 <= i < |hs| ==> !SetsLength(hs[i]) {
          assert forall i :: 0 <= i < |hs| - 1 ==> !SetsLength(hs[1..][i]) by {
            forall i | 0 <= i < |hs| - 1 ensures !SetsLength(hs[1..][i]) {
              assert hs[1..][i] == hs[i + 1];
            }
          }
        }
      }
    }
  }

  lemma {:induction false} LengthAfterAppend(cl: int, a: seq<(seq<byte>, seq<byte>)>, b: seq<(seq<byte>, seq<byte>)>)
    ensures LengthAfter(cl, a + b) == LengthAfter(LengthAfter(cl, a), b)
    decreases |a|
  {
    if a != [] {
      assert (a + b)[0] == a[0] && (a + b)[1..] == a[1..] + b;
      LengthAfterAppend(NextContentLength(cl, a[0].0, a[0].1), a[1..], b);
    } else {
      assert a + b == b;
    }
  }

  /** The names and values on_header received, in order. */
  function HeaderPairs(t: seq<Event>): (hs: seq<(seq<byte>, seq<byte>)>)
    ensures |hs| <= |t|
    decreases |t|
  {
    if t == [] then []
    else (if t[0].Header? then [(t[0].key, t[0].value)] else []) + HeaderPairs(t[1..])
  }

  lemma {:induction false} HeaderPairsAppend(a: seq<Event>, b: seq<Event>)
    ensures HeaderPairs(a + b) == HeaderPairs(a) + HeaderPairs(b)
    decreases |a|
  {
    if a != [] {
      assert (a + b)[0] == a[0] && (a + b)[1..] == a[1..] + b;
      HeaderPairsAppend(a[1..], b);
    } else {
      assert a + b == b;
    }
  }

  /** One round of the phase-3 loop with on_header registered: the trace
      only grows, and the body length follows the header it reports (the
      end of the headers reports none). */
  lemma HeaderRoundLength(r: Run, nl: int)
    requires Parsing(r.c) && r.c.state == 3 && r.c.closing == CloseDelay && r.c.cbs.onHeader
    requires r.c.rb.start <= nl < |r.c.rb.bytes|
    ensures var r1 := HeaderStep(r, nl);
      && |r.c.trace| <= |r1.c.trace| && r1.c.trace[..|r.c.trace|] == r.c.trace
      && r1.c.contentLength == LengthAfter(r.c.contentLength, HeaderPairs(r1.c.trace[|r.c.trace|..]))
  {
    var s, st := r.c.rb.bytes, r.c.rb.start;
    var end := LineEnd(s, st, nl);
    HeaderStepCases(r, nl);
    var r1 := HeaderStep(r, nl);
    if StripCR(s[st..nl]) == [] {
      HeadersEndDelivers(r, nl);
      var e := r1.c.trace[|r.c.trace|..];
      assert e == [] || e == [HeadersEnd(s[..nl + 1])];
      assert HeaderPairs(e) == [];
    } else {
      var h := ReadHeader(s, st, end);
      HeaderLineDelivers(r, nl, end, h);
      assert r1.c.trace[|r.c.trace|..] == [Header(h.key, h.value, h.valueLength)];
      assert HeaderPairs([Header(h.key, h.value, h.valueLength)]) == [(h.key, h.value)];
    }
  }

  /** on_read's phase-3 loop with on_header registered: the trace only
      grows, and the body length afterwards is LengthAfter over the headers
      reported, so FirstLengthWins applies to what on_header saw. */
  lemma {:induction false} HeaderLoopLength(r: Run)
    requires Parsing(r.c) && r.c.state == 3 && r.c.closing == CloseDelay && r.c.cbs.onHeader
    ensures var r' := HeaderLoop(r);
      && |r.c.trace| <= |r'.c.trace| && r'.c.trace[..|r.c.trace|] == r.c.trace
      && r'.c.contentLength == LengthAfter(r.c.contentLength, HeaderPairs(r'.c.trace[|r.c.trace|..]))
    decreases |r.c.rb.bytes| - r.c.rb.start
  {
    var t0 := r.c.trace;
    if Fires(r.c) {
      var nl := FindFrom(r.c.rb.bytes, r.c.rb.start, LF);
      var r1 := HeaderStep(r, nl);
      var next := RoundEnd(r1);
      HeaderLoopRound(r, nl, r1, next);
      HeaderRoundLength(r, nl);
      if next >= 0 {
        HeaderLoopLength(r1);
        var r2 := HeaderLoop(r1);
        ComposeRounds(t0, r1.c.trace, r2.c.trace, r.c.contentLength, r1.c.contentLength, r2.c.contentLength);
      }
    } else {
      assert HeaderLoop(r) == r;
      assert t0[|t0|..] == [];
    }
  }

  /** Two stretches of trace, each with the length it leads to, make one. */
  lemma ComposeRounds(t0: seq<Event>, t1: seq<Event>, t2: seq<Event>, cl0: int, cl1: int, cl2: int)
    requires |t0| <= |t1| && t1[..|t0|] == t0 && |t1| <= |t2| && t2[..|t1|] == t1
    requires cl1 == LengthAfter(cl0, HeaderPairs(t1[|t0|..]))
    requires cl2 == LengthAfter(cl1, HeaderPairs(t2[|t1|..]))
    ensures |t0| <= |t2| && t2[..|t0|] == t0
    ensures cl2 == LengthAfter(cl0, HeaderPairs(t2[|t0|..]))
  {
    assert t2[|t0|..] == t1[|t0|..] + t2[|t1|..];
    HeaderPairsAppend(t1[|t0|..], t2[|t1|..]);
    LengthAfterAppend(cl0, HeaderPairs(t1[|t0|..]), HeaderPairs(t2[|t1|..]));
  }

  // ---------------------------------------------------------------------
  // strtol on the value pointer

  /** The body length as the source computes it: strtol starts at the
      value's first byte but is not bounded by the value's length, so it
      reads on past the line into whatever is buffered after it (in C it
      would go on past the buffered bytes too; here it stops there). */
  function NextContentLengthAsWritten(current: int, s: seq<byte>, start: int, end: int): (cl: int)
    requires 0 <= start <= end < |s|
    ensures cl == current || (current < 0 && cl >= 0)
  {
    var h := ReadHeader(s, start, end);
    var n := ParseLong(h.bytes[LineSpans(s, start, end).valueStart..]);
    if current < 0 && h.key == ContentLength && n >= 0 then n else current
  }

  /** A request whose content-length header has an empty value, followed by
      the empty line and a body "42". */
  const EmptyLengthThenBody: seq<byte> :=
    ContentLength + [Colon, CR, LF, CR, LF, 52, 50]

  /** As written, the empty content-length value takes its number from the
      body: strtol skips the line ends and reads 42. The value on_header
      receives is empty, and read from it alone the length is 0. */
  lemma StrtolReadsPastLine()
    ensures var s := EmptyLengthThenBody;
      var h := ReadHeader(s, 0, 15);
      && h.key == ContentLength && h.value == []
      && NextContentLengthAsWritten(-1, s, 0, 15) == 42
      && NextContentLength(-1, h.key, h.value) == 0
  {
    var s := EmptyLengthThenBody;
    ExampleFields();
    ExampleRest();
    SkipsLineEnds();
    assert ParseLong([]) == 0;
  }

  /** The header line of the example: key "content-length", empty value. */
  lemma ExampleFields()
    ensures var h := ReadHeader(EmptyLengthThenBody, 0, 15);
      h.key == ContentLength && h.value == []
  {
    var s := EmptyLengthThenBody;
    var line := s[0..15];
    assert line == ContentLength + [Colon];
    ContentLengthIsName();
    assert ColonIndex(line) == 14 by {
      ColonsBefore(s, 0, 14, 15);
    }
    assert KeyPrefix(DropLeadingBlanks(line)) == ContentLength by {
      assert DropLeadingBlanks(line) == line;
      KeyPrefixStops(ContentLength, [Colon]);
    }
    assert LowerAll(ContentLength) == ContentLength;
    ReadHeaderSpec(s, 0, 15);
  }

  /** In the example, strtol starts right after the colon, where the line
      ends, and sees the rest of the buffer. */
  lemma ExampleRest()
    ensures var s := EmptyLengthThenBody;
      LineSpans(s, 0, 15).valueStart == 15 && ReadHeader(s, 0, 15).bytes[15..] == [13, 10, 13, 10, 52, 50]
  {
    var s := EmptyLengthThenBody;
    assert ColonIndex(s[0..15]) == 14 by {
      assert s[0..15] == ContentLength + [Colon];
      ContentLengthIsName();
      ColonsBefore(s, 0, 14, 15);
    }
    RestAfterColonAtEnd(s, 0, 15);
    assert s[15..] == [13, 10, 13, 10, 52, 50];
  }

  /** A content-length header whose value is a single vertical tab: the
      trim keeps it (only spaces and tabs are blanks), but strtol skips it as
      white space. */
  const VerticalTabThenBody: seq<byte> :=
    ContentLength + [Colon, 11, CR, LF, CR, LF, 52, 50]

  /** A value that is not empty still lets strtol read past the line when
      it holds only white space the trim keeps: as written the length is
      42, from the value alone it is 0. */
  lemma VerticalTabReadsPastLine()
    ensures var s := VerticalTabThenBody;
      var h := ReadHeader(s, 0, 16);
      && h.key == ContentLength && h.value == [11]
      && NextContentLengthAsWritten(-1, s, 0, 16) == 42
      && NextContentLength(-1, h.key, h.value) == 0
  {
    VerticalTabFields();
    VerticalTabRest();
    SkipsVerticalTab();
  }

  /** The header line of that example: key "content-length", value the
      vertical tab. */
  lemma VerticalTabFields()
    ensures var h := ReadHeader(VerticalTabThenBody, 0, 16);
      h.key == ContentLength && h.value == [11]
  {
    var s := VerticalTabThenBody;
    var line := s[0..16];
    assert line == ContentLength + [Colon, 11];
    ContentLengthIsName();
    assert ColonIndex(line) == 14 by {
      ColonsBefore(s, 0, 14, 16);
    }
    assert KeyPrefix(DropLeadingBlanks(line)) == ContentLength by {
      assert DropLeadingBlanks(line) == line;
      KeyPrefixStops(ContentLength, [Colon, 11]);
    }
    assert LowerAll(ContentLength) == ContentLength;
    ReadHeaderSpec(s, 0, 16);
    assert line[15..] == [11];
    assert Trim([11]) == [11];
  }

  /** In that example strtol starts at the vertical tab and sees the rest
      of the buffer. */
  lemma VerticalTabRest()
    ensures var s := VerticalTabThenBody;
      LineSpans(s, 0, 16).valueStart == 15 && ReadHeader(s, 0, 16).bytes[15..] == [11, 13, 10, 13, 10, 52, 50]
  {
    var s := VerticalTabThenBody;
    assert ColonIndex(s[0..16]) == 14 by {
      assert s[0..16] == ContentLength + [Colon, 11];
      ContentLengthIsName();
      ColonsBefore(s, 0, 14, 16);
    }
    HeaderKeySpec(s, 0, 16);
    var sp := LineSpans(s, 0, 16);
    assert s[15] == 11;
    assert sp.valueStart == 15;
    var h := ReadHeader(s, 0, 16);
    assert h.bytes == LowerRange(s, sp.keyStart, sp.keyEnd);
    assert h.bytes[15..] == s[15..];
  }

  /** strtol skips the vertical tab and the line ends and reads "42"; on
      the vertical tab alone it reads nothing, which is 0. */
  lemma SkipsVerticalTab()
    ensures ParseLong([11, 13, 10, 13, 10, 52, 50]) == 42 && ParseLong([11]) == 0
  {
    var w: seq<byte> := [11];
    var rest: seq<byte> := [13, 10, 13, 10, 52, 50];
    assert w + rest == [11, 13, 10, 13, 10, 52, 50];
    DropSpacesSkips(w, rest);
    SkipsLineEnds();
    assert DropSpaces([11]) == [];
  }

  /** A line whose first colon is its last byte: strtol's pointer is the end
      of the line, and everything after the line is still in place. */
  lemma RestAfterColonAtEnd(s: seq<byte>, start: int, end: int)
    requires 0 <= start < end <= |s| && ColonIndex(s[start..end]) == end - start - 1
    ensures LineSpans(s, start, end).valueStart == end && ReadHeader(s, start, end).bytes[end..] == s[end..]
  {
    HeaderKeySpec(s, start, end);
    ReadHeaderSpec(s, start, end);
  }

  /** The name the engine looks for has no delimiter, blank or upper-case
      byte. */
  lemma ContentLengthIsName()
    ensures forall j :: 0 <= j < |ContentLength| ==> !IsKeyDelim(ContentLength[j]) && !IsUpper(ContentLength[j])
  {
  }

  /** strtol skips the carriage returns and newlines and reads "42". */
  lemma SkipsLineEnds()
    ensures ParseLong([13, 10, 13, 10, 52, 50]) == 42
  {
    var w: seq<byte> := [13, 10, 13, 10];
    var d := DecimalString(42);
    assert d == [52, 50];
    assert w + d == [13, 10, 13, 10, 52, 50];
    DropSpacesSkips(w, d);
    ParseLongDecimal(42, []);
    assert d + [] == d;
  }

  /** strtol's leading white space does not change what it reads. */
  lemma {:induction false} DropSpacesSkips(w: seq<byte>, d: seq<byte>)
    requires forall j :: 0 <= j < |w| ==> IsSpace(w[j])
    ensures DropSpaces(w + d) == DropSpaces(d)
  {
    if w != [] {
      assert (w + d)[1..] == w[1..] + d;
      DropSpacesSkips(w[1..], d);
    } else {
      assert w + d == d;
    }
  }

  /** A name free of ':', space and tab, followed by a delimiter, is the key
      prefix. */
  lemma {:induction false} KeyPrefixStops(k: seq<byte>, rest: seq<byte>)
    requires forall j :: 0 <= j < |k| ==> !IsKeyDelim(k[j])
    requires rest != [] && IsKeyDelim(rest[0])
    ensures KeyPrefix(k + rest) == k
  {
    if k != [] {
      assert (k + rest)[1..] == k[1..] + rest;
      KeyPrefixStops(k[1..], rest);
    } else {
      assert k + rest == rest;
    }
  }

  /** With the value read from the value alone, the body length a header
      line sets depends only on the bytes of that line. */
  lemma LengthFromLineOnly(cl: int, s: seq<byte>, start: int, end: int, s': seq<byte>, start': int, end': int)
    requires 0 <= start <= end <= |s| && 0 <= start' <= end' <= |s'|
    requires s[start..end] == s'[start'..end']
    ensures var h, h' := ReadHeader(s, start, end), ReadHeader(s', start', end');
      && h.key == h'.key && h.value == h'.value && h.valueLength == h'.valueLength
      && NextContentLength(cl, h.key, h.value) == NextContentLength(cl, h'.key, h'.value)
  {
    ReadHeaderSpec(s, start, end);
    ReadHeaderSpec(s', start', end');
  }
}
