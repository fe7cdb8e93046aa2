// Byte-level pieces of header-line parsing in on_read: the blank, key and
// colon scans, the backward trim of the value, tolower on the key, and the
// strtol used for Content-Length. Each scan is stated against an independent
// reference definition on the line's bytes; ReadHeader sums up what one
// header line does, and ScanHeader performs it on the read buffer.

module HeaderLine {
  import opened ByteBuffer

  const Space: byte := 32
  const Tab: byte := 9
  const Colon: byte := 58
  const CR: byte := 13
  const LF: byte := 10

  /** The lower-cased header name the engine looks for, "content-length"
      in ASCII. */
  const ContentLength: seq<byte> := [99, 111, 110, 116, 101, 110, 116, 45, 108, 101, 110, 103, 116, 104]

  predicate IsBlank(b: byte) {
    b == Space || b == Tab
  }

  /** Bytes that end a header name: ':', space or tab. */
  predicate IsKeyDelim(b: byte) {
    b == Colon || b == Space || b == Tab
  }

  predicate IsUpper(b: byte) {
    65 <= b as int <= 90
  }

  /** tolower in the C locale. */
  function ToLower(b: byte): (r: byte)
    ensures !IsUpper(r)
    ensures IsUpper(b) ==> r as int == b as int + 32
    ensures !IsUpper(b) ==> r == b
  {
    if IsUpper(b) then b + 32 else b
  }

  function LowerAll(x: seq<byte>): (r: seq<byte>)
    ensures |r| == |x| && forall i :: 0 <= i < |x| ==> r[i] == ToLower(x[i])
  {
    seq(|x|, i requires 0 <= i < |x| => ToLower(x[i]))
  }

  /** s with the bytes [a, b) lower-cased in place, as the key loop does. */
  function LowerRange(s: seq<byte>, a: int, b: int): (r: seq<byte>)
    requires 0 <= a <= b <= |s|
    ensures |r| == |s|
  {
    seq(|s|, i requires 0 <= i < |s| => if a <= i < b then ToLower(s[i]) else s[i])
  }

  /** Two bytes that are the same letter in either case, or the same byte. */
  predicate SameLetter(a: byte, b: byte) {
    a == b || (IsUpper(a) && b as int == a as int + 32) || (IsUpper(b) && a as int == b as int + 32)
  }

  /** Two names that differ at most in the case of their ASCII letters. */
  predicate SameUpToCase(k: seq<byte>, k': seq<byte>) {
    |k| == |k'| && forall i :: 0 <= i < |k| ==> SameLetter(k[i], k'[i])
  }

  /** Lower-casing the key makes two names equal exactly when they differ
      at most in letter case: "Content-Length", "CONTENT-LENGTH" and
      "content-length" are one header, and no other name joins them. */
  lemma {:induction false} LowerAllIgnoresCase(k: seq<byte>, k': seq<byte>)
    ensures LowerAll(k) == LowerAll(k') <==> SameUpToCase(k, k')
  {
    if LowerAll(k) == LowerAll(k') {
      forall i | 0 <= i < |k|
        ensures SameLetter(k[i], k'[i])
      {
        assert ToLower(k[i]) == LowerAll(k)[i] == LowerAll(k')[i] == ToLower(k'[i]);
      }
    }
    if SameUpToCase(k, k') {
      forall i | 0 <= i < |k|
        ensures LowerAll(k)[i] == LowerAll(k')[i]
      {
        assert SameLetter(k[i], k'[i]);
      }
    }
  }

  /** The key the engine compares is "content-length" exactly when the
      header's name spells it in any mix of letter case. */
  lemma NamesContentLength(k: seq<byte>)
    ensures LowerAll(k) == ContentLength <==> SameUpToCase(k, ContentLength)
  {
    assert LowerAll(ContentLength) == ContentLength;
    LowerAllIgnoresCase(k, ContentLength);
  }

  // ---------------------------------------------------------------------
  // Reference definitions on the bytes of one line

  function DropLeadingBlanks(x: seq<byte>): (r: seq<byte>)
    ensures |r| <= |x|
    ensures r == [] || !IsBlank(r[0])
    ensures forall j :: 0 <= j < |x| - |r| ==> IsBlank(x[j])
  {
    if |x| > 0 && IsBlank(x[0]) then DropLeadingBlanks(x[1..]) else x
  }

  function DropTrailingBlanks(x: seq<byte>): (r: seq<byte>)
    ensures |r| <= |x| && (|r| > 0 ==> r[0] == x[0])
    ensures r == [] || !IsBlank(r[|r| - 1])
    ensures forall j :: |r| <= j < |x| ==> IsBlank(x[j])
  {
    if |x| > 0 && IsBlank(x[|x| - 1]) then DropTrailingBlanks(x[..|x| - 1]) else x
  }

  /** x without blanks at either end. */
  function Trim(x: seq<byte>): (r: seq<byte>)
    ensures r == [] || (!IsBlank(r[0]) && !IsBlank(r[|r| - 1]))
  {
    DropTrailingBlanks(DropLeadingBlanks(x))
  }

  /** The longest prefix of x holding no ':', space or tab. */
  function KeyPrefix(x: seq<byte>): (r: seq<byte>)
    ensures |r| <= |x| && r == x[..|r|]
    ensures forall j :: 0 <= j < |r| ==> !IsKeyDelim(r[j])
    ensures |r| < |x| ==> IsKeyDelim(x[|r|])
  {
    if |x| > 0 && !IsKeyDelim(x[0]) then [x[0]] + KeyPrefix(x[1..]) else []
  }

  /** The index of the first ':' in x, or |x| when there is none. */
  function ColonIndex(x: seq<byte>): (r: int)
    ensures 0 <= r <= |x|
    ensures r < |x| ==> x[r] == Colon
    ensures forall j :: 0 <= j < r ==> x[j] != Colon
  {
    if |x| == 0 then 0 else if x[0] == Colon then 0 else 1 + ColonIndex(x[1..])
  }

  // ---------------------------------------------------------------------
  // The scans as the source writes them, on absolute buffer indices

  /** The first index at or after i that is not a space or tab, stopping at
      end. */
  function SkipBlanks(s: seq<byte>, i: int, end: int): (r: int)
    requires 0 <= i && end <= |s|
    ensures r >= i && (i <= end ==> r <= end) && (i >= end ==> r == i)
    ensures r < end ==> !IsBlank(s[r])
    decreases end - i
  {
    if i < end && IsBlank(s[i]) then SkipBlanks(s, i + 1, end) else i
  }

  /** The key loop: stops at ':', space or tab. */
  function KeyScan(s: seq<byte>, i: int, end: int): (r: int)
    requires 0 <= i <= end <= |s|
    ensures i <= r <= end
    ensures r < end ==> IsKeyDelim(s[r])
    decreases end - i
  {
    if i < end && !IsKeyDelim(s[i]) then KeyScan(s, i + 1, end) else i
  }

  /** The loop that looks for the colon. */
  function ColonScan(s: seq<byte>, i: int, end: int): (r: int)
    requires 0 <= i <= end <= |s|
    ensures i <= r <= end
    ensures r < end ==> s[r] == Colon
    decreases end - i
  {
    if i < end && s[i] != Colon then ColonScan(s, i + 1, end) else i
  }

  /** The last index at or before idx that is not a space or tab, going no
      lower than vs. */
  function TrimBack(s: seq<byte>, vs: int, idx: int): (r: int)
    requires 0 <= vs && idx < |s|
    ensures r <= idx && (idx >= vs ==> r >= vs) && (idx <= vs ==> r == idx)
    ensures r > vs ==> !IsBlank(s[r])
    decreases idx
  {
    if idx > vs && IsBlank(s[idx]) then TrimBack(s, vs, idx - 1) else idx
  }

  /** Where the key and value of a header line [start, end) lie in the buffer.
      With no colon the value starts at end + 1 and ends at end, so its
      length is -1. */
  datatype Spans = Spans(keyStart: int, keyEnd: int, colon: int, valueStart: int, valueEnd: int)
  {
    function ValueLength(): int { valueEnd - valueStart }
  }

  function LineSpans(s: seq<byte>, start: int, end: int): (sp: Spans)
    requires 0 <= start <= end <= |s|
    ensures start <= sp.keyStart <= sp.keyEnd <= sp.colon <= end
    ensures sp.valueStart == sp.colon + 1 || sp.colon < sp.valueStart <= end
    ensures sp.colon < end ==> sp.valueStart <= sp.valueEnd <= end
    ensures sp.colon == end ==> sp.valueStart == end + 1 && sp.valueEnd == end
    ensures sp.colon < end ==> s[sp.colon] == Colon
  {
    var ks := SkipBlanks(s, start, end);
    var ke := KeyScan(s, ks, end);
    var co := ColonScan(s, ke, end);
    var vs := SkipBlanks(s, co + 1, end);
    var ve := TrimBack(s, vs, end - 1) + 1;
    Spans(ks, ke, co, vs, ve)
  }

  /** The value as an explicit-length view: empty when the length is -1. */
  function ValueView(s: seq<byte>, sp: Spans): seq<byte>
    requires 0 <= sp.valueStart && sp.valueEnd <= |s|
  {
    if sp.valueStart <= sp.valueEnd then s[sp.valueStart..sp.valueEnd] else []
  }

  // ---------------------------------------------------------------------
  // The scans agree with the reference definitions

  lemma {:induction false} SkipBlanksDrops(s: seq<byte>, i: int, end: int)
    requires 0 <= i <= end <= |s|
    ensures s[SkipBlanks(s, i, end)..end] == DropLeadingBlanks(s[i..end])
    decreases end - i
  {
    if i < end && IsBlank(s[i]) {
      assert s[i..end][1..] == s[i + 1..end];
      SkipBlanksDrops(s, i + 1, end);
    }
  }

  lemma {:induction false} KeyScanTakes(s: seq<byte>, i: int, end: int)
    requires 0 <= i <= end <= |s|
    ensures s[i..KeyScan(s, i, end)] == KeyPrefix(s[i..end])
    decreases end - i
  {
    if i < end && !IsKeyDelim(s[i]) {
      assert s[i..end][1..] == s[i + 1..end];
      KeyScanTakes(s, i + 1, end);
      assert s[i..KeyScan(s, i, end)] == [s[i]] + s[i + 1..KeyScan(s, i + 1, end)];
    }
  }

  lemma {:induction false} ColonScanFinds(s: seq<byte>, i: int, end: int)
    requires 0 <= i <= end <= |s|
    ensures ColonScan(s, i, end) == i + ColonIndex(s[i..end])
    decreases end - i
  {
    if i < end && s[i] != Colon {
      assert s[i..end][1..] == s[i + 1..end];
      ColonScanFinds(s, i + 1, end);
    }
  }

  lemma {:induction false} TrimBackDrops(s: seq<byte>, vs: int, end: int)
    requires 0 <= vs < end <= |s| && !IsBlank(s[vs])
    ensures s[vs..TrimBack(s, vs, end - 1) + 1] == DropTrailingBlanks(s[vs..end])
    decreases end
  {
    var x := s[vs..end];
    if end - 1 > vs && IsBlank(s[end - 1]) {
      assert x[..|x| - 1] == s[vs..end - 1];
      TrimBackDrops(s, vs, end - 1);
    } else {
      assert DropTrailingBlanks(x) == x;
    }
  }

  /** Header line [start, end): the key is the first run of non-delimiter
      bytes after the leading blanks, and the colon found is the first ':' of
      the line. */
  lemma HeaderKeySpec(s: seq<byte>, start: int, end: int)
    requires 0 <= start <= end <= |s|
    ensures var sp := LineSpans(s, start, end);
      && s[sp.keyStart..sp.keyEnd] == KeyPrefix(DropLeadingBlanks(s[start..end]))
      && sp.colon == start + ColonIndex(s[start..end])
  {
    var sp := LineSpans(s, start, end);
    SkipBlanksDrops(s, start, end);
    KeyScanTakes(s, sp.keyStart, end);
    ColonScanFinds(s, sp.keyEnd, end);
    assert forall j :: start <= j < sp.keyEnd ==> s[j] != Colon by {
      SkipBlanksSkips(s, start, end);
      KeyScanSkips(s, sp.keyStart, end);
    }
    ColonsBefore(s, start, sp.keyEnd, end);
  }

  /** The bytes the blank skip passes over are blanks. */
  lemma {:induction false} SkipBlanksSkips(s: seq<byte>, i: int, end: int)
    requires 0 <= i && end <= |s|
    ensures forall j :: i <= j < SkipBlanks(s, i, end) ==> IsBlank(s[j])
    decreases end - i
  {
    if i < end && IsBlank(s[i]) {
      SkipBlanksSkips(s, i + 1, end);
    }
  }

  /** The bytes the key loop passes over are not delimiters. */
  lemma {:induction false} KeyScanSkips(s: seq<byte>, i: int, end: int)
    requires 0 <= i <= end <= |s|
    ensures forall j :: i <= j < KeyScan(s, i, end) ==> !IsKeyDelim(s[j])
    decreases end - i
  {
    if i < end && !IsKeyDelim(s[i]) {
      KeyScanSkips(s, i + 1, end);
    }
  }

  /** After a colon at co, the blank skip and the backward trim select
      Trim of the rest of the line. */
  lemma {:induction false} ValueTrimmed(s: seq<byte>, co: int, end: int, vs: int, ve: int)
    requires 0 <= co < end <= |s|
    requires vs == SkipBlanks(s, co + 1, end) && ve == TrimBack(s, vs, end - 1) + 1
    ensures vs <= ve && s[vs..ve] == Trim(s[co + 1..end])
  {
    var x := s[co + 1..end];
    SkipBlanksDrops(s, co + 1, end);
    assert DropLeadingBlanks(x) == s[vs..end];
    if vs < end {
      TrimBackDrops(s, vs, end);
      assert Trim(x) == DropTrailingBlanks(s[vs..end]);
    } else {
      assert DropLeadingBlanks(x) == [];
      assert Trim(x) == [];
      assert TrimBack(s, vs, end - 1) + 1 == vs;
    }
  }

  /** A colon-free stretch [start, mid) shifts the first colon by its length. */
  lemma {:induction false} ColonsBefore(s: seq<byte>, start: int, mid: int, end: int)
    requires 0 <= start <= mid <= end <= |s|
    requires forall j :: start <= j < mid ==> s[j] != Colon
    ensures ColonIndex(s[start..end]) == (mid - start) + ColonIndex(s[mid..end])
    decreases mid - start
  {
    if start < mid {
      assert s[start..end][1..] == s[start + 1..end];
      ColonsBefore(s, start + 1, mid, end);
    }
  }

  /** The forward scans only look at [i, end): on two buffers that agree
      there they stop at the same place. The in-place lower-casing of the key
      therefore does not disturb the scans after it. */
  lemma {:induction false} SkipBlanksLocal(s: seq<byte>, t: seq<byte>, i: int, end: int)
    requires 0 <= i && end <= |s| && end <= |t|
    requires forall j :: i <= j < end ==> s[j] == t[j]
    ensures SkipBlanks(s, i, end) == SkipBlanks(t, i, end)
    decreases end - i
  {
    if i < end {
      SkipBlanksLocal(s, t, i + 1, end);
    }
  }

  lemma {:induction false} ColonScanLocal(s: seq<byte>, t: seq<byte>, i: int, end: int)
    requires 0 <= i <= end && end <= |s| && end <= |t|
    requires forall j :: i <= j < end ==> s[j] == t[j]
    ensures ColonScan(s, i, end) == ColonScan(t, i, end)
    decreases end - i
  {
    if i < end {
      ColonScanLocal(s, t, i + 1, end);
    }
  }

  /** The backward trim only looks at (vs, idx]. */
  lemma {:induction false} TrimBackLocal(s: seq<byte>, t: seq<byte>, vs: int, idx: int)
    requires 0 <= vs && idx < |s| && idx < |t|
    requires forall j :: vs < j <= idx ==> s[j] == t[j]
    ensures TrimBack(s, vs, idx) == TrimBack(t, vs, idx)
    decreases idx
  {
    if idx > vs {
      TrimBackLocal(s, t, vs, idx - 1);
    }
  }

  /** The scans after the key read the buffer with the key already
      lower-cased (t agrees with s from the key's end on), and still find
      the spans of the original line. */
  lemma KeyLoweringKeepsSpans(s: seq<byte>, t: seq<byte>, start: int, end: int,
                               ks: int, ke: int, co: int, vs: int, last: int)
    requires 0 <= start <= end <= |s|
    requires ks == SkipBlanks(s, start, end) && ke == KeyScan(s, ks, end)
    requires |t| == |s| && forall j :: ke <= j < |s| ==> t[j] == s[j]
    requires co == ColonScan(t, ke, end) && vs == SkipBlanks(t, co + 1, end)
    requires last == TrimBack(t, vs, end - 1)
    ensures Spans(ks, ke, co, vs, last + 1) == LineSpans(s, start, end)
  {
    assert co == ColonScan(s, ke, end) by {
      ColonScanLocal(s, t, ke, end);
    }
    assert vs == SkipBlanks(s, co + 1, end) by {
      SkipBlanksLocal(s, t, co + 1, end);
    }
    assert last == TrimBack(s, vs, end - 1) by {
      TrimBackLocal(s, t, vs, end - 1);
    }
  }

  lemma {:induction false} KeyScanLocal(s: seq<byte>, t: seq<byte>, i: int, end: int)
    requires 0 <= i <= end && end <= |s| && end <= |t|
    requires forall j :: i <= j < end ==> s[j] == t[j]
    ensures KeyScan(s, i, end) == KeyScan(t, i, end)
    decreases end - i
  {
    if i < end {
      KeyScanLocal(s, t, i + 1, end);
    }
  }

  /** The scans of a line [start, end) read only its bytes: bytes appended
      to the buffer after it leave the spans where they were. */
  lemma LineSpansAppend(s: seq<byte>, t: seq<byte>, start: int, end: int)
    requires 0 <= start <= end <= |s|
    ensures LineSpans(s + t, start, end) == LineSpans(s, start, end)
  {
    var ks := SkipBlanks(s, start, end);
    var ke := KeyScan(s, ks, end);
    var co := ColonScan(s, ke, end);
    var vs := SkipBlanks(s, co + 1, end);
    ScansAppend(s, t, start, end, ks, ke, co, vs);
  }

  /** Each scan of LineSpans, over s and over s + t. */
  lemma ScansAppend(s: seq<byte>, t: seq<byte>, start: int, end: int, ks: int, ke: int, co: int, vs: int)
    requires 0 <= start <= end <= |s|
    requires ks == SkipBlanks(s, start, end) && ke == KeyScan(s, ks, end)
    requires co == ColonScan(s, ke, end) && vs == SkipBlanks(s, co + 1, end)
    ensures SkipBlanks(s + t, start, end) == ks && KeyScan(s + t, ks, end) == ke
    ensures ColonScan(s + t, ke, end) == co && SkipBlanks(s + t, co + 1, end) == vs
    ensures TrimBack(s + t, vs, end - 1) == TrimBack(s, vs, end - 1)
  {
    var u := s + t;
    assert forall j :: 0 <= j < end ==> s[j] == u[j];
    SkipBlanksLocal(s, u, start, end);
    KeyScanLocal(s, u, ks, end);
    ColonScanLocal(s, u, ke, end);
    SkipBlanksLocal(s, u, co + 1, end);
    TrimBackLocal(s, u, vs, end - 1);
  }

  /** Lower-casing a range commutes with appending bytes after it. */
  lemma LowerRangeAppend(s: seq<byte>, t: seq<byte>, a: int, b: int)
    requires 0 <= a <= b <= |s|
    ensures LowerRange(s + t, a, b) == LowerRange(s, a, b) + t
  {
    assert forall i :: 0 <= i < |s| + |t| ==> LowerRange(s + t, a, b)[i] == (LowerRange(s, a, b) + t)[i];
  }

  /** What phase 3 makes of a header line [start, end) of the buffer s: the
      buffer with the key lower-cased in place, the key, the value and the
      value length passed to on_header. */
  datatype HeaderFields = HeaderFields(bytes: seq<byte>, key: seq<byte>, value: seq<byte>, valueLength: int)

  function ReadHeader(s: seq<byte>, start: int, end: int): (h: HeaderFields)
    requires 0 <= start <= end <= |s|
    ensures |h.bytes| == |s|
    ensures h.valueLength >= -1
  {
    var sp := LineSpans(s, start, end);
    var lowered := LowerRange(s, sp.keyStart, sp.keyEnd);
    HeaderFields(lowered, lowered[sp.keyStart..sp.keyEnd], ValueView(lowered, sp), sp.ValueLength())
  }

  /** ReadHeader in terms of the spans of the line and the buffer with the
      key lower-cased. */
  lemma ReadHeaderFrom(s: seq<byte>, start: int, end: int, sp: Spans, t: seq<byte>)
    requires 0 <= start <= end <= |s|
    requires sp == LineSpans(s, start, end) && t == LowerRange(s, sp.keyStart, sp.keyEnd)
    ensures ReadHeader(s, start, end) == HeaderFields(t, t[sp.keyStart..sp.keyEnd], ValueView(t, sp), sp.ValueLength())
  {
  }

  /** A header line reads the same however much is buffered after it: the
      key, the value and its length are unchanged, and the appended bytes
      stay as they were behind the line. */
  lemma ReadHeaderAppend(s: seq<byte>, t: seq<byte>, start: int, end: int)
    requires 0 <= start <= end <= |s|
    ensures var h := ReadHeader(s, start, end);
      ReadHeader(s + t, start, end) == h.(bytes := h.bytes + t)
  {
    var sp := LineSpans(s, start, end);
    LineSpansAppend(s, t, start, end);
    LowerRangeAppend(s, t, sp.keyStart, sp.keyEnd);
    var lowered := LowerRange(s, sp.keyStart, sp.keyEnd);
    assert (lowered + t)[sp.keyStart..sp.keyEnd] == lowered[sp.keyStart..sp.keyEnd];
    assert ValueView(lowered + t, sp) == ValueView(lowered, sp);
  }

  /** The key of a header line [start, end), against the reference
      definitions: the name after the leading blanks, up to ':', space or
      tab, lower-cased in place; no byte outside the line changes. */
  lemma ReadHeaderKey(s: seq<byte>, start: int, end: int)
    requires 0 <= start <= end <= |s|
    ensures var h := ReadHeader(s, start, end);
      && h.key == LowerAll(KeyPrefix(DropLeadingBlanks(s[start..end])))
      && h.bytes[..start] == s[..start] && h.bytes[end..] == s[end..]
  {
    var sp := LineSpans(s, start, end);
    var t := LowerRange(s, sp.keyStart, sp.keyEnd);
    ReadHeaderFrom(s, start, end, sp, t);
    HeaderKeySpec(s, start, end);
    LoweredKey(s, t, sp.keyStart, sp.keyEnd, start, end);
  }

  /** The lowered key in place: [ks, ke) lower-cased, the rest unchanged. */
  lemma LoweredKey(s: seq<byte>, t: seq<byte>, ks: int, ke: int, start: int, end: int)
    requires 0 <= start <= ks <= ke <= end <= |s|
    requires t == LowerRange(s, ks, ke)
    ensures t[ks..ke] == LowerAll(s[ks..ke])
    ensures t[..start] == s[..start] && t[end..] == s[end..]
  {
    assert t[ks..ke] == LowerAll(s[ks..ke]);
  }

  /** The value of a header line [start, end) whose first colon is at co,
      against the reference definitions: the rest of the line after that
      colon without blanks at either end. */
  lemma ReadHeaderValue(s: seq<byte>, start: int, end: int, co: int)
    requires 0 <= start <= end <= |s|
    requires co == start + ColonIndex(s[start..end]) && co < end
    ensures var h := ReadHeader(s, start, end);
      h.value == Trim(s[co + 1..end]) && h.valueLength == |h.value|
  {
    var sp := LineSpans(s, start, end);
    LineColon(s, start, end);
    SpansValueTrimmed(s, start, end, sp, co);
    ValueOfLine(s, start, end, sp);
  }

  /** The colon span of a line is its first colon. */
  lemma LineColon(s: seq<byte>, start: int, end: int)
    requires 0 <= start <= end <= |s|
    ensures LineSpans(s, start, end).colon == start + ColonIndex(s[start..end])
  {
    HeaderKeySpec(s, start, end);
  }

  /** The value span of a line with a colon holds Trim of the rest of the
      line after the colon. */
  lemma SpansValueTrimmed(s: seq<byte>, start: int, end: int, sp: Spans, co: int)
    requires 0 <= start <= end <= |s| && sp == LineSpans(s, start, end) && co == sp.colon < end
    ensures sp.valueStart <= sp.valueEnd && ValueView(s, sp) == Trim(s[co + 1..end])
    ensures |ValueView(s, sp)| == sp.ValueLength()
  {
    ValueTrimmed(s, co, end, sp.valueStart, sp.valueEnd);
  }

  /** A header line without a colon gives an empty value of length -1. */
  lemma ReadHeaderNoColon(s: seq<byte>, start: int, end: int)
    requires 0 <= start <= end <= |s|
    requires ColonIndex(s[start..end]) == end - start
    ensures ReadHeader(s, start, end).value == [] && ReadHeader(s, start, end).valueLength == -1
  {
    HeaderKeySpec(s, start, end);
  }

  /** Everything phase 3 makes of a header line [start, end), against the
      reference definitions on the line's own bytes: the lower-cased key;
      with a colon, the trimmed rest of the line and its length; without
      one, an empty value of length -1. No byte outside the line changes. */
  lemma ReadHeaderSpec(s: seq<byte>, start: int, end: int)
    requires 0 <= start <= end <= |s|
    ensures var h := ReadHeader(s, start, end);
      var line := s[start..end];
      var ci := ColonIndex(line);
      && h.key == LowerAll(KeyPrefix(DropLeadingBlanks(line)))
      && (ci < |line| ==> h.value == Trim(line[ci + 1..]) && h.valueLength == |h.value|)
      && (ci == |line| ==> h.value == [] && h.valueLength == -1)
      && h.bytes[..start] == s[..start] && h.bytes[end..] == s[end..]
  {
    ReadHeaderKey(s, start, end);
    ReadHeaderValueCases(s, start, end);
  }

  /** The value half of ReadHeaderSpec. */
  lemma ReadHeaderValueCases(s: seq<byte>, start: int, end: int)
    requires 0 <= start <= end <= |s|
    ensures var h := ReadHeader(s, start, end);
      var line := s[start..end];
      var ci := ColonIndex(line);
      && (ci < |line| ==> h.value == Trim(line[ci + 1..]) && h.valueLength == |h.value|)
      && (ci == |line| ==> h.value == [] && h.valueLength == -1)
  {
    var line := s[start..end];
    var ci := ColonIndex(line);
    if ci < |line| {
      RestOfLine(s, start, end, ci);
      ReadHeaderValue(s, start, end, start + ci);
    } else {
      ReadHeaderNoColon(s, start, end);
    }
  }

  /** The rest of a line after its k-th byte, read off the buffer. */
  lemma RestOfLine(s: seq<byte>, start: int, end: int, k: int)
    requires 0 <= start <= start + k < end <= |s|
    ensures s[start..end][k + 1..] == s[start + k + 1..end]
  {
  }

  /** The value read from the buffer with the key lowered is the value of
      the original line: the key lies before the colon. */
  lemma ValueOfLine(s: seq<byte>, start: int, end: int, sp: Spans)
    requires 0 <= start <= end <= |s| && sp == LineSpans(s, start, end)
    ensures ReadHeader(s, start, end).value == ValueView(s, sp)
    ensures ReadHeader(s, start, end).valueLength == sp.ValueLength()
  {
    var t := LowerRange(s, sp.keyStart, sp.keyEnd);
    ReadHeaderFrom(s, start, end, sp, t);
    if sp.valueStart <= sp.valueEnd {
      assert t[sp.valueStart..sp.valueEnd] == s[sp.valueStart..sp.valueEnd];
    }
  }

  /** The scans over a header line [start, end): blanks, the key (lower-cased
      in place), up to the colon, blanks, and the value's trailing blanks
      from the back. */
  method ScanHeader(b: Buffer, start: int, end: int) returns (sp: Spans)
    requires b.Valid() && 0 <= start <= end <= b.size
    modifies b, b.data
    ensures b.Valid() && b.data == old(b.data)
    ensures b.ToView() == old(b.ToView()).(bytes := b.bytes)
    ensures 0 <= sp.keyStart <= sp.keyEnd <= b.size
    ensures 0 <= sp.valueStart && sp.valueEnd <= b.size
    ensures var h := ReadHeader(old(b.bytes), start, end);
      && h.bytes == b.bytes && h.key == b.bytes[sp.keyStart..sp.keyEnd]
      && h.value == ValueView(b.bytes, sp) && h.valueLength == sp.ValueLength()
  {
    ghost var s := b.bytes;
    var keyStart := SkipBlanksFrom(b, start, end);
    var keyEnd := LowerKey(b, keyStart, end);
    var colon := FindColon(b, keyEnd, end);
    var valueStart := SkipBlanksFrom(b, colon + 1, end);
    var last := TrimBlanksBack(b, valueStart, end - 1);
    KeyLoweringKeepsSpans(s, b.bytes, start, end, keyStart, keyEnd, colon, valueStart, last);
    sp := Spans(keyStart, keyEnd, colon, valueStart, last + 1);
    ReadHeaderFrom(s, start, end, sp, b.bytes);
  }

  /** Skip spaces and tabs in [i, end). */
  method SkipBlanksFrom(b: Buffer, i: int, end: int) returns (j: int)
    requires b.Valid() && 0 <= i && end <= b.size
    ensures j == SkipBlanks(b.bytes, i, end)
  {
    j := i;
    while j < end && IsBlank(b.data[j])
      invariant i <= j && (j <= end || j == i)
      invariant SkipBlanks(b.bytes, j, end) == SkipBlanks(b.bytes, i, end)
      decreases end - j
    {
      j := j + 1;
    }
  }

  /** The key loop: lower-case in place up to ':', space or tab. */
  method LowerKey(b: Buffer, keyStart: int, end: int) returns (keyEnd: int)
    requires b.Valid() && 0 <= keyStart <= end <= b.size
    modifies b, b.data
    ensures b.Valid() && b.data == old(b.data)
    ensures b.ToView() == old(b.ToView()).(bytes := b.bytes)
    ensures keyEnd == KeyScan(old(b.bytes), keyStart, end)
    ensures b.bytes == LowerRange(old(b.bytes), keyStart, keyEnd)
  {
    ghost var s := b.bytes;
    keyEnd := keyStart;
    while keyEnd < end && !IsKeyDelim(b.data[keyEnd])
      invariant keyStart <= keyEnd <= end
      invariant b.Valid() && b.data == old(b.data)
      invariant b.ToView() == old(b.ToView()).(bytes := b.bytes)
      invariant KeyScan(s, keyEnd, end) == KeyScan(s, keyStart, end)
      invariant b.bytes == LowerRange(s, keyStart, keyEnd)
      decreases end - keyEnd
    {
      b.Put(keyEnd, ToLower(b.data[keyEnd]));
      keyEnd := keyEnd + 1;
    }
  }

  /** Look for the colon in [i, end); end when there is none. */
  method FindColon(b: Buffer, i: int, end: int) returns (j: int)
    requires b.Valid() && 0 <= i <= end <= b.size
    ensures j == ColonScan(b.bytes, i, end)
  {
    j := i;
    while j < end && b.data[j] != Colon
      invariant i <= j <= end
      invariant ColonScan(b.bytes, j, end) == ColonScan(b.bytes, i, end)
      decreases end - j
    {
      j := j + 1;
    }
  }

  /** Step back from idx over spaces and tabs, not going below vs. */
  method TrimBlanksBack(b: Buffer, vs: int, idx: int) returns (j: int)
    requires b.Valid() && 0 <= vs && idx < b.size
    ensures j == TrimBack(b.bytes, vs, idx)
  {
    j := idx;
    while j > vs && IsBlank(b.data[j])
      invariant j <= idx
      invariant TrimBack(b.bytes, vs, j) == TrimBack(b.bytes, vs, idx)
      decreases j
    {
      j := j - 1;
    }
  }

  // ---------------------------------------------------------------------
  // strtol(value, &endptr, 10), leading-decimal-digits behaviour only

  /** isspace in the C locale. */
  predicate IsSpace(b: byte) {
    b == Space || (9 <= b as int <= 13)
  }

  predicate IsDigit(b: byte) {
    48 <= b as int <= 57
  }

  function DropSpaces(x: seq<byte>): (r: seq<byte>)
    ensures |r| <= |x| && r == x[|x| - |r|..]
    ensures r == [] || !IsSpace(r[0])
  {
    if |x| > 0 && IsSpace(x[0]) then DropSpaces(x[1..]) else x
  }

  function DigitPrefix(x: seq<byte>): (r: seq<byte>)
    ensures |r| <= |x| && r == x[..|r|]
    ensures forall j :: 0 <= j < |r| ==> IsDigit(r[j])
    ensures |r| < |x| ==> !IsDigit(x[|r|])
  {
    if |x| > 0 && IsDigit(x[0]) then [x[0]] + DigitPrefix(x[1..]) else []
  }

  function DecimalValue(d: seq<byte>): (r: int)
    requires forall j :: 0 <= j < |d| ==> IsDigit(d[j])
    ensures r >= 0
  {
    if d == [] then 0
    else
      assert IsDigit(d[|d| - 1]);
      DecimalValue(d[..|d| - 1]) * 10 + (d[|d| - 1] as int - 48)
  }

  /** strtol: skip white space, an optional sign, then the decimal digits. */
  function ParseLong(x: seq<byte>): (r: int)
    ensures r < 0 ==> DropSpaces(x) != [] && DropSpaces(x)[0] == 45
  {
    var t := DropSpaces(x);
    if |t| > 0 && t[0] == 45 then -DecimalValue(DigitPrefix(t[1..]))
    else if |t| > 0 && t[0] == 43 then DecimalValue(DigitPrefix(t[1..]))
    else DecimalValue(DigitPrefix(t))
  }

  /** The shortest decimal spelling of n. */
  function DecimalString(n: nat): (r: seq<byte>)
    ensures |r| > 0 && forall j :: 0 <= j < |r| ==> IsDigit(r[j])
  {
    if n < 10 then [(48 + n) as byte] else DecimalString(n / 10) + [(48 + n % 10) as byte]
  }

  lemma {:induction false} DecimalValueOfString(n: nat)
    ensures DecimalValue(DecimalString(n)) == n
  {
    var d := DecimalString(n);
    if n >= 10 {
      DecimalValueOfString(n / 10);
      assert d[..|d| - 1] == DecimalString(n / 10);
    }
  }

  lemma {:induction false} DigitPrefixStops(d: seq<byte>, rest: seq<byte>)
    requires forall j :: 0 <= j < |d| ==> IsDigit(d[j])
    requires rest == [] || !IsDigit(rest[0])
    ensures DigitPrefix(d + rest) == d
  {
    if d != [] {
      assert (d + rest)[1..] == d[1..] + rest;
      DigitPrefixStops(d[1..], rest);
    }
  }

  /** strtol reads back the decimal spelling of any n >= 0, whatever
      non-digit byte follows it. */
  lemma ParseLongDecimal(n: nat, rest: seq<byte>)
    requires rest == [] || !IsDigit(rest[0])
    ensures ParseLong(DecimalString(n) + rest) == n
  {
    var d := DecimalString(n);
    assert DropSpaces(d + rest) == d + rest by {
      assert (d + rest)[0] == d[0] && IsDigit(d[0]);
    }
    DigitPrefixStops(d, rest);
    DecimalValueOfString(n);
  }
}
