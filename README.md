# evhttpconn connection engine in Dafny

This project models the connection engine of evhttpconn, a small HTTP/1.x
library on top of libev. One `evhttp_connection_t` owns two growable byte
buffers:

- The read buffer receives what `read` returns. `on_read` parses the message
  in place, phase by phase:
  - phase 0: the first token, up to a space;
  - phase 1: the second token;
  - phase 2: the rest of the first line;
  - phase 3: the header lines, each `key: value`, up to the empty line;
  - phase 4: the body, either whole or in chunks;
  - phases 5 and 6: completion.

  It invokes the registered callbacks along the way: on_first_line,
  on_header, on_headers_end, on_chunk or on_complete_content, and
  on_complete.
- The write buffer collects what `evhttp_connection_send` is given. `on_write`
  drains it to the socket. `evhttp_connection_terminate` closes the
  connection once everything has been written.
- `evhttp_connection_close` stops both watchers, frees both buffers and
  invokes on_close at most once. While `on_read` is dispatching a callback, a
  close only records a request (`CLOSE_DELAY` becomes `CLOSE_REQESTED`), and
  on_read closes when it regains control.

The model has three layers:

- `ByteBuffer` (buffer.dfy): the buffer as a value (`View`) and as a class
  over an `array` (`Buffer`), with `buffer_make_space`'s doubling rule and
  `buffer_find_chr`.
- `HeaderLine` (header.dfy): the scans phase 3 runs over one header line. It
  holds reference definitions of the key and the trimmed value on the line's
  own bytes, the in-place lower-casing of the key, and strtol's
  decimal-prefix reading.
- `Engine` (engine.dfy): the whole connection as a value `Conn`, with one
  function per entry point.
  - Callbacks are recorded in a trace of `Event`s.
  - What each callback does (return, call close, call terminate) is a
    `Reaction` supplied as a parameter.
  - `read`'s and `write`'s results and allocation failure are parameters too.

Five further modules sit on top of these layers:

- `Connection` (connection.dfy): the connection as a class whose fields are
  updated in place. Every method is proved to move the object's abstract
  state (`Model()`) exactly as the engine function says.
- `PhaseSteps` (phases.dfy): what each parsing phase delivers to its
  callback, against the reference definitions.
- `BodyLength` (length.dfy): the content-length rule over a whole header
  block, and the strtol finding below.
- `Fragments` (fragments.dfy): parsing the first line and the headers gives
  the same result however the bytes are split across reads.
- `Properties` (properties.dfy): the invariant kept between calls, the trace
  only growing, on_close firing at most once over any history, and the order
  in which sent bytes reach the socket.

## Model

| member | source | states |
|---|---|---|
| ByteBuffer.FindFromLeast | evhttpconn.c:60-70 | the index found is the first occurrence at or after the cursor; when none is found, no byte after the cursor matches |
| ByteBuffer.FindFromAppend | evhttpconn.c:60-70 | a delimiter already buffered is found at the same index after more bytes arrive; one not buffered can only be found among the new bytes |
| ByteBuffer.Doubled | evhttpconn.c:54-55 | the doubling loop stops at the first size with n free bytes after size: the result leaves room and its half did not |
| ByteBuffer.CapacityBounds | evhttpconn.c:46-58 | the capacity asked for is at least 4096, never below the current capacity, and leaves n free bytes |
| ByteBuffer.MakeSpaceSpec | evhttpconn.c:32-58 | on success (0) the bytes and cursor are kept and n bytes are free; on failure (-1) the buffer is unchanged and only a failing realloc causes it |
| ByteBuffer.ReadKeepsBounds | evhttpconn.c:172-187 | making room for 4096 bytes and appending what read returned keeps the cursor within the buffered bytes and the earlier bytes in place |
| ByteBuffer.Buffer.Init | evhttpconn.c:18-24 | a new buffer is empty: no storage, cursor, size and capacity zero |
| ByteBuffer.Buffer.Free | evhttpconn.c:26-30 | freeing returns the buffer to the initial empty state |
| ByteBuffer.Buffer.Allocate | evhttpconn.c:32-44 | the bytes are kept; -1 exactly when the size changes and realloc fails, the capacity becomes n on success |
| ByteBuffer.Buffer.MakeSpace | evhttpconn.c:46-58 | the array-backed buffer ends in the state and return code MakeSpaceOn gives for its view |
| ByteBuffer.Buffer.Append | evhttpconn.c:152-153 | the data is added after the filled part and nothing else changes |
| ByteBuffer.Buffer.Reset | evhttpconn.c:383-384 | cursor and size go back to 0 with the storage kept |
| ByteBuffer.Buffer.Put | evhttpconn.c:292 | one filled byte is overwritten in place |
| ByteBuffer.Buffer.FindChr | evhttpconn.c:60-70 | the loop over the array returns the least index at or after the cursor holding c, or -1 |
| HeaderLine.ToLower | evhttpconn.c:292 | tolower maps A-Z to a-z and leaves every other byte alone |
| HeaderLine.LowerAllIgnoresCase | evhttpconn.c:287-294 | lower-casing makes two names equal exactly when they differ at most in the case of their ASCII letters |
| HeaderLine.NamesContentLength | evhttpconn.c:287-327 | the lowered key is content-length exactly when the header's name spells content-length in any mix of letter case |
| HeaderLine.SkipBlanksDrops | evhttpconn.c:279-285 | the blank-skipping loop stops where the line without its leading blanks begins |
| HeaderLine.KeyScanTakes | evhttpconn.c:287-294 | the key loop covers exactly the longest prefix free of ':', space and tab |
| HeaderLine.ColonScanFinds | evhttpconn.c:296-301 | the colon loop stops at the first ':' of the rest of the line, or at the line's end |
| HeaderLine.TrimBackDrops | evhttpconn.c:311-317 | the backward loop stops after the last non-blank byte of the value |
| HeaderLine.ValueTrimmed | evhttpconn.c:303-317 | after the colon, the forward skip and the backward trim select the rest of the line without blanks at either end |
| HeaderLine.HeaderKeySpec | evhttpconn.c:277-301 | the key span holds the name after the leading blanks, and the colon found is the line's first ':' |
| HeaderLine.KeyLoweringKeepsSpans | evhttpconn.c:287-317 | lower-casing the key in place does not change where the colon and the value are found |
| HeaderLine.ReadHeaderKey | evhttpconn.c:277-321 | the key passed to on_header is the lower-cased name after the leading blanks; no byte outside the line changes |
| HeaderLine.ReadHeaderValue | evhttpconn.c:296-323 | with a colon, the value is the rest of the line after the first colon with blanks trimmed at both ends, and its length is the value's length |
| HeaderLine.ReadHeaderNoColon | evhttpconn.c:303-323 | without a colon, the value is empty and its length is -1 |
| HeaderLine.ReadHeaderSpec | evhttpconn.c:277-323 | everything phase 3 makes of a header line (key, value, value length, the rest of the buffer), against the reference definitions on the line's own bytes |
| HeaderLine.ValueOfLine | evhttpconn.c:319-323 | the value read from the buffer with the key lowered is the value of the original line |
| HeaderLine.ScanHeader | evhttpconn.c:277-323 | the in-place scans over the buffer lower-case the key and return the spans ReadHeader describes |
| HeaderLine.SkipBlanksFrom | evhttpconn.c:279-285 | the blank-skipping loop over the array computes SkipBlanks |
| HeaderLine.LowerKey | evhttpconn.c:287-294 | the key loop lower-cases exactly the key span in place and stops at its end |
| HeaderLine.FindColon | evhttpconn.c:296-301 | the colon loop over the array computes ColonScan |
| HeaderLine.TrimBlanksBack | evhttpconn.c:311-317 | the backward loop over the array computes TrimBack |
| HeaderLine.ParseLong | evhttpconn.c:328 | strtol's result is negative only when a '-' follows the leading white space |
| HeaderLine.ParseLongDecimal | evhttpconn.c:328 | strtol reads back the decimal spelling of any n >= 0 whatever non-digit follows |
| Engine.Init | evhttpconn.c:84-123 | a new connection satisfies the invariant, is in phase 0 with the read watcher armed, the write watcher stopped and an empty trace |
| Engine.Close | evhttpconn.c:125-145 | inside a dispatch only the request is recorded; otherwise both watchers stop, both buffers are freed, and on_close is cleared before it is invoked once |
| Engine.Fire | evhttpconn.c:237-239 | a callback invoked during on_read appends its event and adds a Closed only if the event is Closed |
| Engine.FireIf | evhttpconn.c:222-239 | an unregistered callback changes nothing; a registered one changes only the trace, the terminate flag and the close request |
| Engine.LineEnd | evhttpconn.c:224-226 | the line ends at the newline, or one byte earlier exactly when that byte is a carriage return |
| Engine.Step | evhttpconn.c:189-342 | every parsing step keeps the parser's invariant, never moves the phase back and moves the cursor forward unless a callback asked to close |
| Engine.Scan | evhttpconn.c:189-343 | phases 0-3 stop only at a close request or when the current phase's delimiter is not buffered |
| Engine.HeaderLoopRound | evhttpconn.c:251 | one round of the header loop either ends it or continues from a strictly shorter unconsumed window |
| Engine.HeaderLoopIsScan | evhttpconn.c:248-343 | the phase-3 for loop computes the same as iterating the step |
| Engine.PhasesAreScan | evhttpconn.c:189-343 | the three straight-line blocks followed by the header loop compute the same as iterating the step from any phase |
| Engine.ScanByPhases | evhttpconn.c:189-343 | the run after the blocks and the loop, named step by step, is the scan |
| Engine.PhasesFromFiring | evhttpconn.c:189-246 | when the current block fires, the later blocks run from its result |
| Engine.NextContentLength | evhttpconn.c:325-332 | a length is set only while none is known, only by content-length, and only to a non-negative result of strtol on the value alone (the corrected rule of the finding below) |
| Engine.WholeContentStep | evhttpconn.c:353-365 | whole-content mode keeps the invariant and either waits in phase 4 or finishes in phase 5 |
| Engine.ChunkStep | evhttpconn.c:366-386 | chunk mode keeps the invariant and either stays in phase 4 or finishes in phase 5 |
| Engine.AddChunk | evhttpconn.c:378-385 | counting a chunk either finishes the body or keeps the phase |
| Engine.BodyStep | evhttpconn.c:345-388 | phase 4 keeps the invariant and moves only to phase 5 |
| Engine.DoneStep | evhttpconn.c:390-404 | phase 5 goes to 6 and stops the read watcher unless on_complete asked to close; other phases are untouched |
| Engine.Parse | evhttpconn.c:189-404 | parsing keeps the invariant, never moves back, and leaves the read watcher armed only in phases 0-4 |
| Engine.OnReadCases | evhttpconn.c:165-187 | on_read closes when the buffer cannot grow, ends the stream on an empty read, and otherwise parses the extended buffer |
| HeaderLine.LineSpansAppend | evhttpconn.c:279-317 | the scans of a header line find the same spans however many bytes are buffered after it |
| HeaderLine.ReadHeaderAppend | evhttpconn.c:277-323 | a header line gives the same key, value and value length however many bytes are buffered after it, and those bytes stay in place |
| Fragments.StepAppend | evhttpconn.c:189-342 | each step of phases 0-3 does the same, and finds its delimiter at the same place, when more bytes are buffered after it |
| Fragments.ScanAppend | evhttpconn.c:172-343 | parsing phases 0-3 over one read, then appending the next read and parsing on, gives exactly the callbacks, phase, cursor, scratch slots and body length of parsing both reads at once |
| PhaseSteps.TokenDelivers | evhttpconn.c:189-215 | phases 0 and 1 record the token as the bytes before the first space, skip the space, and phase 0 sets the length to unspecified (-1) |
| PhaseSteps.FirstLineEventSpec | evhttpconn.c:224-237 | on_first_line receives the two tokens and the rest of the line without one carriage return |
| PhaseSteps.FirstLineDelivers | evhttpconn.c:217-246 | on_first_line is invoked once if registered, then the headers start with the counter at 0 and the cursor past the newline |
| PhaseSteps.LineEndStrips | evhttpconn.c:256-257 | the line cut out of the buffer is the line without one trailing carriage return |
| PhaseSteps.HeaderStepCases | evhttpconn.c:253-275 | a line is the end of the headers exactly when it is empty once one carriage return is dropped |
| PhaseSteps.HeadersEndDelivers | evhttpconn.c:259-275 | the empty line moves to phase 4, and on_headers_end receives every byte up to and including its newline |
| PhaseSteps.HeaderLineDelivers | evhttpconn.c:277-341 | on_header receives the key, value and value length of the line, the body length follows the content-length rule, and the cursor passes the newline |
| PhaseSteps.WholeContentDelivers | evhttpconn.c:353-365 | once the explicit length is buffered, on_complete_content receives exactly that many first unconsumed bytes; before that nothing changes |
| PhaseSteps.ChunkDelivers | evhttpconn.c:366-386 | on_chunk receives every unconsumed byte; the counter grows by their number and the body ends exactly when an explicit length is reached, otherwise the buffer is emptied |
| PhaseSteps.AddChunkCounts | evhttpconn.c:378-385 | the counting after on_chunk: the counter, the end test and the buffer reset |
| PhaseSteps.DoneDelivers | evhttpconn.c:390-404 | phase 6, on_complete once if registered, and the read watcher stops unless a close was requested |
| PhaseSteps.ParseDone | evhttpconn.c:189-404 | a connection in phase 6 parses nothing more |
| PhaseSteps.StripCR | evhttpconn.c:256-257 | dropping a carriage return gives the line itself or the line minus one final CR |
| BodyLength.FirstLengthWins | evhttpconn.c:325-332 | over a header block the first content-length header strtol reads as non-negative sets the length; a known length stays; with no such header the length stays unknown |
| BodyLength.HeaderRoundLength | evhttpconn.c:253-341 | one round of the header loop only extends the trace, and the body length follows the header it reports |
| BodyLength.HeaderLoopLength | evhttpconn.c:248-343 | after the header loop the body length is the content-length rule folded over the headers on_header received, in order |
| BodyLength.NextContentLengthAsWritten | evhttpconn.c:325-332 | the as-written rule also sets a length only while none is known |
| BodyLength.StrtolReadsPastLine | evhttpconn.c:322-332 | for an empty content-length value followed by the body "42", the as-written rule gives 42 while the value read alone gives 0 |
| BodyLength.VerticalTabReadsPastLine | evhttpconn.c:303-332 | for a content-length value holding only a vertical tab, followed by the body "42", the value is not empty, yet the as-written rule gives 42 while the value read alone gives 0 |
| BodyLength.VerticalTabFields | evhttpconn.c:277-323 | in that example the key is content-length and the trimmed value is the vertical tab alone, not empty |
| BodyLength.VerticalTabRest | evhttpconn.c:303-328 | in that example the value pointer is the vertical tab and the bytes after it are still in place |
| BodyLength.SkipsVerticalTab | evhttpconn.c:328 | strtol skips a vertical tab and line ends and reads 42; on the vertical tab alone it reads 0 |
| BodyLength.ExampleRest | evhttpconn.c:322-328 | in that example the value pointer is the end of the line and the bytes after it are still in place |
| BodyLength.RestAfterColonAtEnd | evhttpconn.c:303-322 | for a line ending in its first colon, the value pointer is the end of the line and the rest of the buffer is untouched |
| BodyLength.SkipsLineEnds | evhttpconn.c:328 | strtol skips "\r\n\r\n" and reads 42 |
| BodyLength.LengthFromLineOnly | evhttpconn.c:319-332 | with the value read from the value alone, the length a header sets depends only on the bytes of its line |
| Properties.CloseKeepsIdle | evhttpconn.c:125-145 | close outside a dispatch shuts the connection down and adds one Closed exactly when on_close was still set |
| Properties.CloseTwice | evhttpconn.c:139-144 | closing again, including from on_close, changes nothing and on_close has fired at most once |
| Properties.TerminateKeepsIdle | evhttpconn.c:158-163 | terminate keeps the invariant and closes exactly when the write buffer is drained; otherwise it only sets the flag |
| Properties.SendKeepsIdle | evhttpconn.c:147-156 | send keeps the invariant and only extends the trace |
| Properties.OnWriteKeepsIdle | evhttpconn.c:413-433 | on_write keeps the invariant and only extends the trace |
| Properties.FireKeepsParsing | evhttpconn.c:237-239 | a parsing callback keeps the parser's invariant and records only its own event |
| Properties.EndOfStreamKeepsIdle | evhttpconn.c:178-186 | at the end of the stream on_complete runs if the body is in progress (phase 4), then the connection shuts down and on_close runs if still set; the invariant and the phase are kept |
| Properties.FinishKeepsIdle | evhttpconn.c:406-410 | the end of on_read lowers the guard; if a callback asked to close, the connection shuts down and on_close runs if still set, otherwise nothing else changes |
| Properties.OnReadKeepsIdle | evhttpconn.c:165-411 | on_read keeps the invariant, on_close has fired at most once, and the phase never moves back |
| Properties.SendAppends | evhttpconn.c:147-156 | send appends the data to the outgoing stream and arms the write watcher; -1 only on allocation failure, with nothing changed |
| Properties.OnWriteKeepsOrder | evhttpconn.c:413-433 | on_write moves the first sent bytes of the write buffer to the socket in order and the outgoing stream is unchanged; a write error closes |
| Properties.OnWriteDrains | evhttpconn.c:420-428 | a drained buffer closes a terminating connection and otherwise rewinds and stops the write watcher; a partial write leaves both as they were |
| Properties.TerminateThenDrain | evhttpconn.c:158-163 | terminate with bytes waiting does not close, and the on_write that sends the rest closes with every byte on the socket |
| Properties.StepExtends | evhttpconn.c:189-342 | a parsing step only appends to the trace |
| Properties.ScanExtends | evhttpconn.c:189-343 | phases 0-3 only append to the trace |
| Properties.BodyExtends | evhttpconn.c:345-388 | phase 4 only appends to the trace |
| Properties.ParseExtends | evhttpconn.c:189-404 | parsing only appends to the trace |
| Properties.EndOfStreamExtends | evhttpconn.c:178-186 | the end of the stream only appends to the trace |
| Properties.OnReadExtends | evhttpconn.c:165-411 | on_read only appends to the trace |
| Properties.Apply | evhttpconn.c:125-433 | every entry point the event loop or the program can call keeps the invariant and only appends to the trace |
| Properties.HistoryExtends | evhttpconn.c:125-145 | over any sequence of sends, terminates, closes, reads and writes the trace only grows and records at most one on_close |
| Properties.SilentAfterClose | evhttpconn.c:133-144 | once the read watcher is stopped and on_close cleared, no callback is ever invoked again, whatever follows |
| Properties.CloseIsFinal | evhttpconn.c:125-145 | after a close, on_close (if it fired) is the last callback ever invoked |
| Connection.Connection.Init | evhttpconn.c:84-123 | the object starts as Engine.Init says |
| Connection.Connection.Close | evhttpconn.c:125-145 | the object moves as Engine.Close says, including a close or terminate from on_close |
| Connection.Connection.Terminate | evhttpconn.c:158-163 | the object moves as Engine.Terminate says |
| Connection.Connection.Send | evhttpconn.c:147-156 | the object and return code are as Engine.Send says |
| Connection.Connection.OnWrite | evhttpconn.c:413-433 | the object moves as Engine.OnWrite says |
| Connection.Connection.OnRead | evhttpconn.c:165-411 | the object moves as Engine.OnRead says |
| Connection.Connection.ParseBuffered | evhttpconn.c:189-404 | the in-place parse moves the object as Engine.Parse says |
| Connection.Connection.ScanPhases | evhttpconn.c:189-343 | the blocks and the header loop move the object as Engine.Scan says |
| Connection.Connection.FirstLinePhases | evhttpconn.c:189-246 | the blocks for phases 0-2 move the object as the three Engine.Block steps say |
| Connection.Connection.HeaderPhase | evhttpconn.c:248-343 | the for loop over newlines moves the object as Engine.HeaderLoop says |
| Connection.Connection.HeaderLinePhase | evhttpconn.c:277-341 | a header line moves the object as Engine.HeaderLineStep says |
| Connection.Connection.TakeHeader | evhttpconn.c:277-332 | the in-place scans return the key, value and value length ReadHeader gives and apply the content-length rule |
| Connection.Connection.HeadersEndPhase | evhttpconn.c:259-275 | the empty line moves the object as Engine.HeadersEndStep says |
| Connection.Connection.FirstLinePhase | evhttpconn.c:217-246 | phase 2 moves the object as its Engine.Block says |
| Connection.Connection.BodyPhase | evhttpconn.c:345-388 | phase 4 moves the object as Engine.BodyStep says |
| Connection.Connection.WholeContent | evhttpconn.c:353-365 | whole-content mode moves the object as Engine.WholeContentStep says |
| Connection.Connection.ChunkContent | evhttpconn.c:366-386 | chunk mode moves the object as Engine.ChunkStep says |
| Connection.Connection.DonePhase | evhttpconn.c:390-404 | phase 5 moves the object as Engine.DoneStep says |
| Connection.Connection.EndOfStream | evhttpconn.c:178-186 | the end of the stream moves the object as Engine.EndOfStream says |

## Left out

- libev, `read` and `write`: the watchers are two flags. What `read` returns (bytes, or nothing for the end of the stream or an error) and what `write` reports (a count, or a negative error) are parameters of the entry points.
- `realloc` failure is a boolean parameter. The storage behind a freed buffer is not modelled beyond its view.
- Callbacks are modelled by what they do to the connection: return, call close, or call terminate. A callback that calls `evhttp_connection_send` is left out; send is modelled between dispatches only.
- The callback_data pointer and the file descriptor are not modelled.
- Integer widths: sizes, the capacity doubling and the chunk counter are unbounded integers. The 32-bit `int` overflow of `new_size <<= 1` and of `tmp[0] += len` is not modelled.
- HeaderLine.ParseLong: models strtol's sign and leading decimal digits only. It leaves out overflow to LONG_MAX, the `long` to `int` truncation and endptr.
- BodyLength.NextContentLengthAsWritten: models strtol reading past the value only up to the end of the buffered bytes. In C it can read memory past the buffer's size.
- Properties.SilentAfterClose: stated from a connection whose read watcher is stopped and whose on_close is cleared, which is the state close leaves. That on_close having fired implies the read watcher is stopped is not part of the invariant.
- Fragments.ScanAppend: independence from how `read` splits the stream is stated for phases 0-3 only. In chunk mode (phase 4) on_chunk receives what each read brought, so its events follow the reads by design; that whole-content mode and the completion are also independent is not stated.
- Engine.NextContentLength: the engine, and the class that follows it, use the corrected content-length rule of the finding below: strtol reads the header's value alone. This differs from evhttpconn.c:328, which BodyLength.NextContentLengthAsWritten models, on a content-length header whose value is empty (a line ending in its colon, or a line without a colon, whose value pointer lies past the line), or holds only bytes strtol skips as white space but the trim keeps (vertical tab, form feed, carriage return): there the source takes its digits from the following lines or the body.
- evhttp.c is an earlier copy of the same engine (its own buffer functions, and an on_read with phases 0-6); it is not part of this model, nor are evhttp.h and benchmark.c.

## Findings

| source | as written | input that shows it | evidently intended | confidence | as-written member | corrected member |
|---|---|---|---|---|---|---|
| evhttpconn.c:322-332 | `strtol(value.data, ...)` reads from the value's first byte with no regard for `value.length`. strtol skips white space, including CR, LF, vertical tab and form feed, while the trim of the value removes only spaces and tabs. So a content-length value that is empty, or holds only such bytes, takes its digits from the following lines or the body. | the buffered bytes `content-length:\r\n\r\n42`: the value is empty, yet the length becomes 42; likewise `content-length:\v\r\n\r\n42`, whose value is the vertical tab | the length is read from the header's value alone. The endptr check is marked TODO at line 331. The corrected rule gives 0 here, as strtol on the value alone would | not executed | BodyLength.NextContentLengthAsWritten, BodyLength.StrtolReadsPastLine, BodyLength.VerticalTabReadsPastLine | Engine.NextContentLength, BodyLength.LengthFromLineOnly |
