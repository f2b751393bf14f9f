/**
 * The general-query-log reader (mygl/reader.go:50-161): `ReadEntry` as a
 * pure function of the unread input and the last time seen.
 *
 * The input is a `Stream`: the bytes still to be read, and how the
 * underlying reader ends once they are exhausted (cleanly, or with a read
 * error, which then repeats on every later read).  `ReadLine` is
 * `ReadString('\n')`, `Peek` is `Peek(64)`.
 *
 * Time parsing (`time.Parse` with layout "060102 15:04:05") is a
 * parameter: any partial function from the time column to a timestamp.
 */
module Reader {
  import opened Common
  import opened Header
  import opened Commands

  /** An instant as `time.Parse` would return it; `ZeroTime` is Go's zero
      `time.Time`, the reader's initial last-seen time. */
  datatype Timestamp = Timestamp(instant: int)

  const ZeroTime := Timestamp(0)

  type TimeParser = seq<char> -> Option<Timestamp>

  /** One entry of the general log (mygl/reader.go:64-68). */
  datatype Entry = Entry(time: Timestamp, id: int, command: string, argument: string)
  {
    /** The entry's command is `c` (the source compares the name). */
    predicate Is(c: Command)
    {
      command == Name(c)
    }
  }

  lemma ConnectIsNotQuery(e: Entry)
    ensures !(e.Is(Connect) && e.Is(Query))
  {
    assert Name(Connect) == "Connect";
    assert Name(Query) == "Query";
  }

  /** Comparing the captured name with a command's constant, as the
      worker's `switch` and the dispatcher's `Quit` test do, is classifying
      it: the entry is a `c` exactly when its name parses as `c`. */
  lemma IsParses(e: Entry, c: Command)
    requires !c.Other?
    ensures e.Is(c) <==> Parse(e.command) == c
  {
    if e.Is(c) {
      ParseName(c);
    }
  }

  datatype StreamEnd = EndOfFile | ReadError

  datatype Stream = Stream(data: seq<char>, end: StreamEnd)

  /** The reader: its unread input and `lastTime`. */
  datatype LogReader = LogReader(input: Stream, lastTime: Timestamp)

  /** What one `ReadEntry` call returns: an entry and the reader after it;
      `io.EOF`; another read error; or the panic of `arg.Truncate(-1)`. */
  datatype ReadResult =
    | Read(entry: Entry, next: LogReader)
    | Eof
    | Failed
    | Panicked

  /** `peekLen` (mygl/reader.go:53). */
  const PeekLen := 64

  function NewReader(input: Stream): LogReader
  {
    LogReader(input, ZeroTime)
  }

  predicate NotNewline(c: char)
  {
    c != '\n'
  }

  /** Length of the first line of `data`: through the first newline, or
      all of `data` when it has none. */
  function LineEnd(data: seq<char>): (n: nat)
    ensures n <= |data|
    ensures forall k :: 0 <= k < n - 1 ==> data[k] != '\n'
    ensures n == |data| || (n > 0 && data[n - 1] == '\n')
    ensures |data| > 0 ==> n > 0
  {
    var k := Span(data, 0, NotNewline);
    if k < |data| then k + 1 else k
  }

  /** Result of `ReadString('\n')`: the text read, the stream after it and
      whether the end of the data was reached before a newline (in which
      case the call also returned the stream's end condition). */
  datatype LineRead = LineRead(text: seq<char>, rest: Stream, atEnd: bool)

  function ReadLine(st: Stream): (l: LineRead)
    ensures l.text + l.rest.data == st.data
    ensures l.rest.end == st.end
    ensures l.atEnd ==> l.rest.data == [] && NoNewline(l.text)
    ensures !l.atEnd ==> IsLine(l.text)
  {
    var n := LineEnd(st.data);
    if n > 0 && st.data[n - 1] == '\n' then
      LineRead(st.data[..n], Stream(st.data[n..], st.end), false)
    else
      LineRead(st.data, Stream([], st.end), true)
  }

  predicate NoNewline(s: seq<char>)
  {
    forall k :: 0 <= k < |s| ==> s[k] != '\n'
  }

  /** A complete line: newline-terminated, with no other newline. */
  predicate IsLine(s: seq<char>)
  {
    |s| > 0 && s[|s| - 1] == '\n' && NoNewline(s[..|s| - 1])
  }

  datatype PeekResult = Peeked(window: seq<char>) | PeekFailed

  /** `Peek(64)`: the next 64 bytes, or fewer with the stream's end
      condition, which is an error unless it is end-of-file. */
  function Peek(st: Stream): (p: PeekResult)
    ensures p.PeekFailed? <==> |st.data| < PeekLen && st.end == ReadError
    ensures p.Peeked? ==> p.window == Window(st.data)
  {
    if |st.data| >= PeekLen then Peeked(st.data[..PeekLen])
    else if st.end == ReadError then PeekFailed
    else Peeked(st.data)
  }

  /** The first (up to) 64 bytes of `data`. */
  function Window(data: seq<char>): (w: seq<char>)
    ensures |w| <= PeekLen && w <= data
    ensures |w| == PeekLen || w == data
  {
    if |data| >= PeekLen then data[..PeekLen] else data
  }

  /** The consume state stops in front of `data`: nothing is left or the
      window starts with a header. */
  predicate StopsBefore(data: seq<char>)
  {
    |data| == 0 || IsHeader(Window(data))
  }

  /** The entry's time: the last-seen time, replaced when the time column
      parses.  The guard on the column's first byte is the source's
      (mygl/reader.go:126); the column never starts with a space, so it
      always holds. */
  function ResolveTime(column: seq<char>, last: Timestamp, parse: TimeParser): (t: Timestamp)
    requires |column| > 0
    ensures column[0] != ' ' && parse(column).Some? ==> t == parse(column).value
    ensures parse(column).None? ==> t == last
  {
    if column[0] != ' ' then
      match parse(column)
      case Some(p) => p
      case None => last
    else last
  }

  /** Removes the one trailing byte, `arg.Truncate(arg.Len() - 1)`. */
  function Trim(s: seq<char>): seq<char>
    requires |s| > 0
  {
    s[..|s| - 1]
  }

  /** The lines of `data`, as successive `ReadString('\n')` calls return
      them; the last one may lack its newline. */
  function Lines(data: seq<char>): (ls: seq<seq<char>>)
    ensures Flatten(ls) == data
    ensures forall k :: 0 <= k < |ls| ==> IsLine(ls[k]) || (k == |ls| - 1 && |ls[k]| > 0 && NoNewline(ls[k]))
    decreases |data|
  {
    if |data| == 0 then []
    else
      var n := LineEnd(data);
      [data[..n]] + Lines(data[n..])
  }

  predicate NoHeaderLine(data: seq<char>)
  {
    forall l :: l in Lines(data) ==> !IsHeader(l)
  }

  /** Facts every successfully read entry has (mygl/reader.go:133-136):
      a non-empty, tab-free command and an id in the int range. */
  predicate WellFormedEntry(e: Entry)
  {
    |e.command| > 0 && NoTab(e.command) && 0 <= e.id <= MaxInt
  }

  /** Index of the first header line of `ls` (|ls| when there is none). */
  function FirstHeader(ls: seq<seq<char>>): (i: nat)
    ensures i <= |ls|
    ensures forall j :: 0 <= j < i ==> !IsHeader(ls[j])
    ensures i < |ls| ==> IsHeader(ls[i])
    decreases |ls|
  {
    if |ls| == 0 || IsHeader(ls[0]) then 0
    else
      var j := FirstHeader(ls[1..]);
      HeadersShift(ls, j);
      1 + j
  }

  /** The header lines of `ls[1..]` are those of `ls`, one place on. */
  lemma HeadersShift(ls: seq<seq<char>>, j: nat)
    requires 0 < |ls| && j <= |ls| - 1 && !IsHeader(ls[0])
    requires forall k :: 0 <= k < j ==> !IsHeader(ls[1..][k])
    requires j < |ls| - 1 ==> IsHeader(ls[1..][j])
    ensures forall k :: 0 <= k < j + 1 ==> !IsHeader(ls[k])
    ensures j + 1 < |ls| ==> IsHeader(ls[j + 1])
  {
    forall k | 0 <= k < j + 1
      ensures !IsHeader(ls[k])
    {
      if k > 0 {
        assert ls[k] == ls[1..][k - 1];
      }
    }
  }

  /** What a successful read of `st` returns, stated over the lines of
      the input rather than over the two reader states: the lines before
      the first header are skipped; the entry comes from that header (time
      resolved against `last`, id converted, command verbatim); its
      argument is the text after the header's prefix up to the first stop
      (`EntryEnd`: the first line start after the header line whose
      64-byte window is empty or a header), minus one byte; the reader is
      left at that stop, with `lastTime` set to the entry's time. */
  predicate ReadsFirstHeader(st: Stream, last: Timestamp, parse: TimeParser, e: Entry, next: LogReader)
  {
    SkipsToHeader(st, Lines(st.data), last, parse, e, next)
  }

  /** `ReadsFirstHeader`, with the input's remaining lines `ls` given. */
  predicate SkipsToHeader(st: Stream, ls: seq<seq<char>>, last: Timestamp, parse: TimeParser, e: Entry, next: LogReader)
    decreases |ls|
  {
    && |ls| > 0
    && match MatchHeader(ls[0])
       case Some(h) => ReadsFrom(st, |h.Prefix()|, h, last, parse, e, next)
       case None =>
         && |ls[0]| <= |st.data|
         && SkipsToHeader(Stream(st.data[|ls[0]|..], st.end), ls[1..], last, parse, e, next)
  }

  /** The entry started by header `h` is read from offset `off` of `st`:
      the argument starts there, and the first stop is looked for from the
      end of the header line on. */
  predicate ReadsFrom(st: Stream, off: nat, h: HeaderMatch, last: Timestamp, parse: TimeParser, e: Entry, next: LogReader)
  {
    && off <= |st.data|
    && h.Shaped()
    && off <= LineEnd(st.data)
    && ConsumedUpTo(st.data[off..], LineEnd(st.data) - off, Entry(ResolveTime(h.time, last, parse), ParseId(h.id), h.command, []), next.input.data, e)
    && next == LogReader(Stream(next.input.data, st.end), e.time)
    && StopsBefore(next.input.data)
  }

  /** `ReadEntry` (mygl/reader.go:105-161), with the outcomes of
      `FindOutcome`: an entry from the first header line; end-of-file
      exactly when the stream ends cleanly with no header line left; a
      read error exactly when the stream fails and no header line is left
      or fewer than 64 bytes follow the entry; the panic only when the
      first header line is the last line and a bare header prefix. */
  function ReadEntry(r: LogReader, parse: TimeParser): (res: ReadResult)
    ensures FindOutcome(r.input, r.lastTime, parse, res)
    ensures res.Eof? <==> r.input.end == EndOfFile && NoHeaderLine(r.input.data)
  {
    FindSpec(r.input, r.lastTime, parse);
    Find(r.input, r.lastTime, parse)
  }

  /** The outcomes of reading `st`, stated over its lines and its first
      header line: end-of-file exactly when the stream ends cleanly and no
      line is a header; a read error exactly when the stream fails and
      either no line is a header or fewer than `PeekLen` bytes follow the
      first stop after the first header line; the panic only when the
      last line is the first header and is a bare prefix; an entry as
      `ReadsFirstHeader` describes, left in front of at least `PeekLen`
      bytes unless the stream ends cleanly. */
  predicate FindOutcome(st: Stream, last: Timestamp, parse: TimeParser, res: ReadResult)
  {
    FindEntry(st, last, parse, res) && FindError(st, res)
  }

  /** The end-of-file, panic and entry clauses of `FindOutcome`. */
  predicate FindEntry(st: Stream, last: Timestamp, parse: TimeParser, res: ReadResult)
  {
    var ls := Lines(st.data);
    var i := FirstHeader(ls);
    && (res.Eof? <==> st.end == EndOfFile && i == |ls|)
    && (res.Panicked? ==> st.end == EndOfFile && i == |ls| - 1 && ls[i] == MatchHeader(ls[i]).value.Prefix())
    && (res.Read? ==> ReadsFirstHeader(st, last, parse, res.entry, res.next) && WellFormedEntry(res.entry))
  }

  /** The read-error clauses of `FindOutcome`. */
  predicate FindError(st: Stream, res: ReadResult)
  {
    var ls := Lines(st.data);
    var i := FirstHeader(ls);
    && (res.Failed? <==> st.end == ReadError && (i == |ls| || EntryRest(Flatten(ls[i + 1..])) < PeekLen))
    && (res.Read? ==> st.end == EndOfFile || |res.next.input.data| >= PeekLen)
  }

  lemma {:induction false} FindSpec(st: Stream, last: Timestamp, parse: TimeParser)
    ensures FindOutcome(st, last, parse, Find(st, last, parse))
    decreases |st.data|
  {
    var res := Find(st, last, parse);
    var ls := Lines(st.data);
    var l := ReadLine(st);
    if |st.data| == 0 {
      assert ls == [];
    } else {
      var n := LineEnd(st.data);
      assert l.text == st.data[..n] && l.rest.data == st.data[n..];
      assert ls == [l.text] + Lines(l.rest.data);
      if l.atEnd && st.end == ReadError {
      } else {
        match MatchHeader(l.text)
        case Some(m) =>
          FindAtHeader(st, last, parse, l, m);
        case None =>
          if l.atEnd {
            assert Lines(l.rest.data) == [];
          } else {
            FindSpec(l.rest, last, parse);
            FindSkipsLine(st, last, parse, l);
          }
      }
    }
  }

  /** The find state's first line is a header: the entry starts there. */
  lemma FindAtHeader(st: Stream, last: Timestamp, parse: TimeParser, l: LineRead, m: HeaderMatch)
    requires |st.data| > 0 && l == ReadLine(st) && !(l.atEnd && st.end == ReadError)
    requires MatchHeader(l.text) == Some(m)
    requires Lines(st.data) == [l.text] + Lines(l.rest.data)
    ensures FindOutcome(st, last, parse, Find(st, last, parse))
  {
    FindAtHeaderEntry(st, last, parse, l, m);
    MatchHeaderSound(l.text);
    var t := ResolveTime(m.time, last, parse);
    var e := Entry(t, ParseId(m.id), m.command, []);
    var arg := l.text[|m.Prefix()|..];
    assert Find(st, last, parse) == Consume(l.rest, e, arg, t);
    ConsumeOutcomes(l.rest, e, arg, t);
    ConsumeLeaves(l.rest, e, arg, t);
    FindAtHeaderError(st, l, Consume(l.rest, e, arg, t));
  }

  lemma FindAtHeaderEntry(st: Stream, last: Timestamp, parse: TimeParser, l: LineRead, m: HeaderMatch)
    requires |st.data| > 0 && l == ReadLine(st) && !(l.atEnd && st.end == ReadError)
    requires MatchHeader(l.text) == Some(m)
    requires Lines(st.data) == [l.text] + Lines(l.rest.data)
    ensures FindEntry(st, last, parse, Find(st, last, parse))
  {
    var ls := Lines(st.data);
    MatchHeaderSound(l.text);
    var p := m.Prefix();
    var t := ResolveTime(m.time, last, parse);
    var e := Entry(t, ParseId(m.id), m.command, []);
    var arg := l.text[|p|..];
    var res := Consume(l.rest, e, arg, t);
    assert Find(st, last, parse) == res;
    ConsumeSpec(l.rest, e, arg, t);
    if res.Read? {
      HeaderLineReads(st, l, m, last, parse, res.entry, res.next);
      FirstLineHeader(st, ls, m, last, parse, res.entry, res.next);
    } else if res.Panicked? {
      assert l.text == p;
      assert l.atEnd;
      assert Lines(l.rest.data) == [];
    }
  }

  /** After a first header line the read fails exactly as the consume
      state on the following lines does. */
  lemma FindAtHeaderError(st: Stream, l: LineRead, res: ReadResult)
    requires l == ReadLine(st) && IsHeader(l.text)
    requires Lines(st.data) == [l.text] + Lines(l.rest.data)
    requires res.Failed? <==> l.rest.end == ReadError && EntryRest(l.rest.data) < PeekLen
    requires res.Read? ==> |res.next.input.data| == EntryRest(l.rest.data)
    ensures FindError(st, res)
  {
    ConsTail(l.text, Lines(l.rest.data));
  }

  /** The entry the consume state finishes after a header line is read
      from right after the header's prefix. */
  lemma HeaderLineReads(st: Stream, l: LineRead, m: HeaderMatch, last: Timestamp, parse: TimeParser, e: Entry, next: LogReader)
    requires l == ReadLine(st) && m.Shaped() && m.Prefix() <= l.text
    requires var t := ResolveTime(m.time, last, parse);
             var e0 := Entry(t, ParseId(m.id), m.command, []);
             var arg := l.text[|m.Prefix()|..];
             && ConsumedUpTo(arg + l.rest.data, |arg|, e0, next.input.data, e)
             && next == LogReader(Stream(next.input.data, l.rest.end), t)
             && StopsBefore(next.input.data)
    ensures ReadsFrom(st, |m.Prefix()|, m, last, parse, e, next)
  {
    var p := m.Prefix();
    DropConcat(l.text, l.rest.data, |p|);
    assert |l.text| == LineEnd(st.data);
  }

  /** When the first line is a header, the entry is read right after its
      prefix. */
  lemma FirstLineHeader(st: Stream, ls: seq<seq<char>>, h: HeaderMatch, last: Timestamp, parse: TimeParser, e: Entry, next: LogReader)
    requires ls == Lines(st.data) && |ls| > 0 && MatchHeader(ls[0]) == Some(h)
    requires ReadsFrom(st, |h.Prefix()|, h, last, parse, e, next)
    ensures ReadsFirstHeader(st, last, parse, e, next)
  {
  }

  /** The find state's first line is not a header: it is dropped. */
  lemma FindSkipsLine(st: Stream, last: Timestamp, parse: TimeParser, l: LineRead)
    requires |st.data| > 0 && l == ReadLine(st) && !l.atEnd
    requires MatchHeader(l.text) == None
    requires Lines(st.data) == [l.text] + Lines(l.rest.data)
    requires FindOutcome(l.rest, last, parse, Find(l.rest, last, parse))
    ensures FindOutcome(st, last, parse, Find(st, last, parse))
  {
    assert Find(st, last, parse) == Find(l.rest, last, parse);
    FindSkipsLineEntry(st, last, parse, l, Find(l.rest, last, parse));
    FindSkipsLineError(st, l, Find(l.rest, last, parse));
  }

  lemma FindSkipsLineEntry(st: Stream, last: Timestamp, parse: TimeParser, l: LineRead, res: ReadResult)
    requires |st.data| > 0 && l == ReadLine(st) && !l.atEnd
    requires MatchHeader(l.text) == None
    requires Lines(st.data) == [l.text] + Lines(l.rest.data)
    requires FindEntry(l.rest, last, parse, res)
    ensures FindEntry(st, last, parse, res)
  {
    FirstHeaderCons(l.text, Lines(l.rest.data));
    if res.Read? {
      SkippedLineShifts(st, l.text, l.rest, last, parse, res.entry, res.next);
    }
  }

  /** A line that is not a header, put in front, moves the first header
      line one place on. */
  lemma FirstHeaderCons(text: seq<char>, ls: seq<seq<char>>)
    requires MatchHeader(text) == None
    ensures FirstHeader([text] + ls) == FirstHeader(ls) + 1
    ensures FirstHeader(ls) < |ls| ==> ([text] + ls)[FirstHeader(ls) + 1] == ls[FirstHeader(ls)]
  {
    ConsTail(text, ls);
  }

  /** A dropped line moves the first header line but not what follows it. */
  lemma FindSkipsLineError(st: Stream, l: LineRead, res: ReadResult)
    requires |st.data| > 0 && l == ReadLine(st) && !l.atEnd
    requires MatchHeader(l.text) == None
    requires Lines(st.data) == [l.text] + Lines(l.rest.data)
    requires FindError(l.rest, res)
    ensures FindError(st, res)
  {
    AfterHeaderCons(l.text, Lines(l.rest.data), Lines(st.data));
  }

  /** A line that is not a header, put in front, leaves the lines after the
      first header as they were. */
  lemma AfterHeaderCons(text: seq<char>, ls: seq<seq<char>>, all: seq<seq<char>>)
    requires MatchHeader(text) == None && all == [text] + ls
    ensures FirstHeader(all) == FirstHeader(ls) + 1
    ensures FirstHeader(ls) < |ls| ==> all[FirstHeader(all) + 1..] == ls[FirstHeader(ls) + 1..]
  {
    FirstHeaderCons(text, ls);
    if FirstHeader(ls) < |ls| {
      DropPastPrefix([text], ls, FirstHeader(ls) + 1);
    }
  }

  /** A non-header line in front of the input moves the first header, and
      the offset the entry is read from, by that line. */
  lemma SkippedLineShifts(st: Stream, text: seq<char>, rest: Stream, last: Timestamp, parse: TimeParser, e: Entry, next: LogReader)
    requires st.data == text + rest.data && st.end == rest.end
    requires Lines(st.data) == [text] + Lines(rest.data) && MatchHeader(text).None?
    requires ReadsFirstHeader(rest, last, parse, e, next)
    ensures ReadsFirstHeader(st, last, parse, e, next)
  {
    SkippedLineShiftsOf(st, text, rest, Lines(rest.data), last, parse, e, next);
  }

  lemma SkippedLineShiftsOf(st: Stream, text: seq<char>, rest: Stream, ls': seq<seq<char>>, last: Timestamp, parse: TimeParser, e: Entry, next: LogReader)
    requires st.data == text + rest.data && st.end == rest.end && MatchHeader(text).None?
    requires SkipsToHeader(rest, ls', last, parse, e, next)
    ensures SkipsToHeader(st, [text] + ls', last, parse, e, next)
  {
    var ls := [text] + ls';
    assert ls[1..] == ls';
    DropPastPrefix(text, rest.data, 0);
  }

  /** The consume state (mygl/reader.go:141-158) from the argument so far
      `arg`: never end-of-file; a read error exactly when the stream fails
      with fewer than `PeekLen` bytes after the first stop; the panic only
      with an empty argument, and always with one at a clean end;
      otherwise the entry is finished at the first stop, leaving the bytes
      after it unread. */
  lemma ConsumeSpec(st: Stream, e: Entry, arg: seq<char>, last: Timestamp)
    ensures var res := Consume(st, e, arg, last);
            && !res.Eof?
            && (res.Failed? <==> st.end == ReadError && EntryRest(st.data) < PeekLen)
            && (res.Panicked? ==> arg == [])
            && (arg == [] && st.data == [] && st.end == EndOfFile ==> res.Panicked?)
            && (res.Read? ==> |res.next.input.data| == EntryRest(st.data))
            && (res.Read? ==> ConsumedUpTo(arg + st.data, |arg|, e, res.next.input.data, res.entry))
            && (res.Read? ==> |res.next.input.data| <= |st.data|)
            && (res.Read? ==> res.next == LogReader(Stream(res.next.input.data, st.end), last))
            && (res.Read? ==> StopsBefore(res.next.input.data))
  {
    ConsumeOutcomes(st, e, arg, last);
    ConsumeReads(st, e, arg, last);
    assert (arg + st.data)[|arg|..] == st.data;
    ConsumeStopsAt(st, e, arg, last, arg + st.data, |arg|);
    ConsumeLeaves(st, e, arg, last);
  }

  /** A finished entry leaves the bytes after the first stop unread. */
  lemma ConsumeLeaves(st: Stream, e: Entry, arg: seq<char>, last: Timestamp)
    ensures var res := Consume(st, e, arg, last);
            res.Read? ==> |res.next.input.data| == EntryRest(st.data)
  {
    assert (arg + st.data)[|arg|..] == st.data;
    ConsumeStopsAt(st, e, arg, last, arg + st.data, |arg|);
    EntryEndShift(arg + st.data, |arg|);
  }

  /** The consume state never reports end-of-file; it fails exactly on a
      failing stream with fewer than `PeekLen` bytes after the first stop
      (the `Peek(64)` there fails, or one before it, or the line read
      before it meets the error); it panics only with an empty argument. */
  lemma {:induction false} ConsumeOutcomes(st: Stream, e: Entry, arg: seq<char>, last: Timestamp)
    ensures var res := Consume(st, e, arg, last);
            && !res.Eof?
            && (res.Failed? <==> st.end == ReadError && EntryRest(st.data) < PeekLen)
            && (res.Panicked? ==> arg == [])
            && (arg == [] && st.data == [] && st.end == EndOfFile ==> res.Panicked?)
    decreases |st.data|
  {
    match Peek(st)
    case PeekFailed =>
    case Peeked(w) =>
      if |w| == 0 || IsHeader(w) {
        EntryRestHere(st.data);
      } else {
        var l := ReadLine(st);
        LineAdvance(st);
        EntryRestNext(st.data, |l.text|);
        if l.atEnd && st.end == ReadError {
        } else {
          ConsumeOutcomes(l.rest, e, arg + l.text, last);
        }
      }
  }

  /** A finished entry's argument is everything consumed minus one byte,
      and the reader is left in front of a header window or the end. */
  lemma {:induction false} ConsumeReads(st: Stream, e: Entry, arg: seq<char>, last: Timestamp)
    ensures var res := Consume(st, e, arg, last);
            res.Read? ==>
              && Finished(arg + st.data, e, res.next.input.data, res.entry)
              && |res.next.input.data| <= |st.data|
              && res.next == LogReader(Stream(res.next.input.data, st.end), last)
              && StopsBefore(res.next.input.data)
    decreases |st.data|
  {
    match Peek(st)
    case PeekFailed =>
    case Peeked(w) =>
      if |w| == 0 || IsHeader(w) {
      } else {
        var l := ReadLine(st);
        if l.atEnd && st.end == ReadError {
        } else {
          ConsumeReads(l.rest, e, arg + l.text, last);
          ConcatAssoc(arg, l.text, l.rest.data);
        }
      }
  }

  /** The consume state leaves the input at the first stop, `EntryEnd`, of
      `whole`, the argument so far followed by the input. */
  lemma {:induction false} ConsumeStopsAt(st: Stream, e: Entry, arg: seq<char>, last: Timestamp, whole: seq<char>, from: nat)
    requires from == |arg| && from <= |whole| && whole[from..] == st.data
    ensures var res := Consume(st, e, arg, last);
            res.Read? ==> from + |res.next.input.data| <= |whole| && |whole| - |res.next.input.data| == EntryEnd(whole, from)
    decreases |st.data|
  {
    var l := ReadLine(st);
    if Peek(st).Peeked? && !StopsBefore(st.data) && !(l.atEnd && st.end == ReadError) {
      RestAfterLine(st, whole, from, l);
      ConsumeStopsAt(l.rest, e, arg + l.text, last, whole, from + |l.text|);
    }
    ConsumeStopsAtStep(st, e, arg, last, whole, from);
  }

  /** `Consume`'s result stops the input at `EntryEnd(whole, from)`. */
  predicate LeavesAtEntryEnd(res: ReadResult, whole: seq<char>, from: nat)
  {
    && from <= |whole|
    && (res.Read? ==> from + |res.next.input.data| <= |whole| && |whole| - |res.next.input.data| == EntryEnd(whole, from))
  }

  /** The induction step of `ConsumeStopsAt`. */
  lemma ConsumeStopsAtStep(st: Stream, e: Entry, arg: seq<char>, last: Timestamp, whole: seq<char>, from: nat)
    requires from == |arg| && from <= |whole| && whole[from..] == st.data
    requires var l := ReadLine(st);
             (Peek(st).Peeked? && !StopsBefore(st.data) && !(l.atEnd && st.end == ReadError)) ==>
               LeavesAtEntryEnd(Consume(l.rest, e, arg + l.text, last), whole, from + |l.text|)
    ensures LeavesAtEntryEnd(Consume(st, e, arg, last), whole, from)
  {
    if Peek(st).PeekFailed? {
    } else if StopsBefore(st.data) {
      EntryEndHere(whole, from, st.data);
    } else {
      var l := ReadLine(st);
      if !(l.atEnd && st.end == ReadError) {
        StopsAtNextLine(st, whole, from, l);
        ConsumeSkips(st, e, arg, last, l);
        StopsAtCombine(whole, from, |l.text|, Consume(l.rest, e, arg + l.text, last));
      }
    }
  }

  /** Where the state neither fails nor stops, it reads one line into the
      argument and goes on. */
  lemma ConsumeSkips(st: Stream, e: Entry, arg: seq<char>, last: Timestamp, l: LineRead)
    requires Peek(st).Peeked? && !StopsBefore(st.data)
    requires l == ReadLine(st) && !(l.atEnd && st.end == ReadError)
    ensures Consume(st, e, arg, last) == Consume(l.rest, e, arg + l.text, last)
  {}

  /** The input left after a line is read is what follows the line in
      `whole`. */
  lemma RestAfterLine(st: Stream, whole: seq<char>, from: nat, l: LineRead)
    requires from <= |whole| && whole[from..] == st.data && l == ReadLine(st)
    ensures from + |l.text| <= |whole| && whole[from + |l.text|..] == l.rest.data
  {
    LineAdvance(st);
    DropDrop(whole, from, |l.text|);
  }

  /** A line read where the state does not stop keeps `EntryEnd`. */
  lemma StopsAtNextLine(st: Stream, whole: seq<char>, from: nat, l: LineRead)
    requires from <= |whole| && whole[from..] == st.data
    requires l == ReadLine(st) && !StopsBefore(st.data)
    ensures from + |l.text| <= |whole| && EntryEnd(whole, from) == EntryEnd(whole, from + |l.text|)
  {
    LineAdvance(st);
    EntryEndNext(whole, from, st.data, |l.text|);
  }

  /** A stop found after a skipped line is the stop from the line's start,
      when the line does not move `EntryEnd`. */
  lemma StopsAtCombine(whole: seq<char>, from: nat, n: nat, res: ReadResult)
    requires from + n <= |whole| && EntryEnd(whole, from) == EntryEnd(whole, from + n)
    requires res.Read? ==> from + n + |res.next.input.data| <= |whole| && |whole| - |res.next.input.data| == EntryEnd(whole, from + n)
    ensures res.Read? ==> from + |res.next.input.data| <= |whole| && |whole| - |res.next.input.data| == EntryEnd(whole, from)
  {}

  /** Where the consume state stops in `whole` when the argument so far
      ends at `from`: the first stop for the header test. */
  function EntryEnd(whole: seq<char>, from: nat): (k: nat)
    requires from <= |whole|
    ensures FirstStop(whole, from, k, IsHeader)
  {
    StopOffsetFirst(whole, from, IsHeader);
    StopOffset(whole, from, IsHeader)
  }

  /** A window that is empty or a header is the stop. */
  lemma EntryEndHere(whole: seq<char>, from: nat, rest: seq<char>)
    requires from <= |whole| && whole[from..] == rest && StopsBefore(rest)
    ensures EntryEnd(whole, from) == from
  {
    StopOffsetHere(whole, from, rest, IsHeader);
  }

  /** Past any other window the stop is that of the next line. */
  lemma EntryEndNext(whole: seq<char>, from: nat, rest: seq<char>, n: nat)
    requires from <= |whole| && whole[from..] == rest
    requires !StopsBefore(rest) && n == LineEnd(rest)
    ensures from + n <= |whole|
    ensures EntryEnd(whole, from) == EntryEnd(whole, from + n)
  {
    StopOffsetNext(whole, from, rest, n, IsHeader);
  }

  /** The bytes the consume state, started in front of `data`, leaves
      unread: those after its first stop. */
  function EntryRest(data: seq<char>): (r: nat)
    ensures r <= |data|
    ensures FirstStop(data, 0, |data| - r, IsHeader)
  {
    |data| - EntryEnd(data, 0)
  }

  /** In front of a stop nothing is consumed. */
  lemma EntryRestHere(data: seq<char>)
    requires StopsBefore(data)
    ensures EntryRest(data) == |data|
  {
    assert data[0..] == data;
    EntryEndHere(data, 0, data);
  }

  /** Past any other window the rest is that after the next line. */
  lemma EntryRestNext(data: seq<char>, n: nat)
    requires !StopsBefore(data) && n == LineEnd(data)
    ensures n <= |data| && EntryRest(data) == EntryRest(data[n..])
  {
    assert data[0..] == data;
    EntryEndNext(data, 0, data, n);
    EntryEndShift(data, n);
  }

  /** The stop depends only on the text from the search start on. */
  lemma EntryEndShift(whole: seq<char>, from: nat)
    requires from <= |whole|
    ensures EntryEnd(whole, from) == from + EntryEnd(whole[from..], 0)
  {
    StopOffsetShift(whole, from, IsHeader);
  }

  /** An entry finished from the text `whole` (the argument so far, of
      length `from`, followed by the unread input) with `next` left
      unread: `next` is a proper suffix of `whole` starting at the first
      position where the consume state stops, and the argument is what
      precedes it minus one byte. */
  predicate ConsumedUpTo(whole: seq<char>, from: nat, e: Entry, next: seq<char>, result: Entry)
  {
    && Finished(whole, e, next, result)
    && from <= |whole|
    && |whole| - |next| == EntryEnd(whole, from)
  }

  /** `next` is a proper suffix of `whole`, and the argument is what
      precedes it minus one byte. */
  predicate Finished(whole: seq<char>, e: Entry, next: seq<char>, result: Entry)
  {
    var k := |whole| - |next|;
    && 0 < k
    && whole[k..] == next
    && result == e.(argument := whole[..k - 1])
  }

  /* The stop position, for any test `stop` of the peeked window; the
     consume state uses `IsHeader`. */

  /** Peeking at position `j` of `whole` stops the consume state: nothing
      is left, or the window there passes `stop`. */
  predicate StopsAt(whole: seq<char>, j: nat, stop: seq<char> -> bool)
  {
    j >= |whole| || stop(Window(whole[j..]))
  }

  /** The position the consume state stops at, peeking from `from` on:
      `from` itself if its window stops it, else the stop after the line
      starting there. */
  function StopOffset(whole: seq<char>, from: nat, stop: seq<char> -> bool): (k: nat)
    requires from <= |whole|
    ensures from <= k <= |whole|
    decreases |whole| - from
  {
    if StopsAt(whole, from, stop) then from
    else StopOffset(whole, from + LineEnd(whole[from..]), stop)
  }

  /** Where the window stops the consume state, it stops there. */
  lemma StopOffsetHere(whole: seq<char>, from: nat, rest: seq<char>, stop: seq<char> -> bool)
    requires from <= |whole| && whole[from..] == rest
    requires |rest| == 0 || stop(Window(rest))
    ensures StopOffset(whole, from, stop) == from
  {
  }

  /** Whether position `from` stops the state depends on the text from
      there on. */
  lemma StopsAtRest(whole: seq<char>, from: nat, rest: seq<char>, stop: seq<char> -> bool)
    requires from <= |whole| && whole[from..] == rest
    ensures StopsAt(whole, from, stop) <==> |rest| == 0 || stop(Window(rest))
  {
  }

  /** Where it does not, it stops where it would after the line starting
      there. */
  lemma StopOffsetNext(whole: seq<char>, from: nat, rest: seq<char>, n: nat, stop: seq<char> -> bool)
    requires from <= |whole| && whole[from..] == rest
    requires |rest| > 0 && !stop(Window(rest)) && n == LineEnd(rest)
    ensures from + n <= |whole|
    ensures StopOffset(whole, from, stop) == StopOffset(whole, from + n, stop)
  {
    StopsAtRest(whole, from, rest, stop);
    StopOffsetUnfold(whole, from, stop);
    assert LineEnd(whole[from..]) == n;
  }

  /** One unfolding of `StopOffset` past a position that does not stop. */
  lemma StopOffsetUnfold(whole: seq<char>, from: nat, stop: seq<char> -> bool)
    requires from <= |whole| && !StopsAt(whole, from, stop)
    ensures StopOffset(whole, from, stop) == StopOffset(whole, from + LineEnd(whole[from..]), stop)
  {
  }

  /** The stop position relative to the search start depends only on the
      text from there on. */
  lemma {:induction false} StopOffsetShift(whole: seq<char>, from: nat, stop: seq<char> -> bool)
    requires from <= |whole|
    ensures StopOffset(whole, from, stop) == from + StopOffset(whole[from..], 0, stop)
    decreases |whole| - from
  {
    var rest := whole[from..];
    assert rest[0..] == rest;
    if |rest| == 0 || stop(Window(rest)) {
      StopOffsetHere(whole, from, rest, stop);
      StopOffsetHere(rest, 0, rest, stop);
    } else {
      var n := LineEnd(rest);
      StopOffsetNext(whole, from, rest, n, stop);
      StopOffsetShift(whole, from + n, stop);
      StopOffsetShift(rest, n, stop);
      StopOffsetShiftStep(whole, from, rest, n, stop);
    }
  }

  /** The step of `StopOffsetShift`, past one line of length `n`. */
  lemma StopOffsetShiftStep(whole: seq<char>, from: nat, rest: seq<char>, n: nat, stop: seq<char> -> bool)
    requires from <= |whole| && whole[from..] == rest
    requires |rest| > 0 && !stop(Window(rest)) && n == LineEnd(rest) && from + n <= |whole|
    requires StopOffset(whole, from + n, stop) == from + n + StopOffset(whole[from + n..], 0, stop)
    requires StopOffset(rest, n, stop) == n + StopOffset(rest[n..], 0, stop)
    ensures StopOffset(whole, from, stop) == from + StopOffset(rest, 0, stop)
  {
    assert rest[0..] == rest;
    StopOffsetNext(whole, from, rest, n, stop);
    StopOffsetNext(rest, 0, rest, n, stop);
    DropDrop(whole, from, n);
  }

  /** A position the consume state peeks at when the argument so far ends
      at `from`: that position, one just after a newline, or the end. */
  predicate PeekPoint(whole: seq<char>, from: nat, j: nat)
  {
    from <= j <= |whole| && (j == from || j == |whole| || whole[j - 1] == '\n')
  }

  /** `k` is the first position peeked at that stops the consume state:
      at every earlier position peeked at, the window was non-empty and
      failed `stop`. */
  predicate FirstStop(whole: seq<char>, from: nat, k: nat, stop: seq<char> -> bool)
  {
    && PeekPoint(whole, from, k)
    && StopsAt(whole, k, stop)
    && forall j :: from <= j < k && PeekPoint(whole, from, j) ==> !StopsAt(whole, j, stop)
  }

  /** `StopOffset` is the first stop. */
  lemma {:induction false} StopOffsetFirst(whole: seq<char>, from: nat, stop: seq<char> -> bool)
    requires from <= |whole|
    ensures FirstStop(whole, from, StopOffset(whole, from, stop), stop)
    decreases |whole| - from
  {
    if !StopsAt(whole, from, stop) {
      StopOffsetFirst(whole, from + LineEnd(whole[from..]), stop);
      StopOffsetFirstStep(whole, from, stop);
    }
  }

  /** The step of `StopOffsetFirst`: a position whose window does not stop
      the consume state has the first stop of the next line. */
  lemma StopOffsetFirstStep(whole: seq<char>, from: nat, stop: seq<char> -> bool)
    requires from <= |whole| && !StopsAt(whole, from, stop)
    requires FirstStop(whole, from + LineEnd(whole[from..]), StopOffset(whole, from + LineEnd(whole[from..]), stop), stop)
    ensures FirstStop(whole, from, StopOffset(whole, from, stop), stop)
  {
    var n := LineEnd(whole[from..]);
    LineEndAt(whole, from);
    var k := StopOffset(whole, from + n, stop);
    assert StopOffset(whole, from, stop) == k;
    FirstStopStep(whole, from, n, k, stop);
  }

  /** `LineEnd` read off `whole` from `from` on: the line has no newline
      before its last byte and ends with one or at the end. */
  lemma LineEndAt(whole: seq<char>, from: nat)
    requires from < |whole|
    ensures var n := LineEnd(whole[from..]);
            && 0 < n && from + n <= |whole|
            && (forall t :: from <= t < from + n - 1 ==> whole[t] != '\n')
            && (whole[from + n - 1] == '\n' || from + n == |whole|)
  {
    var n := LineEnd(whole[from..]);
    forall t | from <= t < from + n - 1
      ensures whole[t] != '\n'
    {
      assert whole[t] == whole[from..][t - from];
    }
    if from + n < |whole| {
      assert whole[from + n - 1] == whole[from..][n - 1];
    }
  }

  /** The first stop is unique, so it determines the entry. */
  lemma FirstStopUnique(whole: seq<char>, from: nat, k1: nat, k2: nat, stop: seq<char> -> bool)
    requires FirstStop(whole, from, k1, stop) && FirstStop(whole, from, k2, stop)
    ensures k1 == k2
  {
    assert StopsAt(whole, k1, stop) && StopsAt(whole, k2, stop);
  }

  /** Moving the start of the search back over one line (of length `n`)
      that does not stop the consume state keeps the first stop. */
  lemma FirstStopStep(whole: seq<char>, from: nat, n: nat, k: nat, stop: seq<char> -> bool)
    requires 0 < n && from + n <= |whole|
    requires forall t :: from <= t < from + n - 1 ==> whole[t] != '\n'
    requires whole[from + n - 1] == '\n' || from + n == |whole|
    requires !StopsAt(whole, from, stop)
    requires FirstStop(whole, from + n, k, stop)
    ensures FirstStop(whole, from, k, stop)
  {
    var m := from + n;
    assert PeekPoint(whole, from, k);
    forall j | from < j < m
      ensures !PeekPoint(whole, from, j)
    {
      assert whole[j - 1] != '\n';
    }
    forall j | m <= j < k && PeekPoint(whole, from, j)
      ensures !StopsAt(whole, j, stop)
    {
      assert PeekPoint(whole, m, j);
    }
  }


  /** A line read takes `LineEnd` bytes and leaves the rest. */
  lemma LineAdvance(st: Stream)
    ensures var l := ReadLine(st);
            LineEnd(st.data) == |l.text| && st.data[|l.text|..] == l.rest.data
  {
    var l := ReadLine(st);
    assert st.data[|l.text|..] == (l.text + l.rest.data)[|l.text|..];
  }

  /** The find state (mygl/reader.go:117-140): skip lines until one is a
      header, start the entry from it, then consume. */
  function Find(st: Stream, last: Timestamp, parse: TimeParser): (res: ReadResult)
    decreases |st.data|
  {
    var l := ReadLine(st);
    if l.atEnd && st.end == ReadError then Failed
    else
      match MatchHeader(l.text)
      case Some(m) =>
        var t := ResolveTime(m.time, last, parse);
        var e := Entry(t, ParseId(m.id), m.command, []);
        Consume(l.rest, e, l.text[|m.Prefix()|..], t)
      case None =>
        if l.atEnd then Eof else Find(l.rest, last, parse)
  }

  /** The consume state (mygl/reader.go:141-158): while the 64-byte window
      is neither empty nor a header, append the next line verbatim; then
      drop the one trailing byte and finish the entry. */
  function Consume(st: Stream, e: Entry, arg: seq<char>, last: Timestamp): (res: ReadResult)
    decreases |st.data|
  {
    match Peek(st)
    case PeekFailed => Failed
    case Peeked(w) =>
      if |w| == 0 || IsHeader(w) then
        if |arg| == 0 then Panicked
        else Read(e.(argument := Trim(arg)), LogReader(st, last))
      else
        var l := ReadLine(st);
        if l.atEnd && st.end == ReadError then Failed
        else Consume(l.rest, e, arg + l.text, last)
  }
}
