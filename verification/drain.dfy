/**
 * Reading a whole log: `ReadEntry` called until it stops, as the
 * dispatcher's read loop does (main.go:147-162), and what that loop reads
 * from a well-formed general log: one entry per header line, in file
 * order, then end-of-file.
 */
module Drain {
  import opened Common
  import opened Header
  import opened Reader

  /** The entries read, in order, and the outcome that ended the reading
      (end-of-file, a read error or the panic). */
  datatype Drained = Drained(entries: seq<Entry>, stop: ReadResult)

  /** A successful read consumes input, so the loop terminates. */
  lemma ReadShrinks(r: LogReader, parse: TimeParser)
    ensures var res := ReadEntry(r, parse);
            res.Read? ==> |res.next.input.data| < |r.input.data|
  {
    var res := ReadEntry(r, parse);
    if res.Read? {
      SkipsShrink(r.input, Lines(r.input.data), r.lastTime, parse, res.entry, res.next);
    }
  }

  lemma {:induction false} SkipsShrink(st: Stream, ls: seq<seq<char>>, last: Timestamp, parse: TimeParser, e: Entry, next: LogReader)
    requires SkipsToHeader(st, ls, last, parse, e, next)
    ensures |next.input.data| < |st.data|
    decreases |ls|
  {
    match MatchHeader(ls[0])
    case Some(h) =>
    case None =>
      SkipsShrink(Stream(st.data[|ls[0]|..], st.end), ls[1..], last, parse, e, next);
  }

  /** The read loop: read entries until `ReadEntry` returns anything but
      an entry.  Each entry consumes input, so there are at most as many
      entries as bytes. */
  function ReadAll(r: LogReader, parse: TimeParser): (d: Drained)
    ensures !d.stop.Read?
    ensures |d.entries| <= |r.input.data|
    decreases |r.input.data|
  {
    var res := ReadEntry(r, parse);
    if res.Read? then
      ReadShrinks(r, parse);
      var rest := ReadAll(res.next, parse);
      Drained([res.entry] + rest.entries, rest.stop)
    else Drained([], res)
  }

  /** Every entry the loop reads is well formed. */
  lemma {:induction false} ReadAllWellFormed(r: LogReader, parse: TimeParser)
    ensures forall k :: 0 <= k < |ReadAll(r, parse).entries| ==> WellFormedEntry(ReadAll(r, parse).entries[k])
    decreases |r.input.data|
  {
    var res := ReadEntry(r, parse);
    if res.Read? {
      ReadShrinks(r, parse);
      ReadAllWellFormed(res.next, parse);
      ConsWellFormed(res.entry, ReadAll(res.next, parse).entries);
    }
  }

  /** Prepending a well-formed entry keeps every entry well formed. */
  lemma ConsWellFormed(e: Entry, rest: seq<Entry>)
    requires WellFormedEntry(e)
    requires forall k :: 0 <= k < |rest| ==> WellFormedEntry(rest[k])
    ensures forall k :: 0 <= k < |[e] + rest| ==> WellFormedEntry(([e] + rest)[k])
  {
    forall k | 0 < k < |rest| + 1
      ensures WellFormedEntry(([e] + rest)[k])
    {
      assert ([e] + rest)[k] == rest[k - 1];
    }
  }

  /** The loop ends with end-of-file exactly when the stream ends cleanly
      and the input left after the last entry holds no header line; a
      failing stream always ends it with the read error, and only a
      failing stream does. */
  lemma {:induction false} ReadAllStops(r: LogReader, parse: TimeParser)
    ensures ReadAll(r, parse).stop.Failed? <==> r.input.end == ReadError
    ensures ReadAll(r, parse).stop.Eof? ==> r.input.end == EndOfFile
    ensures r.input.end == EndOfFile && NoHeaderLine(r.input.data) ==> ReadAll(r, parse) == Drained([], Eof)
    decreases |r.input.data|
  {
    var res := ReadEntry(r, parse);
    if res.Read? {
      ReadShrinks(r, parse);
      ReadAllStops(res.next, parse);
      assert res.next.input.end == r.input.end by {
        ReadsNextEnd(r.input, Lines(r.input.data), r.lastTime, parse, res.entry, res.next);
      }
    }
  }

  /** The reader after an entry keeps the stream's end condition. */
  lemma {:induction false} ReadsNextEnd(st: Stream, ls: seq<seq<char>>, last: Timestamp, parse: TimeParser, e: Entry, next: LogReader)
    requires SkipsToHeader(st, ls, last, parse, e, next)
    ensures next.input.end == st.end
    decreases |ls|
  {
    match MatchHeader(ls[0])
    case Some(h) =>
    case None =>
      ReadsNextEnd(Stream(st.data[|ls[0]|..], st.end), ls[1..], last, parse, e, next);
  }

  /** One logged entry: its header line and its continuation lines. */
  datatype Record = Record(head: string, body: seq<string>)

  function RecordText(rec: Record): string
  {
    rec.head + Flatten(rec.body)
  }

  /** The log text of the records, in order. */
  function Text(log: seq<Record>): string
    decreases |log|
  {
    if |log| == 0 then [] else RecordText(log[0]) + Text(log[1..])
  }

  /** A header line whose matched prefix fits in the 64-byte window. */
  predicate HeadLine(s: string)
  {
    IsLine(s) && MatchHeader(s).Some? && |MatchHeader(s).value.Prefix()| <= PeekLen
  }

  /** Continuation lines, each a complete line whose 64-byte window (which
      reaches into the following text `more`) does not look like a header. */
  predicate BodyContinues(body: seq<string>, more: string)
    decreases |body|
  {
    |body| == 0 || (IsLine(body[0]) && !IsHeader(Window(Flatten(body) + more)) && BodyContinues(body[1..], more))
  }

  /** A well-formed log: every record starts with a header line and its
      continuation lines are not mistaken for headers. */
  predicate WellFormedLog(log: seq<Record>)
    decreases |log|
  {
    |log| == 0 || (HeadLine(log[0].head) && BodyContinues(log[0].body, Text(log[1..])) && WellFormedLog(log[1..]))
  }

  /** The entry a record stands for, with `last` the time inherited: the
      header's fields, and as argument the header's remainder and the
      continuation lines without the final newline. */
  function RecordEntry(rec: Record, last: Timestamp, parse: TimeParser): Entry
    requires HeadLine(rec.head)
  {
    MatchHeaderSound(rec.head);
    var h := MatchHeader(rec.head).value;
    var arg := rec.head[|h.Prefix()|..] + Flatten(rec.body);
    Entry(ResolveTime(h.time, last, parse), ParseId(h.id), h.command, arg[..|arg| - 1])
  }

  /** The entries of a log, each record's time inherited from the one
      before. */
  function Expected(log: seq<Record>, last: Timestamp, parse: TimeParser): (es: seq<Entry>)
    requires WellFormedLog(log)
    ensures |es| == |log|
    decreases |log|
  {
    if |log| == 0 then []
    else
      var e := RecordEntry(log[0], last, parse);
      [e] + Expected(log[1..], e.time, parse)
  }

  /** A well-formed log reads back as one entry per record, in file order,
      then end-of-file. */
  lemma {:induction false} WellFormedReadsBack(log: seq<Record>, last: Timestamp, parse: TimeParser)
    requires WellFormedLog(log)
    ensures ReadAll(LogReader(Stream(Text(log), EndOfFile), last), parse) == Drained(Expected(log, last, parse), Eof)
    decreases |log|
  {
    var r := LogReader(Stream(Text(log), EndOfFile), last);
    if |log| == 0 {
      assert ReadEntry(r, parse) == Eof;
    } else {
      var e := RecordEntry(log[0], last, parse);
      NextRecordStops(log[1..]);
      ReadRecord(log[0], Text(log[1..]), last, parse);
      WellFormedReadsBack(log[1..], e.time, parse);
    }
  }

  /** One record in front of text that stops the consume state reads as
      its entry, leaving that text. */
  lemma ReadRecord(rec: Record, more: string, last: Timestamp, parse: TimeParser)
    requires HeadLine(rec.head) && BodyContinues(rec.body, more) && StopsBefore(more)
    ensures var e := RecordEntry(rec, last, parse);
            ReadEntry(LogReader(Stream(RecordText(rec) + more, EndOfFile), last), parse)
              == Read(e, LogReader(Stream(more, EndOfFile), e.time))
  {
    MatchHeaderSound(rec.head);
    var h := MatchHeader(rec.head).value;
    var t := ResolveTime(h.time, last, parse);
    var e := Entry(t, ParseId(h.id), h.command, []);
    var arg := rec.head[|h.Prefix()|..];
    ConcatAssoc(rec.head, Flatten(rec.body), more);
    FindHeaderLine(rec.head, Flatten(rec.body) + more, last, parse);
    ConsumeBody(rec.body, more, e, arg, t);
    var st := Stream(RecordText(rec) + more, EndOfFile);
    assert ReadEntry(LogReader(st, last), parse) == Find(st, last, parse);
    RecordEntryOf(rec, last, parse);
  }

  /** The header's text after its prefix is not empty, and the record's
      entry has as argument that text and the continuation lines, less
      one byte. */
  lemma RecordEntryOf(rec: Record, last: Timestamp, parse: TimeParser)
    requires HeadLine(rec.head)
    ensures var h := MatchHeader(rec.head).value;
            var arg := rec.head[|h.Prefix()|..];
            |arg| > 0
            && RecordEntry(rec, last, parse)
               == Entry(ResolveTime(h.time, last, parse), ParseId(h.id), h.command, []).(argument := Trim(arg + Flatten(rec.body)))
  {
    MatchHeaderSound(rec.head);
    var p := MatchHeader(rec.head).value.Prefix();
    assert p[|p| - 1] == '\t';
    assert rec.head[|p| - 1] == p[|p| - 1];
  }

  /** The find state in front of a complete header line starts the entry
      from it and consumes from the next line. */
  lemma FindHeaderLine(line: string, rest: string, last: Timestamp, parse: TimeParser)
    requires IsLine(line) && MatchHeader(line).Some? && MatchHeader(line).value.Shaped()
    ensures var h := MatchHeader(line).value;
            var t := ResolveTime(h.time, last, parse);
            && |h.Prefix()| < |line|
            && Find(Stream(line + rest, EndOfFile), last, parse)
                 == Consume(Stream(rest, EndOfFile), Entry(t, ParseId(h.id), h.command, []), line[|h.Prefix()|..], t)
  {
    MatchHeaderSound(line);
    ReadLineOf(line, rest, EndOfFile);
    var p := MatchHeader(line).value.Prefix();
    assert p[|p| - 1] == '\t';
    assert line[|p| - 1] == p[|p| - 1];
  }

  /** The consume state over well-formed continuation lines appends them
      all and stops in front of `more`. */
  lemma {:induction false} ConsumeBody(body: seq<string>, more: string, e: Entry, arg: string, last: Timestamp)
    requires |arg| > 0 && BodyContinues(body, more) && StopsBefore(more)
    ensures Consume(Stream(Flatten(body) + more, EndOfFile), e, arg, last)
              == Read(e.(argument := Trim(arg + Flatten(body))), LogReader(Stream(more, EndOfFile), last))
    decreases |body|
  {
    if |body| == 0 {
      ConsumeNoBody(body, more, e, arg, last);
    } else {
      ConsumeBody(body[1..], more, e, arg + body[0], last);
      ConsumeBodyStep(body, more, e, arg, last);
    }
  }

  /** Without continuation lines the consume state stops at once. */
  lemma ConsumeNoBody(body: seq<string>, more: string, e: Entry, arg: string, last: Timestamp)
    requires |body| == 0 && |arg| > 0 && StopsBefore(more)
    ensures Consume(Stream(Flatten(body) + more, EndOfFile), e, arg, last)
              == Read(e.(argument := Trim(arg + Flatten(body))), LogReader(Stream(more, EndOfFile), last))
  {
    assert Flatten(body) == [];
    EmptyConcat(more);
    EmptyConcat(arg);
    ConsumeStopsHere(more, e, arg, last);
  }

  /** In front of text that stops it, the consume state finishes the
      entry at once. */
  lemma ConsumeStopsHere(data: string, e: Entry, arg: string, last: Timestamp)
    requires |arg| > 0 && StopsBefore(data)
    ensures Consume(Stream(data, EndOfFile), e, arg, last) == Read(e.(argument := Trim(arg)), LogReader(Stream(data, EndOfFile), last))
  {
  }

  /** The step of `ConsumeBody`: the first continuation line is appended,
      and the rest consumed after it. */
  lemma ConsumeBodyStep(body: seq<string>, more: string, e: Entry, arg: string, last: Timestamp)
    requires |body| > 0 && BodyContinues(body, more)
    requires Consume(Stream(Flatten(body[1..]) + more, EndOfFile), e, arg + body[0], last)
               == Read(e.(argument := Trim((arg + body[0]) + Flatten(body[1..]))), LogReader(Stream(more, EndOfFile), last))
    ensures Consume(Stream(Flatten(body) + more, EndOfFile), e, arg, last)
              == Read(e.(argument := Trim(arg + Flatten(body))), LogReader(Stream(more, EndOfFile), last))
  {
    ConcatAssoc(body[0], Flatten(body[1..]), more);
    ReadLineOf(body[0], Flatten(body[1..]) + more, EndOfFile);
    ConsumeContinues(Flatten(body) + more, e, arg, last);
    ConcatAssoc(arg, body[0], Flatten(body[1..]));
  }

  /** At a clean stream whose window is neither empty nor a header, the
      consume state appends the next line and goes on. */
  lemma ConsumeContinues(data: string, e: Entry, arg: string, last: Timestamp)
    requires |data| > 0 && !IsHeader(Window(data))
    ensures var l := ReadLine(Stream(data, EndOfFile));
            Consume(Stream(data, EndOfFile), e, arg, last) == Consume(l.rest, e, arg + l.text, last)
  {
  }

  /** `ReadString('\n')` in front of a complete line returns that line. */
  lemma ReadLineOf(line: string, rest: string, end: StreamEnd)
    requires IsLine(line)
    ensures ReadLine(Stream(line + rest, end)) == LineRead(line, Stream(rest, end), false)
  {
    var s := line + rest;
    forall k | 0 <= k < |line| - 1
      ensures NotNewline(s[k])
    {
      assert s[k] == line[..|line| - 1][k];
    }
    SpanStops(s, 0, |line| - 1, NotNewline);
    assert s[..|line|] == line;
  }

  /** The text after a record stops the consume state: it is empty or its
      window starts with the next header line's prefix. */
  lemma NextRecordStops(log: seq<Record>)
    requires WellFormedLog(log)
    ensures StopsBefore(Text(log))
  {
    if |log| > 0 {
      ConcatAssoc(log[0].head, Flatten(log[0].body), Text(log[1..]));
      HeadLineStops(log[0].head, Flatten(log[0].body) + Text(log[1..]));
    }
  }

  /** Text that starts with a header line stops the consume state: the
      header's prefix fits in the window, and matching reads only that. */
  lemma HeadLineStops(head: string, more: string)
    requires HeadLine(head)
    ensures StopsBefore(head + more)
  {
    var s := head + more;
    var p := MatchHeader(head).value.Prefix();
    MatchHeaderSound(head);
    var w := Window(s);
    assert s[..|head|] == head;
    assert |p| <= |w|;
    assert w[..|p|] == s[..|p|];
    MatchDependsOnPrefix(head, w);
  }

  /** A header line that ends the input without a newline: its last byte
      is dropped as if it were the newline, and when nothing follows the
      prefix the source's `Truncate(-1)` panics. */
  lemma UnterminatedLastLine(line: string, last: Timestamp, parse: TimeParser)
    requires NoNewline(line) && MatchHeader(line).Some? && MatchHeader(line).value.Shaped()
    ensures var h := MatchHeader(line).value;
            var p := h.Prefix();
            var t := ResolveTime(h.time, last, parse);
            var res := Find(Stream(line, EndOfFile), last, parse);
            && (|p| < |line| ==> res == Read(Entry(t, ParseId(h.id), h.command, line[|p|..|line| - 1]), LogReader(Stream([], EndOfFile), t)))
            && (|p| == |line| ==> res == Panicked)
  {
    var h := MatchHeader(line).value;
    var t := ResolveTime(h.time, last, parse);
    var p := h.Prefix();
    FindLastLine(line, last, parse);
    ConsumeAtEnd(Entry(t, ParseId(h.id), h.command, []), line[|p|..], t);
    if |p| < |line| {
      assert line[|p|..][..|line| - |p| - 1] == line[|p|..|line| - 1];
    }
  }

  /** The find state in front of a final header line with no newline. */
  lemma FindLastLine(line: string, last: Timestamp, parse: TimeParser)
    requires NoNewline(line) && MatchHeader(line).Some? && MatchHeader(line).value.Shaped()
    ensures var h := MatchHeader(line).value;
            var t := ResolveTime(h.time, last, parse);
            && |h.Prefix()| <= |line|
            && Find(Stream(line, EndOfFile), last, parse)
                 == Consume(Stream([], EndOfFile), Entry(t, ParseId(h.id), h.command, []), line[|h.Prefix()|..], t)
  {
    MatchHeaderSound(line);
    SpanStops(line, 0, |line|, NotNewline);
  }

  /** The consume state at the end of the input finishes the entry, or
      panics when the argument is empty. */
  lemma ConsumeAtEnd(e: Entry, arg: string, last: Timestamp)
    ensures Consume(Stream([], EndOfFile), e, arg, last)
              == if |arg| == 0 then Panicked else Read(e.(argument := arg[..|arg| - 1]), LogReader(Stream([], EndOfFile), last))
  {
  }

  /** Input whose first header line is its last line, a bare header
      prefix with nothing after its closing tab and no newline, panics:
      e.g. input that ends in `\t\t15 Quit\t` with no header line before
      it.  Only the first header line counts: a complete header line
      earlier in the input is read as an entry instead. */
  lemma BareHeaderAtEndPanics(r: LogReader, parse: TimeParser)
    requires r.input.end == EndOfFile
    requires var ls := Lines(r.input.data);
             |ls| > 0 && FirstHeader(ls) == |ls| - 1 && Last(ls) == MatchHeader(Last(ls)).value.Prefix()
    ensures ReadEntry(r, parse) == Panicked
  {
    assert ReadEntry(r, parse) == Find(r.input, r.lastTime, parse);
    BareHeaderLinePanics(r.input, r.lastTime, parse);
  }

  /** The find state skips the lines before the bare header, then panics. */
  lemma {:induction false} BareHeaderLinePanics(st: Stream, last: Timestamp, parse: TimeParser)
    requires st.end == EndOfFile
    requires var ls := Lines(st.data);
             |ls| > 0 && FirstHeader(ls) == |ls| - 1 && Last(ls) == MatchHeader(Last(ls)).value.Prefix()
    ensures Find(st, last, parse) == Panicked
    decreases |st.data|
  {
    var ls := Lines(st.data);
    var l := ReadLine(st);
    LineAdvance(st);
    assert l.text == st.data[..|l.text|];
    assert ls == [l.text] + Lines(l.rest.data);
    ConsTail(l.text, Lines(l.rest.data));
    if |ls| == 1 {
      BareLastLine(st.data, Last(ls), last, parse);
    } else {
      assert !IsHeader(ls[0]);
      assert FirstHeader(ls) == 1 + FirstHeader(ls[1..]);
      assert Last(ls[1..]) == Last(ls);
      BareHeaderLinePanics(l.rest, last, parse);
      assert Find(st, last, parse) == Find(l.rest, last, parse);
    }
  }

  /** A bare header prefix as the whole input panics. */
  lemma BareLastLine(data: string, line: string, last: Timestamp, parse: TimeParser)
    requires Lines(data) == [line] && IsHeader(line) && line == MatchHeader(line).value.Prefix()
    ensures Find(Stream(data, EndOfFile), last, parse) == Panicked
  {
    MatchHeaderSound(line);
    assert data == Flatten([line]);
    assert line[|line| - 1] == '\t';
    assert NoNewline(line);
    UnterminatedLastLine(line, last, parse);
  }
}
