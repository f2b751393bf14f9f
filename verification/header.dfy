/**
 * The header-line grammar of the general query log (mygl/reader.go:13-14):
 *
 *   ^(\d{6} \d{2}:\d{2}:\d{2}|\t)\t\s*([\d]+) ([^\t]+)\t
 *
 * i.e. a fixed-width time or a single tab placeholder, a tab, optional
 * white space, a digit run (the connection id), one space, a non-empty
 * tab-free command name, and a tab.  The character classes that follow
 * one another are disjoint, so the match, when there is one, is unique;
 * `MatchHeader` computes it by scanning and `MatchHeaderIff` ties it to
 * the declarative shape `MatchesAt`.
 *
 * Each `char` stands for one byte of the log.
 */
module Header {
  import opened Common

  /** Go's `\d`: an ASCII decimal digit. */
  predicate IsDigit(c: char)
  {
    '0' <= c <= '9'
  }

  /** Go's `\s`, the Perl class [\t\n\f\r ] (vertical tab excluded). */
  predicate IsSpace(c: char)
  {
    c == '\t' || c == '\n' || c == '\U{0C}' || c == '\r' || c == ' '
  }

  predicate NotTab(c: char)
  {
    c != '\t'
  }

  predicate AllSpace(s: seq<char>)
  {
    forall i :: 0 <= i < |s| ==> IsSpace(s[i])
  }

  predicate AllDigits(s: seq<char>)
  {
    forall i :: 0 <= i < |s| ==> IsDigit(s[i])
  }

  predicate NoTab(s: seq<char>)
  {
    forall i :: 0 <= i < |s| ==> NotTab(s[i])
  }

  /** Width of the time column, `\d{6} \d{2}:\d{2}:\d{2}`. */
  const TimeWidth := 15

  /** The time column: six digits, a space, then two-digit hours, minutes
      and seconds separated by colons. */
  predicate IsTimeField(s: seq<char>)
  {
    && |s| == TimeWidth
    && IsDigit(s[0]) && IsDigit(s[1]) && IsDigit(s[2]) && IsDigit(s[3]) && IsDigit(s[4]) && IsDigit(s[5])
    && s[6] == ' '
    && IsDigit(s[7]) && IsDigit(s[8]) && s[9] == ':'
    && IsDigit(s[10]) && IsDigit(s[11]) && s[12] == ':'
    && IsDigit(s[13]) && IsDigit(s[14])
  }

  /** The first index at or after `i` whose character fails `p` (or |s|). */
  function Span(s: seq<char>, i: nat, p: char -> bool): (j: nat)
    requires i <= |s|
    ensures i <= j <= |s|
    ensures forall k :: i <= k < j ==> p(s[k])
    ensures j == |s| || !p(s[j])
    decreases |s| - i
  {
    if i == |s| || !p(s[i]) then i else Span(s, i + 1, p)
  }

  /** The parts of a header prefix: the time column (or the tab
      placeholder), the white space before the id, the id digits and the
      command name. */
  datatype HeaderMatch = HeaderMatch(time: seq<char>, spaces: seq<char>, id: seq<char>, command: seq<char>)
  {
    /** The matched text, `matches[0]` in the source. */
    function Prefix(): seq<char>
    {
      time + "\t" + spaces + id + " " + command + "\t"
    }

    /** Every part has the shape its sub-pattern demands. */
    predicate Shaped()
    {
      && (IsTimeField(time) || time == "\t")
      && AllSpace(spaces)
      && |id| > 0 && AllDigits(id)
      && |command| > 0 && NoTab(command)
    }
  }

  /** The declarative reading of the grammar: `s` starts with the prefix
      that the parts `m` spell out. */
  predicate MatchesAt(s: seq<char>, m: HeaderMatch)
  {
    m.Shaped() && |m.Prefix()| <= |s| && s[..|m.Prefix()|] == m.Prefix()
  }

  /** Length of the time alternative found at the start of `s` (0: none). */
  function TimeColumn(s: seq<char>): nat
  {
    if |s| >= TimeWidth && IsTimeField(s[..TimeWidth]) then TimeWidth
    else if |s| >= 1 && s[0] == '\t' then 1
    else 0
  }

  /** Anchored match of the header pattern, `FindStringSubmatch`. */
  function MatchHeader(s: seq<char>): (r: Option<HeaderMatch>)
  {
    var t := TimeColumn(s);
    if t == 0 || |s| <= t || s[t] != '\t' then None
    else
      var a := Span(s, t + 1, IsSpace);
      var b := Span(s, a, IsDigit);
      if b == a || b == |s| || s[b] != ' ' then None
      else
        var c := Span(s, b + 1, NotTab);
        if c == b + 1 || c == |s| then None
        else
          Some(HeaderMatch(s[..t], s[t + 1..a], s[a..b], s[b + 1..c]))
  }

  lemma PrefixReassembles(s: seq<char>, t: nat, a: nat, b: nat, c: nat)
    requires t < a <= b < c < |s|
    requires s[t] == '\t' && s[b] == ' ' && s[c] == '\t'
    ensures HeaderMatch(s[..t], s[t + 1..a], s[a..b], s[b + 1..c]).Prefix() == s[..c + 1]
  {
    assert s[..t + 1] == s[..t] + "\t";
    assert s[..a] == s[..t + 1] + s[t + 1..a];
    assert s[..b] == s[..a] + s[a..b];
    assert s[..b + 1] == s[..b] + " ";
    assert s[..c] == s[..b + 1] + s[b + 1..c];
    assert s[..c + 1] == s[..c] + "\t";
  }

  /** `prefixRegexp.Match`: does `s` start with a header? */
  predicate IsHeader(s: seq<char>)
  {
    MatchHeader(s).Some?
  }

  /** The scanner finds exactly the declarative matches: a match exists
      iff the text has the shape, and then it is the only one. */
  lemma MatchHeaderIff(s: seq<char>, m: HeaderMatch)
    ensures MatchHeader(s) == Some(m) <==> MatchesAt(s, m)
  {
    MatchHeaderSound(s);
    if MatchesAt(s, m) {
      MatchesAtComputed(s, m);
    }
  }

  /** Whatever the scanner returns has the declared shape. */
  lemma MatchHeaderSound(s: seq<char>)
    ensures MatchHeader(s).Some? ==> MatchesAt(s, MatchHeader(s).value)
  {
    var t := TimeColumn(s);
    if MatchHeader(s).Some? {
      var a := Span(s, t + 1, IsSpace);
      var b := Span(s, a, IsDigit);
      var c := Span(s, b + 1, NotTab);
      ScanComputes(s, t, a, b, c);
      ScanShaped(s, t, a, b, c);
    }
  }

  /** The scan positions of a successful match: the time column ends at
      `t`, the white space at `a`, the id at `b` and the command at `c`. */
  predicate ScanPositions(s: seq<char>, t: nat, a: nat, b: nat, c: nat)
  {
    && t == TimeColumn(s) && 0 < t < |s| && s[t] == '\t'
    && a == Span(s, t + 1, IsSpace)
    && b == Span(s, a, IsDigit) && a < b < |s| && s[b] == ' '
    && c == Span(s, b + 1, NotTab) && b + 1 < c < |s|
  }

  lemma ScanComputes(s: seq<char>, t: nat, a: nat, b: nat, c: nat)
    requires ScanPositions(s, t, a, b, c)
    ensures MatchHeader(s) == Some(HeaderMatch(s[..t], s[t + 1..a], s[a..b], s[b + 1..c]))
  {
  }

  lemma ScanShaped(s: seq<char>, t: nat, a: nat, b: nat, c: nat)
    requires ScanPositions(s, t, a, b, c)
    ensures MatchesAt(s, HeaderMatch(s[..t], s[t + 1..a], s[a..b], s[b + 1..c]))
  {
    var m := HeaderMatch(s[..t], s[t + 1..a], s[a..b], s[b + 1..c]);
    if t == 1 {
      assert m.time == "\t";
    } else {
      assert IsTimeField(m.time);
    }
    assert AllSpace(m.spaces);
    assert AllDigits(m.id);
    assert NoTab(m.command);
    PrefixReassembles(s, t, a, b, c);
  }

  lemma MatchesAtComputed(s: seq<char>, m: HeaderMatch)
    requires MatchesAt(s, m)
    ensures MatchHeader(s) == Some(m)
  {
    var t := |m.time|;
    var a := t + 1 + |m.spaces|;
    var b := a + |m.id|;
    var c := b + 1 + |m.command|;
    ScanFacts(s, m, t, a, b, c);
    ScanComputes(s, t, a, b, c);
    MatchOfParts(m, s[..t], s[t + 1..a], s[a..b], s[b + 1..c]);
  }

  lemma MatchOfParts(m: HeaderMatch, time: seq<char>, spaces: seq<char>, id: seq<char>, command: seq<char>)
    requires time == m.time && spaces == m.spaces && id == m.id && command == m.command
    ensures HeaderMatch(time, spaces, id, command) == m
  {}

  /** Where a matched prefix lies, the scan of `MatchHeader` finds its
      parts. */
  lemma ScanFacts(s: seq<char>, m: HeaderMatch, t: nat, a: nat, b: nat, c: nat)
    requires MatchesAt(s, m)
    requires t == |m.time| && a == t + 1 + |m.spaces| && b == a + |m.id| && c == b + 1 + |m.command|
    ensures ScanPositions(s, t, a, b, c)
    ensures s[..t] == m.time && s[t + 1..a] == m.spaces && s[a..b] == m.id && s[b + 1..c] == m.command
  {
    PartsInText(s, m, t, a, b, c);
    TimeColumnOf(s, m);
    ScanEnds(s, m, t, a, b, c);
  }


  /** The scan over each part stops where the part ends. */
  lemma ScanEnds(s: seq<char>, m: HeaderMatch, t: nat, a: nat, b: nat, c: nat)
    requires m.Shaped()
    requires t == |m.time| && a == t + 1 + |m.spaces| && b == a + |m.id| && c == b + 1 + |m.command|
    requires c < |s| && s[b] == ' ' && s[c] == '\t'
    requires s[t + 1..a] == m.spaces && s[a..b] == m.id && s[b + 1..c] == m.command
    ensures Span(s, t + 1, IsSpace) == a && Span(s, a, IsDigit) == b && Span(s, b + 1, NotTab) == c
  {
    assert s[a] == m.id[0];
    SpanOver(s, t + 1, a, m.spaces, IsSpace);
    SpanOver(s, a, b, m.id, IsDigit);
    SpanOver(s, b + 1, c, m.command, NotTab);
  }

  lemma PartsInText(s: seq<char>, m: HeaderMatch, t: nat, a: nat, b: nat, c: nat)
    requires MatchesAt(s, m)
    requires t == |m.time| && a == t + 1 + |m.spaces| && b == a + |m.id| && c == b + 1 + |m.command|
    ensures c < |s| && s[t] == '\t' && s[b] == ' ' && s[c] == '\t'
    ensures s[..t] == m.time && s[t + 1..a] == m.spaces && s[a..b] == m.id && s[b + 1..c] == m.command
  {
    var p := m.Prefix();
    PrefixSlices(m, t, a, b, c);
    var u := s[..c + 1];
    assert u == p;
    SliceOfPrefix(s, c + 1, 0, t);
    SliceOfPrefix(s, c + 1, t + 1, a);
    SliceOfPrefix(s, c + 1, a, b);
    SliceOfPrefix(s, c + 1, b + 1, c);
    assert s[t] == u[t] && s[b] == u[b] && s[c] == u[c];
  }

  lemma TimeColumnOf(s: seq<char>, m: HeaderMatch)
    requires m.Shaped() && |m.time| < |s| && s[..|m.time|] == m.time
    ensures TimeColumn(s) == |m.time|
  {
    if m.time == "\t" {
      assert s[0] == s[..1][0];
      assert |s| < TimeWidth || !IsTimeField(s[..TimeWidth]) by { assert !IsDigit(s[0]); }
    } else {
      assert s[..TimeWidth] == m.time;
    }
  }

  /** The positions of the parts inside a spelled-out prefix. */
  lemma PrefixSlices(m: HeaderMatch, t: nat, a: nat, b: nat, c: nat)
    requires t == |m.time| && a == t + 1 + |m.spaces| && b == a + |m.id| && c == b + 1 + |m.command|
    ensures |m.Prefix()| == c + 1
    ensures m.Prefix()[..t] == m.time && m.Prefix()[t] == '\t' && m.Prefix()[t + 1..a] == m.spaces
    ensures m.Prefix()[a..b] == m.id && m.Prefix()[b] == ' ' && m.Prefix()[b + 1..c] == m.command && m.Prefix()[c] == '\t'
  {
    var p1 := m.time + "\t";
    var p2 := p1 + m.spaces;
    var p3 := p2 + m.id;
    var p4 := p3 + " ";
    var p5 := p4 + m.command;
    var p := p5 + "\t";
    assert p == m.Prefix();
    assert p[..|p5|] == p5 && p5[..|p4|] == p4 && p4[..|p3|] == p3 && p3[..|p2|] == p2 && p2[..|p1|] == p1;
    assert p1[..|m.time|] == m.time;
    assert p2[|p1|..] == m.spaces && p3[|p2|..] == m.id && p5[|p4|..] == m.command;
  }

  /** `Span` from `i` runs over a part `w` that occupies s[i..j] and stops
      at the delimiter after it. */
  lemma SpanOver(s: seq<char>, i: nat, j: nat, w: seq<char>, p: char -> bool)
    requires i <= j < |s| && s[i..j] == w
    requires forall k :: 0 <= k < |w| ==> p(w[k])
    requires !p(s[j])
    ensures Span(s, i, p) == j
  {
    forall k | i <= k < j
      ensures p(s[k])
    {
      assert s[k] == w[k - i];
    }
    SpanStops(s, i, j, p);
  }

  /** `Span` stops at the first character that fails the predicate. */
  lemma SpanStops(s: seq<char>, i: nat, j: nat, p: char -> bool)
    requires i <= j <= |s|
    requires forall k :: i <= k < j ==> p(s[k])
    requires j == |s| || !p(s[j])
    ensures Span(s, i, p) == j
    decreases j - i
  {
    if i < j {
      SpanStops(s, i + 1, j, p);
    }
  }

  /** Whether a text starts with a header depends only on the matched
      prefix: any text sharing that prefix matches the same way.  This is
      why a 64-byte window sees a header whose prefix fits in it. */
  lemma MatchDependsOnPrefix(s: seq<char>, u: seq<char>)
    requires MatchHeader(s).Some?
    requires |MatchHeader(s).value.Prefix()| <= |u|
    requires u[..|MatchHeader(s).value.Prefix()|] == s[..|MatchHeader(s).value.Prefix()|]
    ensures MatchHeader(u) == MatchHeader(s)
  {
    var m := MatchHeader(s).value;
    MatchHeaderSound(s);
    MatchesAtComputed(u, m);
  }

  /** Largest value of Go's `int` on a 64-bit platform. */
  const MaxInt: int := 0x7FFF_FFFF_FFFF_FFFF

  /** Decimal value of a digit string. */
  function DigitsValue(d: seq<char>): nat
    requires AllDigits(d)
    decreases |d|
  {
    if |d| == 0 then 0
    else DigitsValue(d[..|d| - 1]) * 10 + (d[|d| - 1] as int - '0' as int)
  }

  /** The connection id: `strconv.Atoi` of the digit group when it
      succeeds, else the zero the entry started with.  On digit-only text
      Atoi fails exactly when the value exceeds the int range. */
  function ParseId(d: seq<char>): (id: int)
    requires AllDigits(d)
    ensures 0 <= id <= MaxInt
    ensures id == DigitsValue(d) || (id == 0 && DigitsValue(d) > MaxInt)
  {
    var v := DigitsValue(d);
    if v <= MaxInt then v else 0
  }

  /** Decimal rendering of a natural number, without leading zeros. */
  function Decimal(n: nat): (d: seq<char>)
    ensures |d| > 0 && AllDigits(d)
    decreases n
  {
    var digit := ('0' as int + n % 10) as char;
    if n < 10 then [digit] else Decimal(n / 10) + [digit]
  }

  /** Reading back a rendered id gives the id, for every id in range. */
  lemma {:induction false} ParseIdDecimal(n: nat)
    requires n <= MaxInt
    ensures ParseId(Decimal(n)) == n
  {
    DigitsValueDecimal(n);
  }

  lemma {:induction false} DigitsValueDecimal(n: nat)
    ensures DigitsValue(Decimal(n)) == n
    decreases n
  {
    var d := Decimal(n);
    if n >= 10 {
      DigitsValueDecimal(n / 10);
      assert d[..|d| - 1] == Decimal(n / 10);
    }
  }
}
