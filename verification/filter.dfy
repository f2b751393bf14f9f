/**
 * The read-only statement filter, `(?i)^\s*select` (main.go:24): optional
 * leading white space, then the word `select` in any letter case.
 */
module Filter {
  import opened Header

  const Keyword := "select"

  /** ASCII lower-casing, the case folding `(?i)` applies to these letters. */
  function Lower(c: char): (r: char)
    ensures 'A' <= c <= 'Z' ==> r as int == c as int + 32
    ensures !('A' <= c <= 'Z') ==> r == c
  {
    if 'A' <= c <= 'Z' then (c as int + 32) as char else c
  }

  /** `w` equals `word` up to letter case. */
  predicate FoldEquals(w: string, word: string)
  {
    |w| == |word| && forall i :: 0 <= i < |w| ==> Lower(w[i]) == word[i]
  }

  /** The scanning matcher: skip the white space, then compare six
      characters case-insensitively. */
  predicate IsReadOnly(stmt: string)
  {
    var k := Span(stmt, 0, IsSpace);
    k + |Keyword| <= |stmt| && FoldEquals(stmt[k..k + |Keyword|], Keyword)
  }

  /** The pattern's declarative reading: some all-space prefix is followed
      by `select` in any case.  The scanner decides exactly this. */
  lemma IsReadOnlyIff(stmt: string)
    ensures IsReadOnly(stmt) <==>
              exists k :: 0 <= k && k + |Keyword| <= |stmt| && AllSpace(stmt[..k]) && FoldEquals(stmt[k..k + |Keyword|], Keyword)
  {
    var k := Span(stmt, 0, IsSpace);
    if IsReadOnly(stmt) {
      assert AllSpace(stmt[..k]);
    }
    if exists j :: 0 <= j && j + |Keyword| <= |stmt| && AllSpace(stmt[..j]) && FoldEquals(stmt[j..j + |Keyword|], Keyword) {
      var j :| 0 <= j && j + |Keyword| <= |stmt| && AllSpace(stmt[..j]) && FoldEquals(stmt[j..j + |Keyword|], Keyword);
      SpanAtKeyword(stmt, j);
    }
  }

  /** White space cannot fold to `s`, so the scan stops exactly where the
      keyword starts. */
  lemma SpanAtKeyword(stmt: string, j: nat)
    requires j + |Keyword| <= |stmt| && AllSpace(stmt[..j])
    requires FoldEquals(stmt[j..j + |Keyword|], Keyword)
    ensures Span(stmt, 0, IsSpace) == j
  {
    forall i | 0 <= i < j
      ensures IsSpace(stmt[i])
    {
      assert stmt[i] == stmt[..j][i];
    }
    assert Lower(stmt[j..j + |Keyword|][0]) == 's';
    SpanStops(stmt, 0, j, IsSpace);
  }

  /** Examples from the filter's intent: upper or mixed case and leading
      blank lines or tabs are accepted; other statements and a keyword
      that is only a prefix of a shorter text are not. */
  lemma FilterExamples()
    ensures IsReadOnly("SELECT 1")
    ensures IsReadOnly(" \t\nSeLeCt * FROM t")
    ensures !IsReadOnly("UPDATE t SET a = 1")
    ensures !IsReadOnly("sel")
    ensures !IsReadOnly("-- x\nSELECT 1")
  {
    SpanStops("SELECT 1", 0, 0, IsSpace);
    SpanStops(" \t\nSeLeCt * FROM t", 0, 3, IsSpace);
    SpanStops("UPDATE t SET a = 1", 0, 0, IsSpace);
    SpanStops("-- x\nSELECT 1", 0, 0, IsSpace);
  }
}
