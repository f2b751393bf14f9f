/**
 * The replay counters (stats.go): a map from counter id to a shared
 * integer cell.  The model is the map of current values; the atomic
 * update is a pure map update.
 */
module Stats {

  /** Counter ids, in the order of the source's `iota` block (stats.go:5-12). */
  const QueryCount := 0
  const QueryFailed := 1
  const QuerySkipped := 2
  const ConnCount := 3
  const ConnOpen := 4
  const ConnFailed := 5

  type Counters = map<int, int>

  /** Every counter id has a cell. */
  predicate HasAll(s: Counters)
  {
    forall c :: QueryCount <= c <= ConnFailed ==> c in s
  }

  /** `newStats`: one zeroed cell per counter id, and no other. */
  function NewStats(): (s: Counters)
    ensures HasAll(s)
    ensures forall c :: c in s <==> QueryCount <= c <= ConnFailed
    ensures forall c :: Get(s, c) == 0
  {
    map[QueryCount := 0, QueryFailed := 0, QuerySkipped := 0, ConnCount := 0, ConnOpen := 0, ConnFailed := 0]
  }

  /** `get`: the counter's value, or 0 when it has no cell. */
  function Get(s: Counters, c: int): int
  {
    if c in s then s[c] else 0
  }

  /** `add`: moves one counter by `delta`.  The source dereferences the
      cell, so the counter must have one. */
  function Add(s: Counters, c: int, delta: int): (r: Counters)
    requires c in s
    ensures r.Keys == s.Keys
    ensures Get(r, c) == Get(s, c) + delta
    ensures forall d :: d != c ==> Get(r, d) == Get(s, d)
  {
    s[c := s[c] + delta]
  }

  function Inc(s: Counters, c: int): (r: Counters)
    requires c in s
    ensures r.Keys == s.Keys
    ensures Get(r, c) == Get(s, c) + 1
    ensures forall d :: d != c ==> Get(r, d) == Get(s, d)
  {
    Add(s, c, 1)
  }

  function Dec(s: Counters, c: int): (r: Counters)
    requires c in s
    ensures r.Keys == s.Keys
    ensures Get(r, c) == Get(s, c) - 1
    ensures forall d :: d != c ==> Get(r, d) == Get(s, d)
  {
    Add(s, c, -1)
  }

  /** A decrement undoes an increment (the open-connections gauge). */
  lemma IncDecRestores(s: Counters, c: int)
    requires c in s
    ensures Dec(Inc(s, c), c) == s
  {
  }

  /** Updates commute: concurrent workers' increments may land in any
      order and give the same counters. */
  lemma AddCommutes(s: Counters, c: int, x: int, d: int, y: int)
    requires c in s && d in s
    ensures Add(Add(s, c, x), d, y) == Add(Add(s, d, y), c, x)
  {
  }

  /** Two counter maps with the same cells are equal when they agree on
      every counter. */
  lemma CountersExt(a: Counters, b: Counters)
    requires a.Keys == b.Keys
    requires forall c :: Get(a, c) == Get(b, c)
    ensures a == b
  {
    forall c | c in a
      ensures a[c] == b[c]
    {
      assert Get(a, c) == Get(b, c);
    }
  }
}
