/**
 * A worker's handling of one batch (main.go:93-124): entries are executed
 * in order against at most one backend handle, updating the counters;
 * the handle still open at the end is closed.
 *
 * The backend is an oracle: `ok(i)` says whether the operation attempted
 * for the batch's i-th entry succeeds (for `Connect`, opening and pinging
 * the connection; for `Query`, executing the statement).  The calls the
 * worker makes are recorded in order.
 */
module Worker {
  import opened Common
  import opened Commands
  import opened Reader
  import opened Stats
  import opened Dsn
  import opened Filter

  /** A call on the backend. */
  datatype Call = Open(dsn: string) | Exec(statement: string) | Close

  /** The replay settings a worker consults: the base data source name and
      whether the read-only filter is on. */
  datatype Config = Config(baseDsn: string, readOnly: bool)

  type Backend = nat -> bool

  /** The worker's state within a batch: the counters, whether it holds a
      handle (`conn != nil`), and the calls made so far. */
  datatype Session = Session(counters: Counters, open: bool, calls: seq<Call>)

  /** What a batch leaves behind: the counters and the calls made. */
  datatype BatchResult = BatchResult(counters: Counters, calls: seq<Call>)

  /** The filter lets a statement through (main.go:111-112). */
  predicate Allowed(cfg: Config, stmt: string)
  {
    !cfg.readOnly || IsReadOnly(stmt)
  }

  /** The backend calls one entry makes while a handle is held (`open`)
      or not: a `Connect` opens one; an allowed `Query` with a handle
      executes. */
  function StepCalls(cfg: Config, open: bool, e: Entry): seq<Call>
  {
    if e.Is(Connect) then [Open(SessionDsn(cfg.baseDsn, e.argument))]
    else if e.Is(Query) && open && Allowed(cfg, e.argument) then [Exec(e.argument)]
    else []
  }

  /** One entry of the batch, `ok` the backend's answer for it. */
  function Apply(cfg: Config, s: Session, e: Entry, ok: bool): (r: Session)
    requires HasAll(s.counters)
    ensures r.counters.Keys == s.counters.Keys
  {
    var calls := s.calls + StepCalls(cfg, s.open, e);
    if e.Is(Connect) then
      var c := Inc(s.counters, ConnCount);
      if ok then Session(Inc(c, ConnOpen), true, calls)
      else Session(Inc(c, ConnFailed), false, calls)
    else if e.Is(Query) then
      var c := Inc(s.counters, QueryCount);
      if s.open && Allowed(cfg, e.argument) then
        Session(if ok then c else Inc(c, QueryFailed), true, calls)
      else
        Session(Inc(c, QuerySkipped), s.open, calls)
    else s
  }

  /** The entries `es` in order, the first being the batch's entry `i`. */
  function Process(cfg: Config, s: Session, es: seq<Entry>, ok: Backend, i: nat): (r: Session)
    requires HasAll(s.counters)
    ensures r.counters.Keys == s.counters.Keys
    decreases |es|
  {
    if |es| == 0 then s
    else Process(cfg, Apply(cfg, s, es[0], ok(i)), es[1..], ok, i + 1)
  }

  /** One batch: start without a handle, run every entry, close the handle
      if one is left (main.go:121-124). */
  function RunBatch(cfg: Config, counters: Counters, es: seq<Entry>, ok: Backend): (r: BatchResult)
    requires HasAll(counters)
    ensures r.counters.Keys == counters.Keys
  {
    var s := Process(cfg, Session(counters, false, []), es, ok, 0);
    if s.open then BatchResult(Dec(s.counters, ConnOpen), s.calls + [Close])
    else BatchResult(s.counters, s.calls)
  }

  // Reference definitions over a batch.

  function Count(es: seq<Entry>, c: Command): (n: nat)
    ensures n <= |es|
    decreases |es|
  {
    if |es| == 0 then 0 else (if es[0].Is(c) then 1 else 0) + Count(es[1..], c)
  }

  /** Connects whose backend answer is success. */
  function Opened(es: seq<Entry>, ok: Backend, i: nat): (n: nat)
    ensures n <= Count(es, Connect)
    decreases |es|
  {
    if |es| == 0 then 0 else (if es[0].Is(Connect) && ok(i) then 1 else 0) + Opened(es[1..], ok, i + 1)
  }

  /** Whether the handle is held after `es`, starting with `open`: the
      last `Connect`, if any, decides. */
  function HeldAfter(es: seq<Entry>, ok: Backend, i: nat, open: bool): bool
    decreases |es|
  {
    if |es| == 0 then open
    else HeldAfter(es[1..], ok, i + 1, if es[0].Is(Connect) then ok(i) else open)
  }

  /** The arguments of the `Query` entries that run while a handle is held
      and that the filter allows, in order. */
  function Executed(cfg: Config, es: seq<Entry>, ok: Backend, i: nat, open: bool): seq<string>
    decreases |es|
  {
    if |es| == 0 then []
    else
      (if es[0].Is(Query) && open && Allowed(cfg, es[0].argument) then [es[0].argument] else [])
      + Executed(cfg, es[1..], ok, i + 1, if es[0].Is(Connect) then ok(i) else open)
  }

  /** The executed `Query` entries whose execution fails, counted. */
  function FailedQueries(cfg: Config, es: seq<Entry>, ok: Backend, i: nat, open: bool): (n: nat)
    ensures n <= |Executed(cfg, es, ok, i, open)|
    decreases |es|
  {
    if |es| == 0 then 0
    else
      (if es[0].Is(Query) && open && Allowed(cfg, es[0].argument) && !ok(i) then 1 else 0)
      + FailedQueries(cfg, es[1..], ok, i + 1, if es[0].Is(Connect) then ok(i) else open)
  }

  /** The statements executed, in order. */
  function Execs(calls: seq<Call>): seq<string>
    decreases |calls|
  {
    if |calls| == 0 then []
    else (if calls[0].Exec? then [calls[0].statement] else []) + Execs(calls[1..])
  }

  /** The data source names opened, in order. */
  function Opens(calls: seq<Call>): seq<string>
    decreases |calls|
  {
    if |calls| == 0 then []
    else (if calls[0].Open? then [calls[0].dsn] else []) + Opens(calls[1..])
  }

  /** The data source name of each `Connect` entry, in order: the base
      name followed by the last word of the entry's argument. */
  function Targets(base: string, es: seq<Entry>): seq<string>
    decreases |es|
  {
    if |es| == 0 then []
    else (if es[0].Is(Connect) then [SessionDsn(base, es[0].argument)] else []) + Targets(base, es[1..])
  }

  /** The arguments of the batch's `Query` entries, in order. */
  function QueryArgs(es: seq<Entry>): seq<string>
    decreases |es|
  {
    if |es| == 0 then []
    else (if es[0].Is(Query) then [es[0].argument] else []) + QueryArgs(es[1..])
  }

  predicate NoClose(calls: seq<Call>)
  {
    forall k :: 0 <= k < |calls| ==> calls[k] != Close
  }

  function Delta(before: Counters, after: Counters, c: int): int
  {
    Get(after, c) - Get(before, c)
  }

  /** A batch's change to counter `k` is its first entry's change plus the
      change made by the entries after it. */
  lemma ProcessDelta(cfg: Config, s: Session, es: seq<Entry>, ok: Backend, i: nat, k: int)
    requires HasAll(s.counters) && |es| > 0
    ensures var next := Apply(cfg, s, es[0], ok(i));
            Delta(s.counters, Process(cfg, s, es, ok, i).counters, k)
              == Delta(s.counters, next.counters, k) + Delta(next.counters, Process(cfg, next, es[1..], ok, i + 1).counters, k)
  {}

  /** One entry's effect on the counters and the handle. */
  lemma ApplyCounts(cfg: Config, s: Session, e: Entry, ok: bool)
    requires HasAll(s.counters)
    ensures var r := Apply(cfg, s, e, ok);
            && Delta(s.counters, r.counters, QueryCount) == (if e.Is(Query) then 1 else 0)
            && Delta(s.counters, r.counters, ConnCount) == (if e.Is(Connect) then 1 else 0)
            && Delta(s.counters, r.counters, ConnOpen) == (if e.Is(Connect) && ok then 1 else 0)
            && Delta(s.counters, r.counters, ConnFailed) == (if e.Is(Connect) && !ok then 1 else 0)
            && r.open == (if e.Is(Connect) then ok else s.open)
  {
    ConnectIsNotQuery(e);
  }

  /** One entry's effect on the query outcome counters. */
  lemma ApplyQueries(cfg: Config, s: Session, e: Entry, ok: bool)
    requires HasAll(s.counters)
    ensures var r := Apply(cfg, s, e, ok);
            var executed := |Execs(StepCalls(cfg, s.open, e))|;
            && Delta(s.counters, r.counters, QueryCount) == executed + Delta(s.counters, r.counters, QuerySkipped)
            && 0 <= Delta(s.counters, r.counters, QueryFailed) <= executed
            && Delta(s.counters, r.counters, QueryFailed)
                 == (if e.Is(Query) && s.open && Allowed(cfg, e.argument) && !ok then 1 else 0)
  {
    ConnectIsNotQuery(e);
  }

  /** Attempt counters: one per `Query` entry and one per `Connect` entry;
      the open gauge rises once per successful connect; each attempted
      connect either opens or fails. */
  lemma ProcessCounts(cfg: Config, s: Session, es: seq<Entry>, ok: Backend, i: nat)
    requires HasAll(s.counters)
    ensures var r := Process(cfg, s, es, ok, i);
            && Delta(s.counters, r.counters, QueryCount) == Count(es, Query)
            && Delta(s.counters, r.counters, ConnCount) == Count(es, Connect)
            && Delta(s.counters, r.counters, ConnOpen) == Opened(es, ok, i)
            && Delta(s.counters, r.counters, ConnCount) == Opened(es, ok, i) + Delta(s.counters, r.counters, ConnFailed)
            && r.open == HeldAfter(es, ok, i, s.open)
  {
    ProcessAttemptCounts(cfg, s, es, ok, i);
    ProcessConnects(cfg, s, es, ok, i);
  }

  /** Every `Query` and every `Connect` of the batch is counted once. */
  lemma ProcessAttemptCounts(cfg: Config, s: Session, es: seq<Entry>, ok: Backend, i: nat)
    requires HasAll(s.counters)
    ensures var r := Process(cfg, s, es, ok, i);
            && Delta(s.counters, r.counters, QueryCount) == Count(es, Query)
            && Delta(s.counters, r.counters, ConnCount) == Count(es, Connect)
  {
    ProcessQueryCount(cfg, s, es, ok, i);
    ProcessConnCount(cfg, s, es, ok, i);
  }

  /** `QueryCount` grows by one for each `Query` entry. */
  lemma {:induction false} ProcessQueryCount(cfg: Config, s: Session, es: seq<Entry>, ok: Backend, i: nat)
    requires HasAll(s.counters)
    ensures Delta(s.counters, Process(cfg, s, es, ok, i).counters, QueryCount) == Count(es, Query)
    decreases |es|
  {
    if |es| > 0 {
      ProcessQueryCount(cfg, Apply(cfg, s, es[0], ok(i)), es[1..], ok, i + 1);
      ProcessQueryCountStep(cfg, s, es, ok, i);
    }
  }

  /** The induction step of `ProcessQueryCount`. */
  lemma ProcessQueryCountStep(cfg: Config, s: Session, es: seq<Entry>, ok: Backend, i: nat)
    requires HasAll(s.counters) && |es| > 0
    requires var next := Apply(cfg, s, es[0], ok(i));
             Delta(next.counters, Process(cfg, next, es[1..], ok, i + 1).counters, QueryCount) == Count(es[1..], Query)
    ensures Delta(s.counters, Process(cfg, s, es, ok, i).counters, QueryCount) == Count(es, Query)
  {
      ProcessDelta(cfg, s, es, ok, i, QueryCount);
      ApplyCounts(cfg, s, es[0], ok(i));
  }

  /** `ConnCount` grows by one for each `Connect` entry. */
  lemma {:induction false} ProcessConnCount(cfg: Config, s: Session, es: seq<Entry>, ok: Backend, i: nat)
    requires HasAll(s.counters)
    ensures Delta(s.counters, Process(cfg, s, es, ok, i).counters, ConnCount) == Count(es, Connect)
    decreases |es|
  {
    if |es| > 0 {
      ProcessConnCount(cfg, Apply(cfg, s, es[0], ok(i)), es[1..], ok, i + 1);
      ProcessConnCountStep(cfg, s, es, ok, i);
    }
  }

  /** The induction step of `ProcessConnCount`. */
  lemma ProcessConnCountStep(cfg: Config, s: Session, es: seq<Entry>, ok: Backend, i: nat)
    requires HasAll(s.counters) && |es| > 0
    requires var next := Apply(cfg, s, es[0], ok(i));
             Delta(next.counters, Process(cfg, next, es[1..], ok, i + 1).counters, ConnCount) == Count(es[1..], Connect)
    ensures Delta(s.counters, Process(cfg, s, es, ok, i).counters, ConnCount) == Count(es, Connect)
  {
      ProcessDelta(cfg, s, es, ok, i, ConnCount);
      ApplyCounts(cfg, s, es[0], ok(i));
  }

  /** Connects that succeed open the gauge, the others count as failed, and
      the handle held at the end is `HeldAfter`. */
  lemma ProcessConnects(cfg: Config, s: Session, es: seq<Entry>, ok: Backend, i: nat)
    requires HasAll(s.counters)
    ensures var r := Process(cfg, s, es, ok, i);
            && Delta(s.counters, r.counters, ConnOpen) == Opened(es, ok, i)
            && Delta(s.counters, r.counters, ConnCount) == Opened(es, ok, i) + Delta(s.counters, r.counters, ConnFailed)
            && r.open == HeldAfter(es, ok, i, s.open)
  {
    ProcessOpened(cfg, s, es, ok, i);
    ProcessConnSplit(cfg, s, es, ok, i);
    ProcessHeld(cfg, s, es, ok, i);
  }

  /** `ConnOpen` grows by one for each Connect the backend accepts. */
  lemma {:induction false} ProcessOpened(cfg: Config, s: Session, es: seq<Entry>, ok: Backend, i: nat)
    requires HasAll(s.counters)
    ensures Delta(s.counters, Process(cfg, s, es, ok, i).counters, ConnOpen) == Opened(es, ok, i)
    decreases |es|
  {
    if |es| > 0 {
      ProcessOpened(cfg, Apply(cfg, s, es[0], ok(i)), es[1..], ok, i + 1);
      ProcessOpenedStep(cfg, s, es, ok, i);
    }
  }

  /** The induction step of `ProcessOpened`. */
  lemma ProcessOpenedStep(cfg: Config, s: Session, es: seq<Entry>, ok: Backend, i: nat)
    requires HasAll(s.counters) && |es| > 0
    requires var next := Apply(cfg, s, es[0], ok(i));
             Delta(next.counters, Process(cfg, next, es[1..], ok, i + 1).counters, ConnOpen) == Opened(es[1..], ok, i + 1)
    ensures Delta(s.counters, Process(cfg, s, es, ok, i).counters, ConnOpen) == Opened(es, ok, i)
  {
      ProcessDelta(cfg, s, es, ok, i, ConnOpen);
      ApplyCounts(cfg, s, es[0], ok(i));
  }

  /** Every counted Connect either opened or failed. */
  lemma {:induction false} ProcessConnSplit(cfg: Config, s: Session, es: seq<Entry>, ok: Backend, i: nat)
    requires HasAll(s.counters)
    ensures Delta(s.counters, Process(cfg, s, es, ok, i).counters, ConnCount) == Opened(es, ok, i) + Delta(s.counters, Process(cfg, s, es, ok, i).counters, ConnFailed)
    decreases |es|
  {
    if |es| > 0 {
      ProcessConnSplit(cfg, Apply(cfg, s, es[0], ok(i)), es[1..], ok, i + 1);
      ProcessConnSplitStep(cfg, s, es, ok, i);
    }
  }

  /** The induction step of `ProcessConnSplit`. */
  lemma ProcessConnSplitStep(cfg: Config, s: Session, es: seq<Entry>, ok: Backend, i: nat)
    requires HasAll(s.counters) && |es| > 0
    requires var next := Apply(cfg, s, es[0], ok(i));
             Delta(next.counters, Process(cfg, next, es[1..], ok, i + 1).counters, ConnCount) == Opened(es[1..], ok, i + 1) + Delta(next.counters, Process(cfg, next, es[1..], ok, i + 1).counters, ConnFailed)
    ensures Delta(s.counters, Process(cfg, s, es, ok, i).counters, ConnCount) == Opened(es, ok, i) + Delta(s.counters, Process(cfg, s, es, ok, i).counters, ConnFailed)
  {
      ProcessDelta(cfg, s, es, ok, i, ConnCount);
      ProcessDelta(cfg, s, es, ok, i, ConnFailed);
      ApplyCounts(cfg, s, es[0], ok(i));
  }

  /** The handle held at the end of the batch is `HeldAfter`. */
  lemma {:induction false} ProcessHeld(cfg: Config, s: Session, es: seq<Entry>, ok: Backend, i: nat)
    requires HasAll(s.counters)
    ensures Process(cfg, s, es, ok, i).open == HeldAfter(es, ok, i, s.open)
    decreases |es|
  {
    if |es| > 0 {
      ApplyCounts(cfg, s, es[0], ok(i));
      ProcessHeld(cfg, Apply(cfg, s, es[0], ok(i)), es[1..], ok, i + 1);
    }
  }

  /** The statements a batch executes are exactly `Executed`. */
  lemma {:induction false} ProcessExecs(cfg: Config, s: Session, es: seq<Entry>, ok: Backend, i: nat)
    requires HasAll(s.counters)
    ensures Execs(Process(cfg, s, es, ok, i).calls) == Execs(s.calls) + Executed(cfg, es, ok, i, s.open)
    decreases |es|
  {
    if |es| > 0 {
      var s' := Apply(cfg, s, es[0], ok(i));
      var x := Execs(StepCalls(cfg, s.open, es[0]));
      var rest := Executed(cfg, es[1..], ok, i + 1, s'.open);
      ApplyCalls(cfg, s, es[0], ok(i));
      StepExecs(cfg, s.open, es[0]);
      assert Executed(cfg, es, ok, i, s.open) == x + rest;
      ExecsAppend(s.calls, StepCalls(cfg, s.open, es[0]));
      ProcessExecs(cfg, s', es[1..], ok, i + 1);
      ConcatAssoc(Execs(s.calls), x, rest);
    } else {
      assert Execs(s.calls) + [] == Execs(s.calls);
    }
  }

  /** One entry adds its step's calls and sets the handle. */
  lemma ApplyCalls(cfg: Config, s: Session, e: Entry, ok: bool)
    requires HasAll(s.counters)
    ensures Apply(cfg, s, e, ok).calls == s.calls + StepCalls(cfg, s.open, e)
    ensures Apply(cfg, s, e, ok).open == if e.Is(Connect) then ok else s.open
  {
    ConnectIsNotQuery(e);
    if !e.Is(Connect) && !e.Is(Query) {
      assert s.calls + [] == s.calls;
    }
  }

  /** Every `Connect` entry opens a handle on its data source name,
      whatever the handle held and the backend's answer. */
  lemma {:induction false} ProcessOpens(cfg: Config, s: Session, es: seq<Entry>, ok: Backend, i: nat)
    requires HasAll(s.counters)
    ensures Opens(Process(cfg, s, es, ok, i).calls) == Opens(s.calls) + Targets(cfg.baseDsn, es)
    decreases |es|
  {
    if |es| > 0 {
      var s' := Apply(cfg, s, es[0], ok(i));
      var x := Opens(StepCalls(cfg, s.open, es[0]));
      var rest := Targets(cfg.baseDsn, es[1..]);
      ApplyCalls(cfg, s, es[0], ok(i));
      StepOpens(cfg, s.open, es[0]);
      assert Targets(cfg.baseDsn, es) == x + rest;
      OpensAppend(s.calls, StepCalls(cfg, s.open, es[0]));
      ProcessOpens(cfg, s', es[1..], ok, i + 1);
      ConcatAssoc(Opens(s.calls), x, rest);
    } else {
      assert Opens(s.calls) + [] == Opens(s.calls);
    }
  }

  /** A step opens the entry's data source name exactly when it is a
      `Connect`. */
  lemma StepOpens(cfg: Config, open: bool, e: Entry)
    ensures Opens(StepCalls(cfg, open, e))
              == if e.Is(Connect) then [SessionDsn(cfg.baseDsn, e.argument)] else []
  {
    var c := StepCalls(cfg, open, e);
    if |c| > 0 {
      assert c[1..] == [];
    }
  }

  lemma {:induction false} OpensAppend(a: seq<Call>, b: seq<Call>)
    ensures Opens(a + b) == Opens(a) + Opens(b)
    decreases |a|
  {
    if |a| == 0 {
      assert a + b == b;
    } else {
      assert (a + b)[1..] == a[1..] + b;
      OpensAppend(a[1..], b);
      assert Opens(a + b) == (if a[0].Open? then [a[0].dsn] else []) + Opens(a[1..] + b);
    }
  }

  /** A step executes the entry's argument exactly when it is an allowed
      `Query` and a handle is held. */
  lemma StepExecs(cfg: Config, open: bool, e: Entry)
    ensures Execs(StepCalls(cfg, open, e))
              == if e.Is(Query) && open && Allowed(cfg, e.argument) then [e.argument] else []
  {
    ConnectIsNotQuery(e);
    var c := StepCalls(cfg, open, e);
    if |c| > 0 {
      assert c[1..] == [];
    }
  }

  /** Every attempted query is executed or skipped; the failures are the
      executed queries the backend rejects. */
  lemma ProcessQueries(cfg: Config, s: Session, es: seq<Entry>, ok: Backend, i: nat)
    requires HasAll(s.counters)
    ensures var r := Process(cfg, s, es, ok, i);
            var executed := |Execs(r.calls)| - |Execs(s.calls)|;
            && Delta(s.counters, r.counters, QueryCount) == executed + Delta(s.counters, r.counters, QuerySkipped)
            && 0 <= Delta(s.counters, r.counters, QueryFailed) <= executed
            && Delta(s.counters, r.counters, QueryFailed) == FailedQueries(cfg, es, ok, i, s.open)
  {
    ProcessAttempts(cfg, s, es, ok, i);
    ProcessFailures(cfg, s, es, ok, i);
  }

  /** Every `Query` is executed or skipped, and the failures counted are
      at most the executions. */
  lemma {:induction false} ProcessAttempts(cfg: Config, s: Session, es: seq<Entry>, ok: Backend, i: nat)
    requires HasAll(s.counters)
    ensures var r := Process(cfg, s, es, ok, i);
            var executed := |Execs(r.calls)| - |Execs(s.calls)|;
            && Delta(s.counters, r.counters, QueryCount) == executed + Delta(s.counters, r.counters, QuerySkipped)
            && 0 <= Delta(s.counters, r.counters, QueryFailed) <= executed
    decreases |es|
  {
    if |es| > 0 {
      var s' := Apply(cfg, s, es[0], ok(i));
      ApplyQueries(cfg, s, es[0], ok(i));
      ExecsAppend(s.calls, StepCalls(cfg, s.open, es[0]));
      ProcessAttempts(cfg, s', es[1..], ok, i + 1);
    }
  }

  /** The failures counted are the executed queries the backend refuses. */
  lemma {:induction false} ProcessFailures(cfg: Config, s: Session, es: seq<Entry>, ok: Backend, i: nat)
    requires HasAll(s.counters)
    ensures Delta(s.counters, Process(cfg, s, es, ok, i).counters, QueryFailed) == FailedQueries(cfg, es, ok, i, s.open)
    decreases |es|
  {
    if |es| > 0 {
      ProcessFailures(cfg, Apply(cfg, s, es[0], ok(i)), es[1..], ok, i + 1);
      ProcessFailuresStep(cfg, s, es, ok, i);
    }
  }

  /** The induction step of `ProcessFailures`. */
  lemma ProcessFailuresStep(cfg: Config, s: Session, es: seq<Entry>, ok: Backend, i: nat)
    requires HasAll(s.counters) && |es| > 0
    requires var next := Apply(cfg, s, es[0], ok(i));
             Delta(next.counters, Process(cfg, next, es[1..], ok, i + 1).counters, QueryFailed)
               == FailedQueries(cfg, es[1..], ok, i + 1, next.open)
    ensures Delta(s.counters, Process(cfg, s, es, ok, i).counters, QueryFailed) == FailedQueries(cfg, es, ok, i, s.open)
  {
    ProcessDelta(cfg, s, es, ok, i, QueryFailed);
    ApplyQueries(cfg, s, es[0], ok(i));
    ApplyCalls(cfg, s, es[0], ok(i));
  }

  /** No `Close` is made while the entries run. */
  lemma {:induction false} ProcessNoClose(cfg: Config, s: Session, es: seq<Entry>, ok: Backend, i: nat)
    requires HasAll(s.counters) && NoClose(s.calls)
    ensures NoClose(Process(cfg, s, es, ok, i).calls)
    decreases |es|
  {
    if |es| > 0 {
      ProcessNoClose(cfg, Apply(cfg, s, es[0], ok(i)), es[1..], ok, i + 1);
    }
  }

  /** `Executed` takes `Query` arguments in order, and only allowed ones. */
  lemma {:induction false} ExecutedFromQueries(cfg: Config, es: seq<Entry>, ok: Backend, i: nat, open: bool)
    ensures IsSubsequence(Executed(cfg, es, ok, i, open), QueryArgs(es))
    ensures forall k :: 0 <= k < |Executed(cfg, es, ok, i, open)| ==> Allowed(cfg, Executed(cfg, es, ok, i, open)[k])
    decreases |es|
  {
    if |es| > 0 {
      var open' := if es[0].Is(Connect) then ok(i) else open;
      var x := if es[0].Is(Query) && open && Allowed(cfg, es[0].argument) then [es[0].argument] else [];
      var y := if es[0].Is(Query) then [es[0].argument] else [];
      ExecutedFromQueries(cfg, es[1..], ok, i + 1, open');
      SubsequenceConcat(x, Executed(cfg, es[1..], ok, i + 1, open'), y, QueryArgs(es[1..]));
    }
  }

  lemma {:induction false} ExecsAppend(a: seq<Call>, b: seq<Call>)
    ensures Execs(a + b) == Execs(a) + Execs(b)
    decreases |a|
  {
    if |a| == 0 {
      assert a + b == b;
    } else {
      assert (a + b)[1..] == a[1..] + b;
      ExecsAppend(a[1..], b);
      assert Execs(a + b) == (if a[0].Exec? then [a[0].statement] else []) + Execs(a[1..] + b);
    }
  }

  /** Counters outside the six are not touched. */
  lemma {:induction false} ProcessFrame(cfg: Config, s: Session, es: seq<Entry>, ok: Backend, i: nat, c: int)
    requires HasAll(s.counters) && !(QueryCount <= c <= ConnFailed)
    ensures Get(Process(cfg, s, es, ok, i).counters, c) == Get(s.counters, c)
    decreases |es|
  {
    if |es| > 0 {
      ApplyFrame(cfg, s, es[0], ok(i), c);
      ProcessFrame(cfg, Apply(cfg, s, es[0], ok(i)), es[1..], ok, i + 1, c);
    }
  }

  lemma ApplyFrame(cfg: Config, s: Session, e: Entry, ok: bool, c: int)
    requires HasAll(s.counters) && !(QueryCount <= c <= ConnFailed)
    ensures Get(Apply(cfg, s, e, ok).counters, c) == Get(s.counters, c)
  {
  }

  /** The batch's counter effects.  The open gauge returns to where it
      was unless a later `Connect` replaced a handle without closing it:
      with at most one `Connect` per batch it is balanced. */
  lemma BatchCounts(cfg: Config, counters: Counters, es: seq<Entry>, ok: Backend)
    requires HasAll(counters)
    ensures var r := RunBatch(cfg, counters, es, ok);
            var open := if HeldAfter(es, ok, 0, false) then 1 else 0;
            && Delta(counters, r.counters, QueryCount) == Count(es, Query)
            && Delta(counters, r.counters, ConnCount) == Count(es, Connect)
            && Delta(counters, r.counters, ConnCount) == Opened(es, ok, 0) + Delta(counters, r.counters, ConnFailed)
            && Delta(counters, r.counters, ConnOpen) == Opened(es, ok, 0) - open
            && 0 <= Delta(counters, r.counters, ConnOpen)
            && (Count(es, Connect) <= 1 ==> Delta(counters, r.counters, ConnOpen) == 0)
            && Delta(counters, r.counters, QueryCount) == |Execs(r.calls)| + Delta(counters, r.counters, QuerySkipped)
            && 0 <= Delta(counters, r.counters, QueryFailed) <= |Execs(r.calls)|
            && Delta(counters, r.counters, QueryFailed) == FailedQueries(cfg, es, ok, 0, false)
  {
    BatchConnects(cfg, counters, es, ok);
    BatchQueries(cfg, counters, es, ok);
  }

  /** The connect counters and the open gauge over a batch. */
  lemma BatchConnects(cfg: Config, counters: Counters, es: seq<Entry>, ok: Backend)
    requires HasAll(counters)
    ensures var r := RunBatch(cfg, counters, es, ok);
            var open := if HeldAfter(es, ok, 0, false) then 1 else 0;
            && Delta(counters, r.counters, ConnCount) == Count(es, Connect)
            && Delta(counters, r.counters, ConnCount) == Opened(es, ok, 0) + Delta(counters, r.counters, ConnFailed)
            && Delta(counters, r.counters, ConnOpen) == Opened(es, ok, 0) - open
            && 0 <= Delta(counters, r.counters, ConnOpen)
            && (Count(es, Connect) <= 1 ==> Delta(counters, r.counters, ConnOpen) == 0)
  {
    var s0 := Session(counters, false, []);
    ProcessAttemptCounts(cfg, s0, es, ok, 0);
    ProcessConnects(cfg, s0, es, ok, 0);
    HeldMeansOpened(es, ok, 0, false);
  }

  /** The query counters over a batch. */
  lemma BatchQueries(cfg: Config, counters: Counters, es: seq<Entry>, ok: Backend)
    requires HasAll(counters)
    ensures var r := RunBatch(cfg, counters, es, ok);
            && Delta(counters, r.counters, QueryCount) == Count(es, Query)
            && Delta(counters, r.counters, QueryCount) == |Execs(r.calls)| + Delta(counters, r.counters, QuerySkipped)
            && 0 <= Delta(counters, r.counters, QueryFailed) <= |Execs(r.calls)|
            && Delta(counters, r.counters, QueryFailed) == FailedQueries(cfg, es, ok, 0, false)
  {
    var s0 := Session(counters, false, []);
    var s := Process(cfg, s0, es, ok, 0);
    ProcessAttemptCounts(cfg, s0, es, ok, 0);
    ProcessQueries(cfg, s0, es, ok, 0);
    if s.open {
      ExecsAppend(s.calls, [Close]);
      assert Execs([Close]) == [];
    }
  }

  /** Holding a handle at the end needs a successful connect; with at most
      one `Connect`, a successful one is still held at the end. */
  lemma {:induction false} HeldMeansOpened(es: seq<Entry>, ok: Backend, i: nat, open: bool)
    ensures HeldAfter(es, ok, i, open) ==> open || Opened(es, ok, i) >= 1
    ensures Count(es, Connect) <= 1 && Opened(es, ok, i) == 1 ==> HeldAfter(es, ok, i, open)
    ensures Count(es, Connect) == 0 ==> HeldAfter(es, ok, i, open) == open
    decreases |es|
  {
    if |es| > 0 {
      HeldMeansOpened(es[1..], ok, i + 1, if es[0].Is(Connect) then ok(i) else open);
    }
  }

  /** Two successful connects in one batch leave the gauge one too high:
      the first handle is replaced without being closed. */
  lemma SecondConnectLeaks(cfg: Config, a: Entry, b: Entry)
    requires a.Is(Connect) && b.Is(Connect)
    ensures var r := RunBatch(cfg, NewStats(), [a, b], (i: nat) => true);
            Get(r.counters, ConnOpen) == 1 && Get(r.counters, ConnCount) == 2
            && r.calls == [Open(SessionDsn(cfg.baseDsn, a.argument)), Open(SessionDsn(cfg.baseDsn, b.argument)), Close]
  {
    var ok := (i: nat) => true;
    var s0 := Session(NewStats(), false, []);
    var s1 := Apply(cfg, s0, a, true);
    var s2 := Apply(cfg, s1, b, true);
    assert [a, b][1..] == [b];
    assert Process(cfg, s0, [a, b], ok, 0) == Process(cfg, s1, [b], ok, 1);
    assert Process(cfg, s1, [b], ok, 1) == s2;
  }

  /** The statements a batch executes are the `Query` arguments that
      `Executed` selects: a subsequence of the batch's queries, and with
      the filter on only read-only ones. */
  lemma BatchExecs(cfg: Config, counters: Counters, es: seq<Entry>, ok: Backend)
    requires HasAll(counters)
    ensures var r := RunBatch(cfg, counters, es, ok);
            && Execs(r.calls) == Executed(cfg, es, ok, 0, false)
            && IsSubsequence(Execs(r.calls), QueryArgs(es))
            && (cfg.readOnly ==> forall k :: 0 <= k < |Execs(r.calls)| ==> IsReadOnly(Execs(r.calls)[k]))
  {
    BatchExecuted(cfg, counters, es, ok);
    ExecutedFromQueries(cfg, es, ok, 0, false);
  }

  /** A batch executes what `Executed` selects; the closing call executes
      nothing. */
  lemma BatchExecuted(cfg: Config, counters: Counters, es: seq<Entry>, ok: Backend)
    requires HasAll(counters)
    ensures Execs(RunBatch(cfg, counters, es, ok).calls) == Executed(cfg, es, ok, 0, false)
  {
    var s0 := Session(counters, false, []);
    var s := Process(cfg, s0, es, ok, 0);
    ProcessExecs(cfg, s0, es, ok, 0);
    assert Execs([]) + Executed(cfg, es, ok, 0, false) == Executed(cfg, es, ok, 0, false);
    if s.open {
      ExecsAppend(s.calls, [Close]);
      assert Execs([Close]) == [];
      assert Execs(s.calls) + [] == Execs(s.calls);
    }
  }

  /** A batch opens, in order, the data source name of each of its
      `Connect` entries (main.go:96-100), and nothing else; the closing
      call opens nothing. */
  lemma BatchOpens(cfg: Config, counters: Counters, es: seq<Entry>, ok: Backend)
    requires HasAll(counters)
    ensures Opens(RunBatch(cfg, counters, es, ok).calls) == Targets(cfg.baseDsn, es)
    ensures |Opens(RunBatch(cfg, counters, es, ok).calls)| == Count(es, Connect)
  {
    var s0 := Session(counters, false, []);
    var s := Process(cfg, s0, es, ok, 0);
    ProcessOpens(cfg, s0, es, ok, 0);
    assert Opens([]) + Targets(cfg.baseDsn, es) == Targets(cfg.baseDsn, es);
    if s.open {
      OpensAppend(s.calls, [Close]);
      assert Opens([Close]) == [];
      assert Opens(s.calls) + [] == Opens(s.calls);
    }
    TargetsCount(cfg.baseDsn, es);
  }

  /** One target per `Connect` entry. */
  lemma {:induction false} TargetsCount(base: string, es: seq<Entry>)
    ensures |Targets(base, es)| == Count(es, Connect)
    decreases |es|
  {
    if |es| > 0 {
      TargetsCount(base, es[1..]);
    }
  }

  /** `Close` comes last exactly when a handle is left open, and nowhere
      else. */
  lemma BatchCloses(cfg: Config, counters: Counters, es: seq<Entry>, ok: Backend)
    requires HasAll(counters)
    ensures var r := RunBatch(cfg, counters, es, ok);
            && (HeldAfter(es, ok, 0, false) ==> |r.calls| > 0 && Last(r.calls) == Close && NoClose(r.calls[..|r.calls| - 1]))
            && (!HeldAfter(es, ok, 0, false) ==> NoClose(r.calls))
  {
    var s0 := Session(counters, false, []);
    var s := Process(cfg, s0, es, ok, 0);
    ProcessNoClose(cfg, s0, es, ok, 0);
    ProcessHeld(cfg, s0, es, ok, 0);
    if s.open {
      assert (s.calls + [Close])[..|s.calls|] == s.calls;
    }
  }

  lemma ApplyTranslates(cfg: Config, s: Session, t: Session, e: Entry, ok: bool, c: int)
    requires HasAll(s.counters) && HasAll(t.counters) && s.open == t.open && s.calls == t.calls
    ensures var rs := Apply(cfg, s, e, ok);
            var rt := Apply(cfg, t, e, ok);
            && rs.open == rt.open && rs.calls == rt.calls
            && Delta(s.counters, rs.counters, c) == Delta(t.counters, rt.counters, c)
  {
    ApplyCalls(cfg, s, e, ok);
    ApplyCalls(cfg, t, e, ok);
    ApplyDeltaSame(cfg, s, t, e, ok, c);
  }

  /** One entry changes each counter by an amount that does not depend on
      the counters' starting values. */
  lemma ApplyDeltaSame(cfg: Config, s: Session, t: Session, e: Entry, ok: bool, c: int)
    requires HasAll(s.counters) && HasAll(t.counters) && s.open == t.open
    ensures Delta(s.counters, Apply(cfg, s, e, ok).counters, c) == Delta(t.counters, Apply(cfg, t, e, ok).counters, c)
  {
    ApplyDeltaOf(cfg, s, e, ok, c);
    ApplyDeltaOf(cfg, t, e, ok, c);
  }

  /** How much one entry moves counter `c`, given the handle held. */
  function StepDelta(cfg: Config, open: bool, e: Entry, ok: bool, c: int): int
  {
    if e.Is(Connect) then
      (if c == ConnCount then 1 else 0) + (if c == (if ok then ConnOpen else ConnFailed) then 1 else 0)
    else if e.Is(Query) then
      (if c == QueryCount then 1 else 0)
        + (if open && Allowed(cfg, e.argument) then (if !ok && c == QueryFailed then 1 else 0)
           else if c == QuerySkipped then 1 else 0)
    else 0
  }

  lemma ApplyDeltaOf(cfg: Config, s: Session, e: Entry, ok: bool, c: int)
    requires HasAll(s.counters)
    ensures Delta(s.counters, Apply(cfg, s, e, ok).counters, c) == StepDelta(cfg, s.open, e, ok, c)
  {
    ConnectIsNotQuery(e);
  }

  /** A batch's effect on the counters does not depend on their starting
      values, and its calls do not depend on them at all. */
  lemma {:induction false} ProcessTranslates(cfg: Config, s: Session, t: Session, es: seq<Entry>, ok: Backend, i: nat, c: int)
    requires HasAll(s.counters) && HasAll(t.counters) && s.open == t.open && s.calls == t.calls
    ensures var rs := Process(cfg, s, es, ok, i);
            var rt := Process(cfg, t, es, ok, i);
            && rs.open == rt.open && rs.calls == rt.calls
            && Delta(s.counters, rs.counters, c) == Delta(t.counters, rt.counters, c)
    decreases |es|
  {
    if |es| > 0 {
      ApplyTranslates(cfg, s, t, es[0], ok(i), c);
      ProcessTranslates(cfg, Apply(cfg, s, es[0], ok(i)), Apply(cfg, t, es[0], ok(i)), es[1..], ok, i + 1, c);
      ProcessTranslatesStep(cfg, s, t, es, ok, i, c);
    }
  }

  /** The induction step of `ProcessTranslates`. */
  lemma ProcessTranslatesStep(cfg: Config, s: Session, t: Session, es: seq<Entry>, ok: Backend, i: nat, c: int)
    requires HasAll(s.counters) && HasAll(t.counters) && |es| > 0
    requires var ns := Apply(cfg, s, es[0], ok(i));
             var nt := Apply(cfg, t, es[0], ok(i));
             Delta(s.counters, ns.counters, c) == Delta(t.counters, nt.counters, c)
    requires var ns := Apply(cfg, s, es[0], ok(i));
             var nt := Apply(cfg, t, es[0], ok(i));
             var rs := Process(cfg, ns, es[1..], ok, i + 1);
             var rt := Process(cfg, nt, es[1..], ok, i + 1);
             && rs.open == rt.open && rs.calls == rt.calls
             && Delta(ns.counters, rs.counters, c) == Delta(nt.counters, rt.counters, c)
    ensures var rs := Process(cfg, s, es, ok, i);
            var rt := Process(cfg, t, es, ok, i);
            && rs.open == rt.open && rs.calls == rt.calls
            && Delta(s.counters, rs.counters, c) == Delta(t.counters, rt.counters, c)
  {
    ProcessDelta(cfg, s, es, ok, i, c);
    ProcessDelta(cfg, t, es, ok, i, c);
  }

  lemma BatchTranslates(cfg: Config, a: Counters, b: Counters, es: seq<Entry>, ok: Backend, c: int)
    requires HasAll(a) && HasAll(b)
    ensures Delta(a, RunBatch(cfg, a, es, ok).counters, c) == Delta(b, RunBatch(cfg, b, es, ok).counters, c)
    ensures RunBatch(cfg, a, es, ok).calls == RunBatch(cfg, b, es, ok).calls
  {
    ProcessTranslates(cfg, Session(a, false, []), Session(b, false, []), es, ok, 0, c);
  }

  /** Workers finishing batches in either order leave the same counters:
      the final totals do not depend on scheduling. */
  lemma BatchesCommute(cfg: Config, counters: Counters, x: seq<Entry>, okx: Backend, y: seq<Entry>, oky: Backend)
    requires HasAll(counters)
    ensures var xy := RunBatch(cfg, RunBatch(cfg, counters, x, okx).counters, y, oky).counters;
            var yx := RunBatch(cfg, RunBatch(cfg, counters, y, oky).counters, x, okx).counters;
            xy == yx
  {
    var cx := RunBatch(cfg, counters, x, okx).counters;
    var cy := RunBatch(cfg, counters, y, oky).counters;
    var xy := RunBatch(cfg, cx, y, oky).counters;
    var yx := RunBatch(cfg, cy, x, okx).counters;
    forall c
      ensures Get(xy, c) == Get(yx, c)
    {
      BatchTranslates(cfg, cx, counters, y, oky, c);
      BatchTranslates(cfg, cy, counters, x, okx, c);
    }
    CountersExt(xy, yx);
  }
}
