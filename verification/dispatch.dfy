/**
 * The dispatcher (main.go:147-162): entries are appended to a buffer per
 * connection id; a `Quit` entry closes its connection's buffer, which is
 * queued for the workers as one batch and removed from the buffers.
 */
module Dispatch {
  import opened Common
  import opened Commands
  import opened Reader

  /** `connBuf` and the batches sent on `connQueue`, in sending order. */
  datatype Dispatcher = Dispatcher(pending: map<int, seq<Entry>>, queue: seq<seq<Entry>>)

  const Empty := Dispatcher(map[], [])

  predicate IsQuit(e: Entry)
  {
    e.Is(Quit)
  }

  /** The buffer of connection `id` (`connBuf[id]`, nil when absent). */
  function Pending(d: Dispatcher, id: int): seq<Entry>
  {
    if id in d.pending then d.pending[id] else []
  }

  /** One iteration of the read loop with the entry read. */
  function Step(d: Dispatcher, e: Entry): (r: Dispatcher)
  {
    var buf := Pending(d, e.id) + [e];
    if IsQuit(e) then Dispatcher(d.pending - {e.id}, d.queue + [buf])
    else Dispatcher(d.pending[e.id := buf], d.queue)
  }

  /** The read loop over the entries read, in order. */
  function Run(d: Dispatcher, es: seq<Entry>): (r: Dispatcher)
    decreases |es|
  {
    if |es| == 0 then d else Step(Run(d, es[..|es| - 1]), Last(es))
  }

  function Dispatch(es: seq<Entry>): Dispatcher
  {
    Run(Empty, es)
  }

  /** The entries of connection `id`, in reading order. */
  function ById(es: seq<Entry>, id: int): (r: seq<Entry>)
    ensures forall k :: 0 <= k < |r| ==> r[k].id == id
    ensures |r| <= |es|
    decreases |es|
  {
    if |es| == 0 then []
    else ById(es[..|es| - 1], id) + (if Last(es).id == id then [Last(es)] else [])
  }

  /** The `Quit` entries, in reading order. */
  function Quits(es: seq<Entry>): (r: seq<Entry>)
    decreases |es|
  {
    if |es| == 0 then []
    else Quits(es[..|es| - 1]) + (if IsQuit(Last(es)) then [Last(es)] else [])
  }

  /** A batch: entries of one connection, the last one its `Quit` and no
      other `Quit` before it. */
  predicate IsBatch(b: seq<Entry>)
  {
    && |b| > 0
    && (forall k :: 0 <= k < |b| ==> b[k].id == b[0].id)
    && IsQuit(b[|b| - 1])
    && (forall k :: 0 <= k < |b| - 1 ==> !IsQuit(b[k]))
  }

  /** The batches of connection `id`, concatenated in queue order. */
  function Dispatched(q: seq<seq<Entry>>, id: int): seq<Entry>
    decreases |q|
  {
    if |q| == 0 then []
    else Dispatched(q[..|q| - 1], id) + (if |Last(q)| > 0 && Last(q)[0].id == id then Last(q) else [])
  }

  /** The dispatcher's invariant: queued batches are batches; a buffer is
      non-empty, holds only its own connection's entries and no `Quit`. */
  predicate Valid(d: Dispatcher)
  {
    && (forall k :: 0 <= k < |d.queue| ==> IsBatch(d.queue[k]))
    && (forall id :: id in d.pending ==>
          && |d.pending[id]| > 0
          && (forall k :: 0 <= k < |d.pending[id]| ==> d.pending[id][k].id == id && !IsQuit(d.pending[id][k])))
  }

  lemma StepValid(d: Dispatcher, e: Entry)
    requires Valid(d)
    ensures Valid(Step(d, e))
  {
    var buf := Pending(d, e.id) + [e];
    assert forall k :: 0 <= k < |buf| ==> buf[k].id == e.id;
  }

  lemma {:induction false} RunValid(es: seq<Entry>)
    ensures Valid(Dispatch(es))
    decreases |es|
  {
    if |es| > 0 {
      RunValid(es[..|es| - 1]);
      StepValid(Dispatch(es[..|es| - 1]), Last(es));
    }
  }

  /** Nothing is lost, duplicated or reordered: a connection's entries are
      its queued batches followed by its buffer. */
  lemma {:induction false} Conservation(es: seq<Entry>, id: int)
    ensures ById(es, id) == Dispatched(Dispatch(es).queue, id) + Pending(Dispatch(es), id)
    decreases |es|
  {
    if |es| > 0 {
      var es' := es[..|es| - 1];
      var e := Last(es);
      var d := Dispatch(es');
      Conservation(es', id);
      RunValid(es');
      StepConserves(d, e, id);
      ConcatAssoc(Dispatched(d.queue, id), Pending(d, id), if e.id == id then [e] else []);
    }
  }

  /** One step appends the entry to its own connection's share and leaves
      every other connection's share as it was. */
  lemma StepConserves(d: Dispatcher, e: Entry, id: int)
    requires Valid(d)
    ensures var d' := Step(d, e);
            Dispatched(d'.queue, id) + Pending(d', id)
              == Dispatched(d.queue, id) + Pending(d, id) + (if e.id == id then [e] else [])
  {
    var d' := Step(d, e);
    var buf := Pending(d, e.id) + [e];
    if IsQuit(e) {
      assert d'.queue[..|d.queue|] == d.queue;
      assert Last(d'.queue) == buf;
      assert buf[0].id == e.id;
      if e.id == id {
        assert Pending(d', id) == [];
        assert Dispatched(d'.queue, id) == Dispatched(d.queue, id) + buf;
        ConcatAssoc(Dispatched(d.queue, id), Pending(d, id), [e]);
      } else {
        assert Pending(d', id) == Pending(d, id);
        assert Dispatched(d'.queue, id) == Dispatched(d.queue, id) + [];
      }
    } else {
      assert d'.queue == d.queue;
      if e.id == id {
        assert Pending(d', id) == buf;
        ConcatAssoc(Dispatched(d.queue, id), Pending(d, id), [e]);
      } else {
        assert Pending(d', id) == Pending(d, id);
      }
    }
  }

  /** One batch per `Quit`, queued in the order the `Quit` entries were
      read, each ending with its `Quit`. */
  lemma {:induction false} QueueFollowsQuits(es: seq<Entry>)
    ensures var q := Dispatch(es).queue;
            && |q| == |Quits(es)|
            && forall k :: 0 <= k < |q| ==> |q[k]| > 0 && q[k][|q[k]| - 1] == Quits(es)[k]
    decreases |es|
  {
    if |es| > 0 {
      var p := es[..|es| - 1];
      QueueFollowsQuits(p);
      QueueStepQuits(Dispatch(p), Last(es), Quits(p));
      assert Dispatch(es) == Step(Dispatch(p), Last(es));
      assert Quits(es) == Quits(p) + (if IsQuit(Last(es)) then [Last(es)] else []);
    }
  }

  /** One step keeps the queue's batches ending with the `Quit` entries
      read, adding one batch for a `Quit`. */
  lemma QueueStepQuits(d: Dispatcher, e: Entry, qs: seq<Entry>)
    requires |d.queue| == |qs|
    requires forall k :: 0 <= k < |d.queue| ==> |d.queue[k]| > 0 && d.queue[k][|d.queue[k]| - 1] == qs[k]
    ensures var q := Step(d, e).queue;
            var qs' := qs + (if IsQuit(e) then [e] else []);
            && |q| == |qs'|
            && forall k :: 0 <= k < |q| ==> |q[k]| > 0 && q[k][|q[k]| - 1] == qs'[k]
  {
  }

  /** The queue only grows: reading more entries never changes or
      withdraws a batch already sent. */
  lemma {:induction false} QueueAppendOnly(es: seq<Entry>, more: seq<Entry>)
    ensures var q := Dispatch(es).queue;
            var q' := Dispatch(es + more).queue;
            |q| <= |q'| && q'[..|q|] == q
    decreases |more|
  {
    if |more| == 0 {
      assert es + more == es;
    } else {
      var m := more[..|more| - 1];
      QueueAppendOnly(es, m);
      assert (es + more)[..|es + more| - 1] == es + m;
      var q := Dispatch(es).queue;
      var q1 := Dispatch(es + m).queue;
      var q2 := Dispatch(es + more).queue;
      assert q2[..|q1|] == q1;
      assert q2[..|q|] == q1[..|q|];
    }
  }

  /** A connection keeps a buffer at the end exactly when it has entries
      and its last one is not `Quit`: those entries are never sent. */
  lemma {:induction false} Leftover(es: seq<Entry>, id: int)
    ensures id in Dispatch(es).pending <==> |ById(es, id)| > 0 && !IsQuit(Last(ById(es, id)))
    decreases |es|
  {
    if |es| > 0 {
      var es' := es[..|es| - 1];
      var e := Last(es);
      Leftover(es', id);
      StepPending(Dispatch(es'), e, id);
      if e.id == id {
        assert Last(ById(es, id)) == e;
      } else {
        assert ById(es, id) == ById(es', id) + [];
      }
    }
  }

  /** After one step a connection has a buffer exactly when its entry was
      not a `Quit` (its own) or it had one before (another's). */
  lemma StepPending(d: Dispatcher, e: Entry, id: int)
    ensures id in Step(d, e).pending <==> if e.id == id then !IsQuit(e) else id in d.pending
  {
  }

  /** A connection that never quits never reaches a worker. */
  lemma NeverQuitNeverSent(es: seq<Entry>, id: int)
    requires forall k :: 0 <= k < |es| && es[k].id == id ==> !IsQuit(es[k])
    ensures Dispatched(Dispatch(es).queue, id) == []
  {
    NoQuitById(es, id);
    SentEndsInQuit(es, id);
  }

  /** The last entry a connection has had sent is a `Quit` of its own. */
  lemma SentEndsInQuit(es: seq<Entry>, id: int)
    ensures var sent := Dispatched(Dispatch(es).queue, id);
            && |sent| <= |ById(es, id)|
            && (|sent| > 0 ==> IsQuit(ById(es, id)[|sent| - 1]))
  {
    var sent := Dispatched(Dispatch(es).queue, id);
    Conservation(es, id);
    RunValid(es);
    DispatchedEndsInQuit(Dispatch(es).queue, id);
    assert ById(es, id)[..|sent|] == sent;
  }

  lemma {:induction false} NoQuitById(es: seq<Entry>, id: int)
    requires forall k :: 0 <= k < |es| && es[k].id == id ==> !IsQuit(es[k])
    ensures forall k :: 0 <= k < |ById(es, id)| ==> !IsQuit(ById(es, id)[k])
    decreases |es|
  {
    if |es| > 0 {
      NoQuitById(es[..|es| - 1], id);
    }
  }

  /** Dispatched entries of a connection end with a `Quit` unless none. */
  lemma {:induction false} DispatchedEndsInQuit(q: seq<seq<Entry>>, id: int)
    requires forall k :: 0 <= k < |q| ==> IsBatch(q[k])
    ensures Dispatched(q, id) != [] ==> IsQuit(Last(Dispatched(q, id)))
    decreases |q|
  {
    if |q| > 0 {
      var q' := q[..|q| - 1];
      var b := Last(q);
      assert IsBatch(b);
      DispatchedEndsInQuit(q', id);
      if b[0].id == id {
        assert Last(Dispatched(q, id)) == Last(b);
      } else {
        assert Dispatched(q, id) == Dispatched(q', id) + [];
      }
    }
  }
}
