/** `Writable` of module 708 of the bundle, without errors, destruction or a `_final` hook, and
    with callbacks and listeners that do not call back into the stream. What happens outside is
    nondeterministic: `_write` and `_writev` call `onwrite` before they return or later. */
module Writable {
  import opened Options

  /** One accepted chunk and the number that identifies its callback. */
  datatype Request = Request(size: nat, callback: nat)

  /** What `onwrite` has to call: the callback of one chunk, or a CorkedRequest's `finish`, which
      runs those of a batch. */
  datatype Callback = Single(request: Request) | Batch(requests: seq<Request>) {
    function Requests(): seq<Request> {
      match this
      case Single(request) => [request]
      case Batch(requests) => requests
    }

    /** How much of pendingcb it stands for: `clearBuffer` adds one for a batch. */
    function Owed(): nat {
      if Single? then 1 else 1 + |requests|
    }
  }

  /** A deferred `afterWrite(stream, state, finished, cb)`. */
  datatype Tick = AfterWrite(noDrain: bool, callback: Callback)

  predicate NoDrainOnlyAtEnd(ts: seq<Tick>, ending: bool) {
    forall i :: 0 <= i < |ts| && ts[i].noDrain ==> ending
  }

  function Size(rs: seq<Request>): nat {
    if rs == [] then 0 else rs[0].size + Size(rs[1..])
  }

  /** How often the callback c is among those of rs. */
  function Occurs(c: nat, rs: seq<Request>): nat {
    if rs == [] then 0 else (if rs[0].callback == c then 1 else 0) + Occurs(c, rs[1..])
  }

  function Runs(c: nat, ran: seq<nat>): nat {
    if ran == [] then 0 else Runs(c, ran[..|ran| - 1]) + (if ran[|ran| - 1] == c then 1 else 0)
  }

  /** The callbacks of these chunks, in their order. */
  function Callbacks(rs: seq<Request>): (r: seq<nat>)
    ensures |r| == |rs|
  {
    if rs == [] then [] else [rs[0].callback] + Callbacks(rs[1..])
  }

  lemma {:induction false} RunsAppend(c: nat, ran: seq<nat>, rs: seq<Request>)
    ensures Runs(c, ran + Callbacks(rs)) == Runs(c, ran) + Occurs(c, rs)
    decreases |rs|
  {
    hide Runs;
    if rs == [] {
      assert ran + [] == ran;
    } else {
      var first := rs[0].callback;
      RunsMore(c, ran, first);
      RunsAppend(c, ran + [first], rs[1..]);
      FirstThenRest(ran, first, Callbacks(rs[1..]));
    }
  }

  /** Both count as a multiset does. */
  lemma {:induction false} RunsCount(c: nat, ran: seq<nat>)
    ensures Runs(c, ran) == multiset(ran)[c]
    decreases |ran|
  {
    if ran != [] {
      var init, last := ran[..|ran| - 1], ran[|ran| - 1];
      RunsCount(c, init);
      RunsMore(c, init, last);
      hide Runs;
      assert ran == init + [last];
    }
  }

  lemma {:induction false} OccursCounts(c: nat, rs: seq<Request>)
    ensures Occurs(c, rs) == multiset(Callbacks(rs))[c]
    decreases |rs|
  {
    if rs != [] {
      OccursCounts(c, rs[1..]);
      var first, rest := rs[0].callback, Callbacks(rs[1..]);
      assert Callbacks(rs) == [first] + rest && Occurs(c, rs) == (if first == c then 1 else 0) + Occurs(c, rs[1..]);
      hide Occurs, Callbacks;
      assert multiset([first] + rest) == multiset{first} + multiset(rest);
    }
  }

  lemma RunsMore(c: nat, ran: seq<nat>, callback: nat)
    ensures Runs(c, ran + [callback]) == Runs(c, ran) + if callback == c then 1 else 0
  {
    assert (ran + [callback])[..|ran|] == ran;
  }

  lemma FirstThenRest(ran: seq<nat>, first: nat, rest: seq<nat>)
    ensures ran + [first] + rest == ran + ([first] + rest)
  {
  }

  function TicksOwed(ts: seq<Tick>): nat {
    if ts == [] then 0 else ts[0].callback.Owed() + TicksOwed(ts[1..])
  }

  function TickOccurs(c: nat, ts: seq<Tick>): nat {
    if ts == [] then 0 else Occurs(c, ts[0].callback.Requests()) + TickOccurs(c, ts[1..])
  }

  /** How often c still has to run, wherever it waits. */
  function Outstanding(c: nat, ts: seq<Tick>, inflight: seq<Request>, unsent: seq<Request>, held: int): int {
    TickOccurs(c, ts) + Occurs(c, inflight) + Occurs(c, unsent) + held
  }

  /** What pendingcb has to be. */
  function Owing(ts: seq<Tick>, writecb: Option<Callback>, unsent: seq<Request>, due: int): int {
    TicksOwed(ts) + (if writecb.Some? then writecb.value.Owed() else 0) + |unsent| + due
  }

  ghost predicate Balanced(watched: nat, accepted: seq<Request>, sent: seq<Request>, inflight: seq<Request>,
                           unsent: seq<Request>, length: int, writelen: int, writing: bool, writecb: Option<Callback>,
                           pendingcb: int, ticks: seq<Tick>, due: int, ran: seq<nat>, held: int, ending: bool) {
    && accepted == sent + unsent
    && |inflight| <= |sent| && sent[|sent| - |inflight|..] == inflight
    && length == Size(inflight) + Size(unsent) && writelen == Size(inflight)
    && (writing <==> writecb.Some?) && (writing <==> inflight != [])
    && (writing ==> writecb.value.Requests() == inflight)
    && pendingcb == Owing(ticks, writecb, unsent, due)
    && Occurs(watched, accepted) == Runs(watched, ran) + Outstanding(watched, ticks, inflight, unsent, held)
    && NoDrainOnlyAtEnd(ticks, ending)
  }

  // ---- how each move changes them ----

  lemma {:induction false} SizeAppend(rs: seq<Request>, more: seq<Request>)
    ensures Size(rs + more) == Size(rs) + Size(more)
  {
    if rs == [] {
      assert rs + more == more;
    } else {
      SizeAppend(rs[1..], more);
      assert (rs + more)[1..] == rs[1..] + more;
    }
  }

  lemma {:induction false} OccursAppend(c: nat, rs: seq<Request>, more: seq<Request>)
    ensures Occurs(c, rs + more) == Occurs(c, rs) + Occurs(c, more)
  {
    if rs == [] {
      assert rs + more == more;
    } else {
      OccursAppend(c, rs[1..], more);
      assert (rs + more)[1..] == rs[1..] + more;
    }
  }

  lemma {:induction false} TicksOwedAppend(ts: seq<Tick>, t: Tick)
    ensures TicksOwed(ts + [t]) == TicksOwed(ts) + t.callback.Owed()
  {
    if ts == [] {
      assert ts + [t] == [t];
    } else {
      TicksOwedAppend(ts[1..], t);
      assert (ts + [t])[1..] == ts[1..] + [t];
    }
  }

  lemma {:induction false} TickOccursAppend(c: nat, ts: seq<Tick>, t: Tick)
    ensures TickOccurs(c, ts + [t]) == TickOccurs(c, ts) + Occurs(c, t.callback.Requests())
  {
    if ts == [] {
      assert ts + [t] == [t];
    } else {
      TickOccursAppend(c, ts[1..], t);
      assert (ts + [t])[1..] == ts[1..] + [t];
    }
  }

  lemma Accept(c: nat, ts: seq<Tick>, inflight: seq<Request>, unsent: seq<Request>, held: int,
               writecb: Option<Callback>, due: int, r: Request)
    ensures Size(unsent + [r]) == Size(unsent) + r.size
    ensures Outstanding(c, ts, inflight, unsent + [r], held)
         == Outstanding(c, ts, inflight, unsent, held) + (if r.callback == c then 1 else 0)
    ensures Owing(ts, writecb, unsent + [r], due) == Owing(ts, writecb, unsent, due) + 1
  {
    SizeAppend(unsent, [r]);
    OccursAppend(c, unsent, [r]);
    assert [r][1..] == [];
  }

  lemma Send(c: nat, ts: seq<Tick>, requests: seq<Request>, rest: seq<Request>, held: int, cb: Callback, due: int)
    requires requests == cb.Requests()
    ensures Size(requests + rest) == Size(requests) + Size(rest) && Size([]) == 0
    ensures Outstanding(c, ts, requests, rest, held) == Outstanding(c, ts, [], requests + rest, held)
    ensures Owing(ts, Some(cb), rest, due - (cb.Owed() - |requests|)) == Owing(ts, None, requests + rest, due)
  {
    SizeAppend(requests, rest);
    OccursAppend(c, requests, rest);
  }

  /** Handing the first unsent chunks to the sink keeps the books. */
  lemma SendKeepsBalance(c: nat, accepted: seq<Request>, sent: seq<Request>, unsent: seq<Request>, length: int,
                         pendingcb: int, ts: seq<Tick>, due: int, ran: seq<nat>, held: int, ending: bool, cb: Callback)
    requires Balanced(c, accepted, sent, [], unsent, length, 0, false, None, pendingcb, ts, due, ran, held, ending)
    requires [] < cb.Requests() <= unsent
    ensures var requests := cb.Requests();
            Balanced(c, accepted, sent + requests, requests, unsent[|requests|..], length, Size(requests), true,
                     Some(cb), pendingcb, ts, due - (cb.Owed() - |requests|), ran, held, ending)
  {
    hide Outstanding, Owing, Size, Occurs, Runs, NoDrainOnlyAtEnd;
    var requests := cb.Requests();
    var rest := unsent[|requests|..];
    Send(c, ts, requests, rest, held, cb, due);
    assert unsent == requests + rest;
    assert sent + unsent == (sent + requests) + rest;
  }

  lemma Acknowledge(c: nat, ts: seq<Tick>, unsent: seq<Request>, held: int, cb: Callback, due: int)
    ensures Size([]) == 0
    ensures Outstanding(c, ts, [], unsent, held + Occurs(c, cb.Requests()))
         == Outstanding(c, ts, cb.Requests(), unsent, held)
    ensures Owing(ts, None, unsent, due + cb.Owed()) == Owing(ts, Some(cb), unsent, due)
  {
  }

  lemma Defer(c: nat, ts: seq<Tick>, inflight: seq<Request>, unsent: seq<Request>, held: int,
              writecb: Option<Callback>, due: int, t: Tick)
    ensures Outstanding(c, ts + [t], inflight, unsent, held - Occurs(c, t.callback.Requests()))
         == Outstanding(c, ts, inflight, unsent, held)
    ensures Owing(ts + [t], writecb, unsent, due - t.callback.Owed()) == Owing(ts, writecb, unsent, due)
  {
    TicksOwedAppend(ts, t);
    TickOccursAppend(c, ts, t);
  }

  lemma TakeTick(c: nat, ts: seq<Tick>, inflight: seq<Request>, unsent: seq<Request>, writecb: Option<Callback>)
    requires ts != []
    ensures Outstanding(c, ts, inflight, unsent, 0)
         == Outstanding(c, ts[1..], inflight, unsent, Occurs(c, ts[0].callback.Requests()))
    ensures Owing(ts, writecb, unsent, 0) == Owing(ts[1..], writecb, unsent, ts[0].callback.Owed())
  {
  }

  lemma Settle(c: nat, ts: seq<Tick>, inflight: seq<Request>, unsent: seq<Request>, held: int,
               writecb: Option<Callback>, due: int)
    ensures Outstanding(c, ts, inflight, unsent, held) == Outstanding(c, ts, inflight, unsent, 0) + held
    ensures Owing(ts, writecb, unsent, due) == Owing(ts, writecb, unsent, 0) + due
  {
  }

  lemma Idle(ts: seq<Tick>, writecb: Option<Callback>, unsent: seq<Request>)
    ensures Owing(ts, writecb, unsent, 0) >= 0
    ensures Owing(ts, writecb, unsent, 0) == 0 <==> ts == [] && writecb.None? && unsent == []
    ensures Size([]) == 0
  {
  }

  /** The single request at the head of the list. */
  lemma OneRequest(r: seq<Request>)
    requires r != []
    ensures [r[0]] <= r && Size([r[0]]) == r[0].size
  {
    assert [r[0]][1..] == [];
  }

  /** Callbacks outside the books: waiting for an event, deferred by `nextTick`, and run. */
  datatype Queue = Queue(waiting: seq<nat>, deferred: seq<nat>, ran: seq<nat>) {
    function All(): seq<nat> {
      ran + deferred + waiting
    }

    function Defer(callback: nat): (q: Queue)
      requires waiting == []
      ensures q.All() == All() + [callback] && q.waiting == [] && q.ran == ran
    {
      Queue([], deferred + [callback], ran)
    }

    function RunDeferred(): (q: Queue)
      requires deferred != []
      ensures q.All() == All() && q.ran == ran + [deferred[0]] && q.waiting == waiting
    {
      Queue(waiting, deferred[1..], ran + [deferred[0]])
    }

    /** The event comes. */
    function RunWaiting(): (q: Queue)
      requires deferred == []
      ensures q.All() == All() && q.waiting == []
    {
      Queue([], [], ran + waiting)
    }
  }

  const NOBODY := Queue([], [], [])

  /** Each refused write is one error and one callback; the callback of `end` waits until finish. */
  predicate Answered(errors: nat, refusals: Queue, ends: Queue, ending: bool, finished: bool) {
    && refusals.waiting == [] && errors == |refusals.All()|
    && |ends.All()| <= 1 && (ends.All() != [] ==> ending)
    && (if finished then ends.waiting == [] else ends.ran == ends.deferred == [])
  }

  /** At most one drain event, only if one was owed and nothing is left to acknowledge. */
  predicate Drained(owed: bool, owes: bool, before: nat, drains: nat, length: int) {
    drains == before + (if owed && !owes then 1 else 0) && (owed && !owes ==> length == 0)
  }

  class Writable {
    const objectMode: bool
    const highWaterMark: nat
    const hasWritev: bool

    var length: int
    var writing: bool
    var corked: nat
    var sync: bool
    var bufferProcessing: bool
    var needDrain: bool
    var ending: bool
    var prefinished: bool
    var finished: bool
    var writelen: int
    var writecb: Option<Callback>
    var pendingcb: int
    var buffered: seq<Request>
    var bufferedRequestCount: int

    // the world: deferred calls, callbacks run, events emitted
    var ticks: seq<Tick>
    var ran: seq<nat>
    var drains: nat
    var finishes: nat
    var calls: nat        // of the sink
    var errors: nat
    var refusals: Queue   // callbacks of writes after the end
    var ends: Queue       // the callback given to the first `end`

    // history; `watched` is any callback one cares to follow
    ghost const watched: nat
    ghost var accepted: seq<Request>  // every chunk `write` took
    ghost var sent: seq<Request>      // every chunk given to `_write` or `_writev`
    ghost var inflight: seq<Request>  // those not acknowledged yet
    ghost var unsent: seq<Request>    // accepted and not yet sent; `buffered`, but inside clearBuffer
    ghost var due: int                // pendingcb owed by a callback held in a local variable
    ghost var held: int               // and how often that callback will run `watched`

    ghost predicate Books()
      reads this`accepted, this`sent, this`inflight, this`unsent, this`length, this`writelen, this`writing,
            this`writecb, this`pendingcb, this`ticks, this`due, this`ran, this`held, this`ending
    {
      Balanced(watched, accepted, sent, inflight, unsent, length, writelen, writing, writecb, pendingcb, ticks, due,
               ran, held, ending)
    }

    /** Something will still happen without the user. */
    ghost predicate Busy()
      reads this`writing, this`unsent, this`ticks
    {
      writing || unsent != [] || ticks != []
    }

    ghost predicate FinishBooks()
      reads this`finishes, this`finished, this`ending, this`prefinished, this`pendingcb, this`writing, this`unsent,
            this`ticks, this`errors, this`refusals, this`ends
    {
      && Answered(errors, refusals, ends, ending, finished)
      && finishes == (if finished then 1 else 0)
      && (finished ==> ending && prefinished && !Busy() && pendingcb == 0)
    }

    /** What holds between any two steps. */
    ghost predicate Valid()
      reads this
    {
      && Books() && FinishBooks()
      && due == 0 && held == 0
      && unsent == buffered && bufferedRequestCount == |buffered|
      && !bufferProcessing && (writing ==> !sync)
      && (!writing && corked == 0 ==> buffered == [])
      && (ending && !finished ==> Busy())
      && (needDrain && !ending ==> Busy())
    }

    constructor (objectMode: bool, highWaterMark: nat, hasWritev: bool, ghost watched: nat)
      ensures Valid() && accepted == [] && !ending && corked == calls == 0 && refusals == ends == NOBODY
      ensures this.objectMode == objectMode && this.highWaterMark == highWaterMark && this.hasWritev == hasWritev
      ensures this.watched == watched
    {
      this.objectMode, this.highWaterMark, this.hasWritev := objectMode, highWaterMark, hasWritev;
      this.watched := watched;
      length, writing, corked, sync, bufferProcessing := 0, false, 0, true, false;
      needDrain, ending, prefinished, finished := false, false, false, false;
      writelen, writecb, pendingcb, buffered, bufferedRequestCount := 0, None, 0, [], 0;
      ticks, ran, drains, finishes := [], [], 0, 0;
      errors, refusals, ends, calls := 0, NOBODY, NOBODY, 0;
      accepted, sent, inflight, unsent, due, held := [], [], [], [], 0, 0;
    }

    // ---- internal steps ----

    function NeedFinish(): bool
      reads this
    {
      ending && length == 0 && buffered == [] && !finished && !writing
    }

    /** `finishMaybe` and `prefinish`. */
    method FinishMaybe()
      requires Books() && FinishBooks() && due == 0 && !bufferProcessing && unsent == buffered
      modifies this`prefinished, this`finished, this`finishes, this`ends
      ensures Books() && FinishBooks()
      ensures ends.All() == old(ends.All())
      ensures ending && !finished ==> Busy()
    {
      hide Outstanding, Owing, Size, Occurs, Runs;
      Idle(ticks, writecb, unsent);
      var need := NeedFinish();
      if need {
        if !prefinished {
          prefinished := true;
        }
        if pendingcb == 0 {
          finished := true;
          finishes := finishes + 1;
          ends := ends.RunWaiting();
        }
      }
    }

    /** `afterWrite`: the callback in hand is the one the books hold. */
    method RunAfterWrite(noDrain: bool, cb: Callback)
      requires Books() && FinishBooks() && !finished && !bufferProcessing && unsent == buffered
      requires due == cb.Owed() && held == Occurs(watched, cb.Requests()) && (noDrain ==> ending)
      modifies this`needDrain, this`drains, this`pendingcb, this`ran, this`due, this`held,
               this`prefinished, this`finished, this`finishes, this`ends
      ensures Books() && FinishBooks() && due == 0 && held == 0
      ensures ending && !finished ==> Busy()
      ensures needDrain && !ending ==> Busy()
      ensures DrainedWhenEmpty() && ran == old(ran) + Callbacks(cb.Requests()) && ends.All() == old(ends.All())
    {
      hide Answered, Queue.All, Outstanding, Owing, Size, Occurs, Runs;
      if !noDrain {
        Drain();
      }
      RunHeldCallback(cb);
      FinishMaybe();
    }

    twostate predicate DrainedWhenEmpty()
      reads this
    {
      Drained(old(needDrain), needDrain, old(drains), drains, length)
    }

    /** `onwriteDrain`. */
    method Drain()
      requires Books()
      modifies this`needDrain, this`drains
      ensures Books() && (needDrain ==> old(needDrain) && Busy()) && DrainedWhenEmpty()
    {
      hide Answered, Queue.All, Outstanding, Owing, Occurs, Runs;
      if length == 0 && needDrain {
        needDrain := false;
        drains := drains + 1;
      }
    }

    /** `pendingcb--` and the call of the callback. */
    method RunHeldCallback(cb: Callback)
      requires Books() && due == cb.Owed() && held == Occurs(watched, cb.Requests())
      modifies this`pendingcb, this`ran, this`due, this`held
      ensures Books() && due == 0 && held == 0
      ensures ran == old(ran) + Callbacks(cb.Requests())
    {
      hide Answered, Queue.All, Outstanding, Owing, Size, Occurs, Runs;
      Settle(watched, ticks, inflight, unsent, held, writecb, due);
      RunsAppend(watched, ran, cb.Requests());
      pendingcb := pendingcb - 1;
      RunCallback(cb);
      due, held := 0, 0;
    }

    /** A chunk's callback, or `onCorkedFinish` over a batch. */
    method RunCallback(cb: Callback)
      modifies this`pendingcb, this`ran
      ensures pendingcb == old(pendingcb) - (cb.Owed() - 1)
      ensures ran == old(ran) + Callbacks(cb.Requests())
    {
      match cb
      case Single(request) =>
        ran := ran + [request.callback];
        assert [request][1..] == [];
      case Batch(requests) =>
        RunBatch(requests);
    }

    method RunBatch(requests: seq<Request>)
      modifies this`pendingcb, this`ran
      ensures pendingcb == old(pendingcb) - |requests|
      ensures ran == old(ran) + Callbacks(requests)
    {
      var n := requests;
      while n != []
        invariant |n| <= |requests| && pendingcb == old(pendingcb) - (|requests| - |n|)
        invariant ran + Callbacks(n) == old(ran) + Callbacks(requests)
        decreases |n|
      {
        pendingcb := pendingcb - 1;
        ran := ran + [n[0].callback];
        n := n[1..];
      }
    }

    /** What `onwrite` and the calls below it do not touch; chunks sent stay sent. */
    twostate predicate UserFieldsKept()
      reads this
    {
      && corked == old(corked) && ending == old(ending) && accepted == old(accepted) && old(sent) <= sent
      && refusals == old(refusals) && ends.All() == old(ends.All())
    }

    /** `onwrite`, called by the sink for the chunks in flight: from inside `_write` (sync) or later. */
    method OnWrite()
      requires Books() && FinishBooks() && writing
      requires sync ==> bufferProcessing || buffered == []
      requires !sync ==> Valid()
      modifies this
      ensures Books() && FinishBooks() && UserFieldsKept() && due == old(due) && held == old(held)
      ensures old(sync) ==>
        && !writing && unsent == old(unsent) && sent == old(sent) && ticks != []
        && buffered == old(buffered) && bufferedRequestCount == old(bufferedRequestCount)
        && bufferProcessing == old(bufferProcessing) && needDrain == old(needDrain) && drains == old(drains)
      ensures old(sync) ==> !finished && calls == old(calls)
      ensures old(corked) > 0 ==> sent == old(sent)
      ensures !old(sync) ==> Valid() && DrainedWhenEmpty()
      decreases if bufferProcessing || buffered == [] then 0 else 1, 2
    {
      hide Drained, FinishBooks, Queue.All, Books, Outstanding, Owing, Size, Occurs, Runs;
      WritingIsBusy();
      var n, cb := sync, writecb.value;
      StateUpdate();
      var noDrain := NeedFinish();
      if !(noDrain || corked > 0 || bufferProcessing || buffered == []) {
        ClearBuffer();
      }
      AfterAnswer(n, noDrain, cb);
    }

    /** The end of `onwrite`: `afterWrite` at once, or deferred when the sink answers from inside its call. */
    method AfterAnswer(later: bool, noDrain: bool, cb: Callback)
      requires Books() && FinishBooks() && !finished && (noDrain ==> ending)
      requires !later ==> due == cb.Owed() && held == Occurs(watched, cb.Requests())
      requires !later ==> !bufferProcessing && unsent == buffered
      modifies this`ticks, this`needDrain, this`drains, this`pendingcb, this`ran, this`due, this`held,
               this`prefinished, this`finished, this`finishes, this`ends
      ensures Books() && FinishBooks() && ends.All() == old(ends.All())
      ensures due == old(due) - cb.Owed() && held == old(held) - Occurs(watched, cb.Requests())
      ensures later ==> ticks == old(ticks) + [AfterWrite(noDrain, cb)]
                        && !finished && needDrain == old(needDrain) && drains == old(drains)
      ensures !later ==> ticks == old(ticks) && DrainedWhenEmpty()
                         && (ending && !finished ==> Busy()) && (needDrain && !ending ==> Busy())
    {
      hide Drained, FinishBooks, Queue.All, Books, Outstanding, Owing, Size, Occurs, Runs;
      if later {
        AfterWriteLater(noDrain, cb);
      } else {
        RunAfterWrite(noDrain, cb);
      }
    }

    lemma WritingIsBusy()
      requires Books() && FinishBooks() && writing
      ensures writecb.Some? && !finished
    {
    }

    /** `onwriteStateUpdate`: the callback moves into the books' hands. */
    method StateUpdate()
      requires Books() && FinishBooks() && !finished && writing
      modifies this`writing, this`writecb, this`length, this`writelen, this`due, this`held, this`inflight
      ensures Books() && FinishBooks() && !writing
      ensures due == old(due + writecb.value.Owed())
      ensures held == old(held + Occurs(watched, writecb.value.Requests()))
    {
      hide Answered, Queue.All, Outstanding, Owing, Size, Occurs, Runs;
      ghost var cb := writecb.value;
      Acknowledge(watched, ticks, unsent, held, cb, due);
      writing, writecb := false, None;
      length := length - writelen;
      writelen := 0;
      due, held, inflight := due + cb.Owed(), held + Occurs(watched, cb.Requests()), [];
    }

    /** `nextTick(afterWrite, ...)`. */
    method AfterWriteLater(noDrain: bool, cb: Callback)
      requires Books() && FinishBooks() && !finished && (noDrain ==> ending)
      modifies this`ticks, this`due, this`held
      ensures Books() && FinishBooks() && ticks == old(ticks) + [AfterWrite(noDrain, cb)]
      ensures due == old(due) - cb.Owed() && held == old(held) - Occurs(watched, cb.Requests())
    {
      hide Answered, Queue.All, Outstanding, Owing, Size, Occurs, Runs;
      Defer(watched, ticks, inflight, unsent, held, writecb, due, AfterWrite(noDrain, cb));
      ticks := ticks + [AfterWrite(noDrain, cb)];
      due, held := due - cb.Owed(), held - Occurs(watched, cb.Requests());
    }

    /** `doWrite`: hands the first unsent chunks to the sink, which answers now or later. */
    method DoWrite(len: nat, cb: Callback)
      requires Books() && FinishBooks() && !finished && !writing
      requires cb.Requests() != [] && cb.Requests() <= unsent && len == Size(cb.Requests())
      requires bufferProcessing || buffered == []
      modifies this
      ensures Books() && FinishBooks() && UserFieldsKept() && held == old(held) && !sync && !finished
      ensures due == old(due) - (cb.Owed() - |cb.Requests()|)
      ensures unsent == old(unsent)[|cb.Requests()|..] && sent == old(sent) + cb.Requests() && (writing || ticks != [])
      ensures calls == old(calls) + 1
      ensures buffered == old(buffered) && bufferedRequestCount == old(bufferedRequestCount)
      ensures bufferProcessing == old(bufferProcessing) && needDrain == old(needDrain) && drains == old(drains)
      decreases 0, 3
    {
      hide FinishBooks, Queue.All, Books, Outstanding, Owing, Size, Occurs, Runs;
      StartWriting(len, cb);
      var answersNow: bool := *;
      if answersNow {
        OnWrite();
      }
      sync := false;
    }

    method StartWriting(len: nat, cb: Callback)
      requires Books() && FinishBooks() && !finished && !writing
      requires cb.Requests() != [] && cb.Requests() <= unsent && len == Size(cb.Requests())
      modifies this`writelen, this`writecb, this`writing, this`sync, this`sent, this`inflight, this`unsent, this`due,
               this`calls
      ensures Books() && FinishBooks() && writing && sync && writecb == Some(cb) && calls == old(calls) + 1
      ensures due == old(due) - (cb.Owed() - |cb.Requests()|) && unsent == old(unsent)[|cb.Requests()|..]
      ensures sent == old(sent) + cb.Requests()
    {
      ghost var requests := cb.Requests();
      hide FinishBooks, Answered;
      NotFinished();
      NothingInFlight();
      hide Answered, Queue.All, Balanced, Owing, Size, Occurs, Runs, Outstanding, NoDrainOnlyAtEnd;
      SendKeepsBalance(watched, accepted, sent, unsent, length, pendingcb, ticks, due, ran, held, ending, cb);
      Open(len, cb, sent + requests, unsent[|requests|..]);
      NotFinished();
    }

    method Open(len: nat, cb: Callback, ghost handed: seq<Request>, ghost rest: seq<Request>)
      modifies this`writelen, this`writecb, this`writing, this`sync, this`sent, this`inflight, this`unsent, this`due,
               this`calls
      ensures writelen == len && writecb == Some(cb) && writing && sync && calls == old(calls) + 1
      ensures sent == handed && inflight == cb.Requests() && unsent == rest
      ensures due == old(due) - (cb.Owed() - |cb.Requests()|)
    {
      writelen, writecb, writing, sync, calls := len, Some(cb), true, true, calls + 1;
      sent, inflight, unsent := handed, cb.Requests(), rest;
      due := due - (cb.Owed() - |inflight|);
    }

    lemma NotFinished()
      requires !finished
      ensures FinishBooks() <==> finishes == 0 && Answered(errors, refusals, ends, ending, false)
    {
    }

    lemma NothingInFlight()
      requires Books() && !writing
      ensures inflight == [] && writelen == 0 && writecb == None
    {
    }

    /** `clearBuffer`. */
    method ClearBuffer()
      requires Books() && FinishBooks() && !finished && !writing && !bufferProcessing
      requires unsent == buffered != [] && bufferedRequestCount == |buffered|
      modifies this
      ensures Books() && FinishBooks() && UserFieldsKept() && due == old(due) && held == old(held)
      ensures unsent == buffered && bufferedRequestCount == |buffered| && !bufferProcessing && !sync
      ensures !writing ==> buffered == []
      ensures (writing || ticks != []) && !finished && needDrain == old(needDrain) && drains == old(drains)
      ensures if hasWritev && old(|buffered|) > 1 then calls == old(calls) + 1 && buffered == []
              else calls == old(calls) + (|sent| - old(|sent|))
      decreases 1, 1
    {
      hide FinishBooks, Queue.All, Books, Outstanding, Owing, Size, Occurs, Runs;
      bufferProcessing := true;
      var r := buffered;
      if hasWritev && |r| > 1 {
        WritevAll(r);
        r := [];
      } else {
        while r != []
          invariant Books() && FinishBooks() && UserFieldsKept() && due == old(due) && held == old(held)
          invariant unsent == r && bufferedRequestCount == |r| && bufferProcessing && !writing && !finished
          invariant needDrain == old(needDrain) && drains == old(drains)
          invariant calls == old(calls) + (|sent| - old(|sent|))
          invariant r == [] ==> ticks != [] && !sync
        {
          OneRequest(r);
          DoWrite(r[0].size, Single(r[0]));
          r := r[1..];
          bufferedRequestCount := bufferedRequestCount - 1;
          if writing {
            break;
          }
        }
      }
      LeaveBuffer(r);
    }

    method LeaveBuffer(rest: seq<Request>)
      modifies this`buffered, this`bufferProcessing
      ensures buffered == rest && !bufferProcessing
    {
      buffered, bufferProcessing := rest, false;
    }

    /** The `_writev` branch of `clearBuffer`: one call for the whole list, one more pendingcb. */
    method WritevAll(r: seq<Request>)
      requires Books() && FinishBooks() && !finished && !writing && bufferProcessing
      requires unsent == r != []
      modifies this
      ensures Books() && FinishBooks() && UserFieldsKept() && due == old(due) && held == old(held)
      ensures unsent == [] && bufferedRequestCount == 0 && bufferProcessing && !sync && !finished
      ensures (writing || ticks != []) && needDrain == old(needDrain) && drains == old(drains)
      ensures calls == old(calls) + 1
      decreases 1, 0
    {
      hide Answered, Queue.All, Outstanding, Owing, Size, Occurs, Runs;
      Idle(ticks, writecb, unsent);
      DoWrite(length, Batch(r));
      Settle(watched, ticks, inflight, unsent, held, writecb, due);
      Settle(watched, ticks, inflight, unsent, held, writecb, due + 1);
      pendingcb, due := pendingcb + 1, due + 1;
      bufferedRequestCount := 0;
    }

    // ---- what the user and the event loop call ----

    /** `write`: false asks the caller to wait for drain. After `end` the chunk is refused with an error. */
    method Write(size: nat, callback: nat) returns (more: bool)
      requires Valid()
      modifies this
      ensures Valid() && ending == old(ending) && corked == old(corked) && ends.All() == old(ends.All())
      ensures old(ending) ==>
        && !more && accepted == old(accepted) && sent == old(sent)
        && errors == old(errors) + 1 && refusals.All() == old(refusals.All()) + [callback]
      ensures !old(ending) ==>
        var request := Request(if objectMode then 1 else size, callback);
        && accepted == old(accepted) + [request] && refusals == old(refusals)
        && more == (old(length) + request.size < highWaterMark)
        && sent == (if old(writing) || old(corked) > 0 then old(sent) else old(sent) + [request])
      ensures drains == old(drains) && needDrain == (old(needDrain) || (!old(ending) && !more))
    {
      hide Books, Answered, Queue.All, Outstanding, Owing, Size, Occurs, Runs;
      if ending {
        Refuse(callback);
        return false;
      }
      var request := Request(if objectMode then 1 else size, callback);
      more := AcceptChunk(request);
      if writing || corked > 0 {
        buffered := buffered + [request];
        bufferedRequestCount := bufferedRequestCount + 1;
      } else {
        assert [request] <= unsent;
        OneRequest([request]);
        DoWrite(request.size, Single(request));
      }
    }

    /** `writeAfterEnd`: an error event, and the callback deferred with it. */
    method Refuse(callback: nat)
      requires Valid() && ending
      modifies this`errors, this`refusals
      ensures Valid() && errors == old(errors) + 1 && refusals.All() == old(refusals.All()) + [callback]
    {
      hide Books;
      errors, refusals := errors + 1, refusals.Defer(callback);
    }

    /** The bookkeeping of `write` and `writeOrBuffer` before the chunk is buffered or written. */
    method AcceptChunk(request: Request) returns (more: bool)
      requires Valid() && !ending
      modifies this`pendingcb, this`length, this`needDrain, this`accepted, this`unsent
      ensures Books() && FinishBooks()
      ensures unsent == old(unsent) + [request] && accepted == old(accepted) + [request]
      ensures more == (old(length) + request.size < highWaterMark)
      ensures needDrain == (old(needDrain) || !more)
    {
      hide Answered, Queue.All, Outstanding, Owing, Size, Occurs, Runs;
      Accept(watched, ticks, inflight, unsent, held, writecb, due, request);
      AcceptedOne(watched, accepted, request);
      pendingcb := pendingcb + 1;
      length := length + request.size;
      accepted, unsent := accepted + [request], unsent + [request];
      more := length < highWaterMark;
      if !more {
        needDrain := true;
      }
    }

    method Cork()
      requires Valid()
      modifies this`corked
      ensures Valid() && corked == old(corked) + 1
    {
      corked := corked + 1;
    }

    method Uncork()
      requires Valid()
      modifies this
      ensures Valid() && ending == old(ending) && accepted == old(accepted) && old(sent) <= sent
      ensures refusals == old(refusals) && ends.All() == old(ends.All())
      ensures drains == old(drains) && needDrain == old(needDrain)
      ensures corked == if old(corked) > 0 then old(corked) - 1 else 0
      ensures var sends := old(corked) == 1 && !old(writing) && old(buffered) != [];
              if !sends then calls == old(calls) && sent == old(sent)
              else if hasWritev && old(|buffered|) > 1 then calls == old(calls) + 1 && buffered == []
              else calls == old(calls) + (|sent| - old(|sent|))
    {
      hide Answered, Queue.All, Books, Outstanding, Owing, Size, Occurs, Runs;
      if corked > 0 {
        corked := corked - 1;
        if !(writing || corked > 0 || bufferProcessing || buffered == []) {
          ClearBuffer();
        }
      }
    }

    /** `end` without a last chunk; with one it is `Write` followed by this. Only the first call looks at its
        callback. */
    method End(callback: Option<nat>)
      requires Valid()
      modifies this
      ensures Valid() && ending && corked == 0 && accepted == old(accepted) && old(sent) <= sent
      ensures refusals == old(refusals)
      ensures ends.All() == if old(ending) || callback.None? then old(ends.All()) else [callback.value]
    {
      hide Books, Answered, Queue.All, Outstanding, Owing, Size, Occurs, Runs;
      if corked > 0 {
        corked := 1;
        Uncork();
      }
      if !ending {
        StartEnding();
        FinishMaybe();
        if callback.Some? {
          GiveToEnd(callback.value);
        }
      }
    }

    method GiveToEnd(callback: nat)
      requires Valid() && ending && ends.All() == []
      modifies this`ends
      ensures Valid() && ends.All() == [callback]
    {
      hide Books;
      ends := if finished then ends.Defer(callback) else Queue([callback], [], []);
    }

    lemma NothingGivenBefore()
      requires Valid() && !ending
      ensures ends.All() == []
    {
    }

    method StartEnding()
      requires Books() && FinishBooks() && !ending
      modifies this`ending
      ensures Books() && FinishBooks() && ending && ends.All() == []
    {
      ending := true;
    }

    /** The sink acknowledges the chunks in flight. */
    method SinkAnswers()
      requires Valid() && writing
      modifies this
      ensures Valid() && UserFieldsKept() && DrainedWhenEmpty()
      ensures corked > 0 ==> sent == old(sent)
    {
      OnWrite();
    }

    /** The event loop runs the first deferred `afterWrite`. */
    method RunTick()
      requires Valid() && ticks != []
      modifies this
      ensures Valid() && UserFieldsKept() && sent == old(sent) && DrainedWhenEmpty()
      ensures ran == old(ran) + Callbacks(old(ticks)[0].callback.Requests())
    {
      hide Drained, FinishBooks, Answered, Queue.All, Books, Outstanding, Owing, Size, Occurs, Runs;
      var t := ticks[0];
      PopTick();
      RunAfterWrite(t.noDrain, t.callback);
    }

    /** The event loop runs the callback of the first write refused. */
    method RunRefusal()
      requires Valid() && refusals.deferred != []
      modifies this`refusals
      ensures Valid() && refusals == old(refusals).RunDeferred()
    {
      hide Books;
      refusals := refusals.RunDeferred();
    }

    /** The event loop runs the deferred callback of `end`. */
    method RunEndTick()
      requires Valid() && ends.deferred != []
      modifies this`ends
      ensures Valid() && ends == old(ends).RunDeferred()
    {
      hide Books;
      ends := ends.RunDeferred();
    }

    method PopTick()
      requires Valid() && ticks != []
      modifies this`ticks, this`due, this`held
      ensures Books() && FinishBooks() && !finished && ticks == old(ticks)[1..]
      ensures var t := old(ticks)[0];
              due == t.callback.Owed() && held == Occurs(watched, t.callback.Requests()) && (t.noDrain ==> ending)
    {
      hide Answered, Queue.All, Outstanding, Owing, Size, Occurs, Runs;
      TakeTick(watched, ticks, inflight, unsent, writecb);
      due, held := ticks[0].callback.Owed(), Occurs(watched, ticks[0].callback.Requests());
      ticks := ticks[1..];
    }

    // ---- what callers can rely on ----

    /** Chunks reach the sink once each and in order, at most one call to it is open, and the
        counters say what they are named for. */
    lemma OrderKept()
      requires Valid()
      ensures accepted == sent + buffered && |inflight| <= |sent| && sent[|sent| - |inflight|..] == inflight
      ensures (inflight != [] <==> writing) && length == Size(inflight) + Size(buffered)
      ensures bufferedRequestCount == |buffered|
    {
    }

    /** `finish` came at most once, and only after every accepted chunk was acknowledged and its
        callback run. */
    lemma FinishMeansDone()
      requires Valid() && finished
      ensures finishes == 1 && ending && sent == accepted && inflight == [] && ticks == []
      ensures Runs(watched, ran) == Occurs(watched, accepted)
    {
    }

    lemma NotFinishedMeansNoFinish()
      requires Valid() && !finished
      ensures finishes == 0
    {
    }

    /** The callback given to the first `end` waits for finish, and runs once after it. */
    lemma EndIsAnswered()
      requires Valid()
      ensures |ends.All()| <= 1 && (ends.All() != [] ==> ending)
      ensures !finished ==> ends.ran == [] && ends.waiting == ends.All()
      ensures finished && ends.deferred == [] ==> ends.ran == ends.All()
    {
    }

    /** Each write after the end is answered by one error event and, in order, by its callback. */
    lemma RefusalsAreAnswered()
      requires Valid()
      ensures errors == |refusals.All()| && refusals.ran <= refusals.All()
      ensures refusals.deferred == [] ==> refusals.ran == refusals.All()
    {
    }

    /** A callback never runs more often than its chunks were accepted. */
    lemma CallbacksRunAtMostOnce()
      requires Valid()
      ensures Runs(watched, ran) <= Occurs(watched, accepted)
    {
    }

    /** Nothing is lost: once the sink has answered everything, no deferred call is left and the
        stream is not corked, an ended stream has finished and an open one owes no drain. */
    lemma NothingForgotten()
      requires Valid() && !writing && ticks == [] && corked == 0
      ensures sent == accepted && length == 0 && pendingcb == 0 && Runs(watched, ran) == Occurs(watched, accepted)
      ensures if ending then finished else !needDrain
    {
    }
  }

  lemma AcceptedOne(c: nat, accepted: seq<Request>, r: Request)
    ensures Occurs(c, accepted + [r]) == Occurs(c, accepted) + (if r.callback == c then 1 else 0)
  {
    OccursAppend(c, accepted, [r]);
    assert [r][1..] == [];
  }

  /** Everything that can happen to a stream, in any order. */
  datatype Action =
    | UserWrites(size: nat, callback: nat)
    | UserCorks
    | UserUncorks
    | UserEnds(answer: Option<nat>)
    | SinkReplies
    | LoopTicks
    | LoopRefusals
    | LoopEnds

  function Ended(script: seq<Action>): bool {
    script != [] && (Ended(script[..|script| - 1]) || script[|script| - 1].UserEnds?)
  }

  /** The chunks a script makes the stream accept: those written before the first `end`. */
  function AcceptedBy(script: seq<Action>, objectMode: bool): seq<Request> {
    if script == [] then []
    else
      var rest := script[..|script| - 1];
      AcceptedBy(rest, objectMode) + Taken(script[|script| - 1], Ended(rest), objectMode)
  }

  /** The callbacks of the writes it makes the stream refuse: those after it. */
  function RefusedBy(script: seq<Action>): seq<nat> {
    if script == [] then []
    else
      var rest := script[..|script| - 1];
      RefusedBy(rest) + Refused(script[|script| - 1], Ended(rest))
  }

  /** The callback of the first `end`. */
  function AnswerTo(script: seq<Action>): seq<nat> {
    if script == [] then []
    else
      var rest := script[..|script| - 1];
      AnswerTo(rest) + Answer(script[|script| - 1], Ended(rest))
  }

  /** How often the stream is corked: `end` uncorks it fully. */
  function Corked(script: seq<Action>): nat {
    if script == [] then 0 else CorkedBy(script[|script| - 1], Corked(script[..|script| - 1]))
  }

  function CorkedBy(a: Action, n: nat): nat {
    if a.UserCorks? then n + 1 else if a.UserUncorks? && n > 0 then n - 1 else if a.UserEnds? then 0 else n
  }

  /** There is an `end` and no `cork` behind it. */
  predicate EndsUncorked(script: seq<Action>) {
    exists e :: 0 <= e < |script| && script[e].UserEnds? && forall i :: e < i < |script| ==> !script[i].UserCorks?
  }

  lemma {:induction false} UncorkedSince(script: seq<Action>, e: nat)
    requires e < |script| && script[e].UserEnds? && forall i :: e < i < |script| ==> !script[i].UserCorks?
    ensures Ended(script) && Corked(script) == 0
    decreases |script|
  {
    if e < |script| - 1 {
      UncorkedSince(script[..|script| - 1], e);
    }
  }

  function Taken(a: Action, ended: bool, objectMode: bool): seq<Request> {
    if a.UserWrites? && !ended then [Request(if objectMode then 1 else a.size, a.callback)] else []
  }

  function Refused(a: Action, ended: bool): seq<nat> {
    if a.UserWrites? && ended then [a.callback] else []
  }

  function Answer(a: Action, ended: bool): seq<nat> {
    if a.UserEnds? && !ended && a.answer.Some? then [a.answer.value] else []
  }

  method Perform(w: Writable, a: Action)
    requires w.Valid()
    modifies w
    ensures w.Valid() && w.ending == (old(w.ending) || a.UserEnds?)
    ensures w.accepted == old(w.accepted) + Taken(a, old(w.ending), w.objectMode)
    ensures w.refusals.All() == old(w.refusals.All()) + Refused(a, old(w.ending))
    ensures w.ends.All() == old(w.ends.All()) + Answer(a, old(w.ending))
    ensures w.corked == CorkedBy(a, old(w.corked))
  {
    hide Writable.Valid, Queue.All;
    match a
    case UserWrites(size, callback) =>
      var _ := w.Write(size, callback);
    case UserCorks =>
      w.Cork();
    case UserUncorks =>
      w.Uncork();
    case UserEnds(answer) =>
      if !w.ending {
        w.NothingGivenBefore();
      }
      w.End(answer);
    case SinkReplies =>
      if w.writing {
        w.SinkAnswers();
      }
    case LoopTicks =>
      if w.ticks != [] {
        w.RunTick();
      }
    case LoopRefusals =>
      if w.refusals.deferred != [] {
        w.RunRefusal();
      }
    case LoopEnds =>
      if w.ends.deferred != [] {
        w.RunEndTick();
      }
  }

  lemma NoScript(objectMode: bool)
    ensures AcceptedBy([], objectMode) == [] && RefusedBy([]) == [] && AnswerTo([]) == [] && !Ended([])
    ensures Corked([]) == 0
  {
  }

  lemma ScriptStep(script: seq<Action>, i: nat, objectMode: bool)
    requires i < |script|
    ensures var rest, more, a := script[..i], script[..i + 1], script[i];
            && AcceptedBy(more, objectMode) == AcceptedBy(rest, objectMode) + Taken(a, Ended(rest), objectMode)
            && RefusedBy(more) == RefusedBy(rest) + Refused(a, Ended(rest))
            && AnswerTo(more) == AnswerTo(rest) + Answer(a, Ended(rest))
            && Ended(more) == (Ended(rest) || a.UserEnds?) && Corked(more) == CorkedBy(a, Corked(rest))
  {
    assert script[..i + 1][..i] == script[..i];
  }

  /** Any run from a new stream, whatever the sink does, ends in a valid state, which has taken or refused
      every write. */
  method AnyRun(objectMode: bool, highWaterMark: nat, hasWritev: bool, script: seq<Action>, ghost watched: nat)
    returns (w: Writable)
    ensures w.Valid() && w.watched == watched
    ensures w.accepted == AcceptedBy(script, objectMode)
    ensures w.refusals.All() == RefusedBy(script) && w.ends.All() == AnswerTo(script)
    ensures w.ending == Ended(script) && w.corked == Corked(script)
    ensures EndsUncorked(script) && !w.writing && w.ticks == [] ==>
              w.finished && w.finishes == 1 && w.sent == w.accepted
  {
    hide Writable.Valid, AcceptedBy, RefusedBy, AnswerTo, Ended, Corked, Taken, Refused, Answer, CorkedBy;
    w := new Writable(objectMode, highWaterMark, hasWritev, watched);
    NoScript(objectMode);
    for i := 0 to |script|
      invariant w.Valid() && fresh(w) && w.watched == watched && w.objectMode == objectMode
      invariant w.accepted == AcceptedBy(script[..i], objectMode)
      invariant w.refusals.All() == RefusedBy(script[..i]) && w.ends.All() == AnswerTo(script[..i])
      invariant w.ending == Ended(script[..i]) && w.corked == Corked(script[..i])
    {
      ScriptStep(script, i, objectMode);
      Perform(w, script[i]);
    }
    assert script[..|script|] == script;
    if EndsUncorked(script) && !w.writing && w.ticks == [] {
      var e :| 0 <= e < |script| && script[e].UserEnds? && forall i :: e < i < |script| ==> !script[i].UserCorks?;
      UncorkedSince(script, e);
      w.NothingForgotten();
      w.FinishMeansDone();
    }
  }
}
