/** Lookup, `Allow` and the sweep as separate steps of concurrent handlers and one sweeper. */
module RateLimitProtocol {
  import opened Options
  import opened TokenBucket

  /** An admitted request; it is stale when its bucket had left the table, or the sweeper had already
      found it full and was about to delete it. */
  datatype Admission = Admission(key: string, time: real, evicted: bool, condemned: bool) {
    predicate Stale() {
      evicted || condemned
    }
  }

  /** `doomed` is the key whose bucket the sweeper has read as full and not yet deleted; it holds the
      table's lock meanwhile. */
  datatype State = State(
    clock: real,
    buckets: seq<Bucket>,
    owner: seq<string>,
    table: map<string, nat>,
    doomed: Option<string>,
    waiting: map<nat, nat>,
    log: seq<Admission>)

  datatype Step =
    | Tick(dt: real)
    | Lookup(req: nat, key: string)
    | Ask(req: nat)
    | Measure(key: string)
    | Delete

  function Init(start: real): State {
    State(start, [], [], map[], None, map[], [])
  }

  predicate WellFormed(p: Policy, st: State) {
    && p.Valid()
    && |st.owner| == |st.buckets|
    && (forall i :: 0 <= i < |st.buckets| ==> p.Sound(st.buckets[i]) && st.buckets[i].last <= st.clock)
    && (forall k :: k in st.table ==> st.table[k] < |st.buckets| && st.owner[st.table[k]] == k)
    && (forall r :: r in st.waiting ==> st.waiting[r] < |st.buckets|)
    && (st.doomed.Some? ==> st.doomed.value in st.table)
  }

  /** The state after one step; a step that cannot be taken now leaves the state alone. */
  function Apply(p: Policy, st: State, step: Step): State
    requires WellFormed(p, st)
  {
    match step
    case Tick(dt) =>
      if dt >= 0.0 then st.(clock := st.clock + dt) else st
    case Lookup(req, key) =>
      if st.doomed.Some? || req in st.waiting then st
      else if key in st.table then st.(waiting := st.waiting[req := st.table[key]])
      else
        var id := |st.buckets|;
        st.(buckets := st.buckets + [Bucket(p.Full(), st.clock)],
            owner := st.owner + [key],
            table := st.table[key := id],
            waiting := st.waiting[req := id])
    case Ask(req) =>
      if req !in st.waiting then st
      else
        var id := st.waiting[req];
        var key := st.owner[id];
        var (ok, b) := p.Allow(st.buckets[id], st.clock);
        var evicted := !(key in st.table && st.table[key] == id);
        var condemned := !evicted && st.doomed == Some(key);
        st.(buckets := st.buckets[id := b],
            waiting := st.waiting - {req},
            log := if ok then st.log + [Admission(key, st.clock, evicted, condemned)] else st.log)
    case Measure(key) =>
      if st.doomed.None? && key in st.table && p.TokensAt(st.buckets[st.table[key]], st.clock) == p.Full()
      then st.(doomed := Some(key))
      else st
    case Delete =>
      if st.doomed.Some? then st.(table := st.table - {st.doomed.value}, doomed := None) else st
  }

  lemma ApplyKeepsWellFormed(p: Policy, st: State, step: Step)
    requires WellFormed(p, st)
    ensures WellFormed(p, Apply(p, st, step))
  {
    if step.Ask? && step.req in st.waiting {
      var b := st.buckets[st.waiting[step.req]];
      RefillInSteps(p, b, st.clock, st.clock);
    }
  }

  function RunSteps(p: Policy, st: State, steps: seq<Step>): (r: State)
    requires WellFormed(p, st)
    ensures WellFormed(p, r)
    decreases steps
  {
    if steps == [] then st
    else
      ApplyKeepsWellFormed(p, st, steps[0]);
      RunSteps(p, Apply(p, st, steps[0]), steps[1..])
  }

  /** How many entries of the log `admit` for this client within [s, e]. */
  function Admitted(log: seq<Admission>, k: string, s: real, e: real): nat {
    if log == [] then 0
    else
      var a := log[|log| - 1];
      Admitted(log[..|log| - 1], k, s, e) + (if a.key == k && s <= a.time <= e then 1 else 0)
  }

  function AdmittedStale(log: seq<Admission>, k: string, s: real, e: real): nat {
    if log == [] then 0
    else
      var a := log[|log| - 1];
      AdmittedStale(log[..|log| - 1], k, s, e) + (if a.key == k && s <= a.time <= e && a.Stale() then 1 else 0)
  }

  function AdmittedEvicted(log: seq<Admission>, k: string, s: real, e: real): nat {
    if log == [] then 0
    else
      var a := log[|log| - 1];
      AdmittedEvicted(log[..|log| - 1], k, s, e) + (if a.key == k && s <= a.time <= e && a.evicted then 1 else 0)
  }

  lemma {:induction false} NoneCondemned(log: seq<Admission>, k: string, s: real, e: real)
    requires forall i :: 0 <= i < |log| && log[i].key == k && s <= log[i].time <= e ==> !log[i].condemned
    ensures AdmittedStale(log, k, s, e) == AdmittedEvicted(log, k, s, e)
  {
    if log != [] {
      NoneCondemned(log[..|log| - 1], k, s, e);
    }
  }

  function Fresh(log: seq<Admission>, k: string, s: real, e: real): int {
    Admitted(log, k, s, e) - AdmittedStale(log, k, s, e)
  }

  /** The tokens the client's next lookup can count on. */
  function Potential(p: Policy, st: State, k: string): real
    requires WellFormed(p, st)
  {
    if k in st.table && st.doomed != Some(k) then p.TokensAt(st.buckets[st.table[k]], st.clock) else p.Full()
  }

  /** The tokens that time can add. */
  function Gain(p: Policy, from: real, to: real): real {
    (to - from) * p.rate
  }

  lemma GainBy(p: Policy, from: real, to: real)
    ensures Gain(p, from, to) == (to - from) * p.rate
  {
  }

  lemma GainIs(p: Policy, s: real, c: real, e: real)
    requires p.Valid()
    ensures s <= e ==> Gain(p, s, e) >= 0.0
    ensures Gain(p, s, e) == Gain(p, s, c) + Gain(p, c, e)
  {
    if s <= e {
      Scale(e - s, p.rate);
    }
  }

  /** Tokens taken in the window and tokens left never exceed the burst and what time has added. */
  predicate Within(p: Policy, clock: real, taken: int, left: real, s: real, e: real) {
    && (clock < s ==> taken == 0)
    && (s <= clock <= e ==> taken as real + left <= p.Full() + Gain(p, s, clock))
    && (s <= e < clock ==> taken as real <= p.Full() + Gain(p, s, e))
  }

  predicate Budget(p: Policy, st: State, k: string, s: real, e: real)
    requires WellFormed(p, st)
  {
    Within(p, st.clock, Fresh(st.log, k, s, e), Potential(p, st, k), s, e)
  }

  lemma WithinLater(p: Policy, c: real, c': real, taken: int, left: real, left': real, s: real, e: real)
    requires p.Valid() && Within(p, c, taken, left, s, e) && s <= e && c <= c' && 0.0 <= left
    requires left' <= p.Full() && left' <= left + Gain(p, c, c')
    ensures Within(p, c', taken, left', s, e)
  {
    GainIs(p, s, c, c');
    GainIs(p, s, c, e);
    GainIs(p, c, e, e);
    GainIs(p, s, e, e);
    hide Gain;
  }

  lemma PotentialLater(p: Policy, st: State, dt: real, k: string)
    requires WellFormed(p, st) && dt >= 0.0 && WellFormed(p, Apply(p, st, Tick(dt)))
    ensures var left, left' := Potential(p, st, k), Potential(p, Apply(p, st, Tick(dt)), k);
            0.0 <= left && left' <= p.Full() && left' <= left + Gain(p, st.clock, st.clock + dt)
  {
    hide Policy.TokensAt, Gain;
    GainIs(p, st.clock, st.clock + dt, st.clock + dt);
    if k in st.table && st.doomed != Some(k) {
      RefillInSteps(p, st.buckets[st.table[k]], st.clock, st.clock + dt);
      assert Gain(p, st.clock, st.clock + dt) == (st.clock + dt - st.clock) * p.rate by {
        GainBy(p, st.clock, st.clock + dt);
      }
    }
  }

  lemma TickKeepsBudget(p: Policy, st: State, dt: real, k: string, s: real, e: real)
    requires WellFormed(p, st) && Budget(p, st, k, s, e) && s <= e && dt >= 0.0
    requires WellFormed(p, Apply(p, st, Tick(dt)))
    ensures Budget(p, Apply(p, st, Tick(dt)), k, s, e)
  {
    PotentialLater(p, st, dt, k);
    hide Gain, Within, Potential, Fresh;
    var st' := Apply(p, st, Tick(dt));
    WithinLater(p, st.clock, st'.clock, Fresh(st.log, k, s, e), Potential(p, st, k), Potential(p, st', k), s, e);
  }

  /** An admitted request is counted fresh exactly when it takes a token from the client's own potential. */
  lemma AskSpends(p: Policy, st: State, req: nat, k: string, s: real, e: real)
    requires WellFormed(p, st) && req in st.waiting && WellFormed(p, Apply(p, st, Ask(req)))
    ensures var st' := Apply(p, st, Ask(req));
            var spent := Potential(p, st, k) - Potential(p, st', k);
            && (spent == 0.0 || spent == 1.0)
            && st'.clock == st.clock
            && Fresh(st'.log, k, s, e) as real
               == Fresh(st.log, k, s, e) as real + (if s <= st.clock <= e then spent else 0.0)
  {
    var id := st.waiting[req];
    var key := st.owner[id];
    var ok := p.Allow(st.buckets[id], st.clock).0;
    AllowTakes(p, st.buckets[id], st.clock);
    hide Policy.Allow, Policy.TokensAt;
    var st' := Apply(p, st, Ask(req));
    assert k in st.table && st.table[k] == id ==> key == k;
    if ok {
      assert st'.log[..|st'.log| - 1] == st.log;
    }
  }

  lemma AllowTakes(p: Policy, b: Bucket, now: real)
    requires p.Valid() && p.Sound(b) && b.last <= now
    ensures var (ok, b') := p.Allow(b, now); p.TokensAt(b', now) == p.TokensAt(b, now) - if ok then 1.0 else 0.0
  {
  }

  lemma AskKeepsBudget(p: Policy, st: State, req: nat, k: string, s: real, e: real)
    requires WellFormed(p, st) && Budget(p, st, k, s, e) && s <= e && req in st.waiting
    requires WellFormed(p, Apply(p, st, Ask(req)))
    ensures Budget(p, Apply(p, st, Ask(req)), k, s, e)
  {
    AskSpends(p, st, req, k, s, e);
    hide Apply, WellFormed, Fresh;
  }

  /** Lookups and the sweeper's steps leave every client's potential and the log as they are. */
  lemma OthersKeepPotential(p: Policy, st: State, step: Step, k: string)
    requires WellFormed(p, st) && WellFormed(p, Apply(p, st, step))
    requires step.Lookup? || step.Measure? || step.Delete?
    ensures var st' := Apply(p, st, step);
            st'.clock == st.clock && st'.log == st.log && Potential(p, st', k) == Potential(p, st, k)
  {
  }

  lemma StepKeepsBudget(p: Policy, st: State, step: Step, k: string, s: real, e: real)
    requires WellFormed(p, st) && Budget(p, st, k, s, e) && s <= e
    ensures WellFormed(p, Apply(p, st, step)) && Budget(p, Apply(p, st, step), k, s, e)
  {
    ApplyKeepsWellFormed(p, st, step);
    match step
    case Tick(dt) => if dt >= 0.0 { TickKeepsBudget(p, st, dt, k, s, e); }
    case Ask(req) => if req in st.waiting { AskKeepsBudget(p, st, req, k, s, e); }
    case _ => OthersKeepPotential(p, st, step, k);
  }

  lemma {:induction false} RunKeepsBudget(p: Policy, st: State, steps: seq<Step>, k: string, s: real, e: real)
    requires WellFormed(p, st) && Budget(p, st, k, s, e) && s <= e
    ensures Budget(p, RunSteps(p, st, steps), k, s, e)
    decreases steps
  {
    if steps != [] {
      ApplyKeepsWellFormed(p, st, steps[0]);
      StepKeepsBudget(p, st, steps[0], k, s, e);
      RunKeepsBudget(p, Apply(p, st, steps[0]), steps[1..], k, s, e);
    }
  }

  /** For every interleaving, client and interval: at most the burst, what the interval adds, and one
      for each request admitted on a bucket that was evicted or condemned when it asked. */
  lemma AdmissionBound(p: Policy, start: real, steps: seq<Step>, k: string, s: real, e: real)
    requires p.Valid() && s <= e
    ensures var log := RunSteps(p, Init(start), steps).log;
            Admitted(log, k, s, e) as real <= p.Full() + (e - s) * p.rate + AdmittedStale(log, k, s, e) as real
  {
    var st := RunSteps(p, Init(start), steps);
    InitialBudget(p, start, k, s, e);
    RunKeepsBudget(p, Init(start), steps, k, s, e);
    hide *;
    BudgetBounds(p, st, k, s, e);
  }

  lemma BudgetBounds(p: Policy, st: State, k: string, s: real, e: real)
    requires WellFormed(p, st) && Budget(p, st, k, s, e) && s <= e
    ensures Admitted(st.log, k, s, e) as real <= p.Full() + (e - s) * p.rate + AdmittedStale(st.log, k, s, e) as real
  {
    PotentialIsSome(p, st, k);
    hide Potential, Within, Admitted, AdmittedStale;
    WithinBounds(p, st.clock, Fresh(st.log, k, s, e), Potential(p, st, k), s, e);
    GainBy(p, s, e);
  }

  lemma WithinBounds(p: Policy, c: real, taken: int, left: real, s: real, e: real)
    requires p.Valid() && Within(p, c, taken, left, s, e) && s <= e && left >= 0.0
    ensures taken as real <= p.Full() + Gain(p, s, e)
  {
    GainIs(p, s, c, e);
    GainIs(p, c, e, e);
    GainIs(p, s, e, e);
    hide Gain;
    assert p.Full() >= 0.0;
  }

  lemma InitialBudget(p: Policy, start: real, k: string, s: real, e: real)
    requires p.Valid() && s <= e
    ensures Budget(p, Init(start), k, s, e)
  {
    WithinAtStart(p, start, s, e);
  }

  lemma WithinAtStart(p: Policy, start: real, s: real, e: real)
    requires p.Valid() && s <= e
    ensures Within(p, start, 0, p.Full(), s, e)
  {
    GainIs(p, s, start, start);
    GainIs(p, s, e, e);
    hide Gain;
  }

  lemma PotentialIsSome(p: Policy, st: State, k: string)
    requires WellFormed(p, st)
    ensures Potential(p, st, k) >= 0.0
  {
    if k in st.table {
      RefillInSteps(p, st.buckets[st.table[k]], st.clock, st.clock);
    }
  }

  ghost predicate Reachable(p: Policy, start: real, st: State)
    requires p.Valid()
  {
    exists steps :: RunSteps(p, Init(start), steps) == st
  }

  lemma {:induction false} RunLast(p: Policy, st: State, steps: seq<Step>, step: Step)
    requires WellFormed(p, st)
    ensures RunSteps(p, st, steps + [step]) == Apply(p, RunSteps(p, st, steps), step)
    decreases steps
  {
    if steps == [] {
      assert steps + [step] == [step];
    } else {
      assert (steps + [step])[1..] == steps[1..] + [step];
      ApplyKeepsWellFormed(p, st, steps[0]);
      RunLast(p, Apply(p, st, steps[0]), steps[1..], step);
    }
  }

  lemma Reach(p: Policy, start: real, st: State, step: Step, st': State)
    requires WellFormed(p, st) && Reachable(p, start, st) && Apply(p, st, step) == st'
    ensures WellFormed(p, st') && Reachable(p, start, st')
  {
    var steps :| RunSteps(p, Init(start), steps) == st;
    RunLast(p, Init(start), steps, step);
    ApplyKeepsWellFormed(p, st, step);
  }

  /** The bound that counts only buckets already evicted. */
  predicate PlainBound(p: Policy, log: seq<Admission>, k: string, s: real, e: real) {
    Admitted(log, k, s, e) as real <= p.Full() + (e - s) * p.rate + AdmittedEvicted(log, k, s, e) as real
  }

  // ---- when counting evicted buckets is enough ----

  /** The request would ask a bucket that the sweeper has found full and not yet deleted. */
  predicate AsksCondemned(p: Policy, st: State, step: Step)
    requires WellFormed(p, st)
  {
    step.Ask? && step.req in st.waiting
    && var id := st.waiting[step.req];
    var key := st.owner[id];
    key in st.table && st.table[key] == id && st.doomed == Some(key)
  }

  /** Whenever the sweeper finds a bucket full it deletes it before anyone asks that bucket. */
  predicate Undisturbed(p: Policy, st: State, steps: seq<Step>)
    requires WellFormed(p, st)
    decreases steps
  {
    steps == [] ||
    (ApplyKeepsWellFormed(p, st, steps[0]);
     !AsksCondemned(p, st, steps[0]) && Undisturbed(p, Apply(p, st, steps[0]), steps[1..]))
  }

  predicate NoneCondemnedIn(log: seq<Admission>) {
    forall i :: 0 <= i < |log| ==> !log[i].condemned
  }

  lemma {:induction false} UndisturbedCondemnsNone(p: Policy, st: State, steps: seq<Step>)
    requires WellFormed(p, st) && Undisturbed(p, st, steps) && NoneCondemnedIn(st.log)
    ensures NoneCondemnedIn(RunSteps(p, st, steps).log)
    decreases steps
  {
    if steps != [] {
      ApplyKeepsWellFormed(p, st, steps[0]);
      UndisturbedCondemnsNone(p, Apply(p, st, steps[0]), steps[1..]);
    }
  }

  /** With undisturbed sweeps only evicted buckets add to the bound, whatever else is interleaved. */
  lemma UndisturbedSweepsKeepPlainBound(p: Policy, start: real, steps: seq<Step>, k: string, s: real, e: real)
    requires p.Valid() && s <= e && Undisturbed(p, Init(start), steps)
    ensures PlainBound(p, RunSteps(p, Init(start), steps).log, k, s, e)
  {
    UndisturbedCondemnsNone(p, Init(start), steps);
    AdmissionBound(p, start, steps, k, s, e);
    NoneCondemned(RunSteps(p, Init(start), steps).log, k, s, e);
  }

  /** The schedule deletes, if anything, right after each look. */
  predicate LooksAndDeletesAtOnce(steps: seq<Step>) {
    forall i :: 0 <= i < |steps| - 1 && steps[i].Measure? ==> steps[i + 1].Delete?
  }

  lemma {:induction false} AtOnceIsUndisturbed(p: Policy, st: State, steps: seq<Step>)
    requires WellFormed(p, st) && LooksAndDeletesAtOnce(steps)
    requires st.doomed.None? || steps == [] || steps[0].Delete?
    ensures Undisturbed(p, st, steps)
    decreases steps
  {
    if steps != [] {
      ApplyKeepsWellFormed(p, st, steps[0]);
      AtOnceIsUndisturbed(p, Apply(p, st, steps[0]), steps[1..]);
    }
  }

  // ---- when it is not ----

  lemma CountMore(log: seq<Admission>, a: Admission, k: string, t: real)
    requires a.key == k && a.time == t
    ensures Admitted(log + [a], k, t, t) == Admitted(log, k, t, t) + 1
    ensures AdmittedEvicted(log + [a], k, t, t) == AdmittedEvicted(log, k, t, t) + (if a.evicted then 1 else 0)
  {
    assert (log + [a])[..|log|] == log;
  }

  /** Nobody waits and nothing is condemned; the client's bucket holds `n` tokens. */
  ghost predicate AtRest(p: Policy, st: State, k: string, n: nat) {
    && WellFormed(p, st) && st.doomed.None? && st.waiting == map[] && n <= p.burst
    && k in st.table && st.buckets[st.table[k]] == Bucket(n as real, st.clock)
  }

  lemma OneMore(p: Policy, start: real, st: State, k: string, n: nat) returns (st': State)
    requires p.Valid() && Reachable(p, start, st) && AtRest(p, st, k, n) && n > 0
    ensures Reachable(p, start, st') && AtRest(p, st', k, n - 1) && st'.clock == st.clock
    ensures st'.log == st.log + [Admission(k, st.clock, false, false)]
  {
    TokensNow(p, st.clock, n);
    hide Policy.TokensAt, Policy.Allow;
    var held := st.(waiting := map[0 := st.table[k]]);
    Reach(p, start, st, Lookup(0, k), held);
    st' := held.(buckets := st.buckets[st.table[k] := Bucket((n - 1) as real, st.clock)], waiting := map[],
                 log := st.log + [Admission(k, st.clock, false, false)]);
    assert held.waiting - {0} == map[];
    Reach(p, start, held, Ask(0), st');
  }

  /** So many tokens, so many admissions at one instant. */
  lemma {:induction false} SpendAll(p: Policy, start: real, st: State, k: string, n: nat) returns (st': State)
    requires p.Valid() && Reachable(p, start, st) && AtRest(p, st, k, n)
    ensures Reachable(p, start, st')
    ensures Admitted(st'.log, k, st.clock, st.clock) == Admitted(st.log, k, st.clock, st.clock) + n
    ensures AdmittedEvicted(st'.log, k, st.clock, st.clock) == AdmittedEvicted(st.log, k, st.clock, st.clock)
    decreases n
  {
    if n == 0 {
      st' := st;
    } else {
      var next := OneMore(p, start, st, k, n);
      CountMore(st.log, Admission(k, st.clock, false, false), k, st.clock);
      st' := SpendAll(p, start, next, k, n - 1);
    }
  }

  /** One handler holds the client's bucket, which the sweeper is about to delete. */
  function Held(p: Policy, start: real, k: string): State {
    State(start, [Bucket(p.Full(), start)], [k], map[k := 0], Some(k), map[0 := 0], [])
  }

  lemma TokensNow(p: Policy, t: real, n: nat)
    requires n <= p.burst
    ensures p.TokensAt(Bucket(n as real, t), t) == n as real
    ensures n >= 1 ==> p.Allow(Bucket(n as real, t), t) == (true, Bucket((n - 1) as real, t))
  {
  }

  lemma HeldIsReachable(p: Policy, start: real, k: string)
    requires p.Valid()
    ensures Reachable(p, start, Held(p, start, k)) && WellFormed(p, Held(p, start, k))
  {
    TokensNow(p, start, p.burst);
    hide Policy.TokensAt, Policy.Allow;
    var s0, s1 := Init(start), Held(p, start, k).(doomed := None);
    assert RunSteps(p, s0, []) == s0;
    Reach(p, start, s0, Lookup(0, k), s1);
    Reach(p, start, s1, Measure(k), Held(p, start, k));
  }

  /** The client's second bucket, one token of it spent, with this log before. */
  function Second(p: Policy, start: real, k: string, first: Bucket, a: Admission): State
    requires p.burst >= 1
  {
    State(start, [first, Bucket((p.burst - 1) as real, start)], [k, k], map[k := 1], None, map[],
          [a, Admission(k, start, false, false)])
  }

  /** One handler holds the evicted bucket, another the new one. */
  lemma TwoBuckets(p: Policy, start: real, k: string)
    requires p.Valid()
    ensures var full := Bucket(p.Full(), start);
            var st := State(start, [full, full], [k, k], map[k := 1], None, map[0 := 0, 1 := 1], []);
            WellFormed(p, st) && Reachable(p, start, st)
  {
    var full := Bucket(p.Full(), start);
    HeldIsReachable(p, start, k);
    var s3 := State(start, [full], [k], map[], None, map[0 := 0], []);
    Reach(p, start, Held(p, start, k), Delete, s3);
    Reach(p, start, s3, Lookup(1, k), State(start, [full, full], [k, k], map[k := 1], None, map[0 := 0, 1 := 1], []));
  }

  /** A bucket evicted between a lookup and its `Allow`: for every policy with a burst, one more than the
      burst at one instant, so the bound of AdmissionBound is reached. */
  lemma EvictedBucketsCount(p: Policy, start: real, k: string) returns (st: State)
    requires p.Valid() && p.burst >= 1
    ensures Reachable(p, start, st)
    ensures Admitted(st.log, k, start, start) == p.burst + 1 && AdmittedEvicted(st.log, k, start, start) == 1
  {
    TokensNow(p, start, p.burst);
    hide Policy.TokensAt, Policy.Allow;
    var full, spent := Bucket(p.Full(), start), Bucket((p.burst - 1) as real, start);
    TwoBuckets(p, start, k);
    var s4 := State(start, [full, full], [k, k], map[k := 1], None, map[0 := 0, 1 := 1], []);
    var a := Admission(k, start, true, false);
    var s5 := State(start, [spent, full], [k, k], map[k := 1], None, map[1 := 1], [a]);
    Reach(p, start, s4, Ask(0), s5);
    Reach(p, start, s5, Ask(1), Second(p, start, k, spent, a));
    st := SpendSecond(p, start, k, spent, a);
  }

  /** An `Allow` between the sweeper's look at a full bucket and its deletion: the same for every policy
      with a burst, and no bucket was evicted before it was asked. */
  lemma CondemnedBucketsCount(p: Policy, start: real, k: string) returns (st: State)
    requires p.Valid() && p.burst >= 1
    ensures Reachable(p, start, st)
    ensures Admitted(st.log, k, start, start) == p.burst + 1 && AdmittedEvicted(st.log, k, start, start) == 0
  {
    TokensNow(p, start, p.burst);
    hide Policy.TokensAt, Policy.Allow;
    var spent := Bucket((p.burst - 1) as real, start);
    HeldIsReachable(p, start, k);
    var a := Admission(k, start, false, true);
    var s3 := State(start, [spent], [k], map[k := 0], Some(k), map[], [a]);
    Reach(p, start, Held(p, start, k), Ask(0), s3);
    var s4 := State(start, [spent], [k], map[], None, map[], [a]);
    Reach(p, start, s3, Delete, s4);
    NewBucket(p, start, k, spent, a);
    hide *;
    st := SpendSecond(p, start, k, spent, a);
  }

  /** The client gets a second, full bucket and takes a token from it. */
  lemma NewBucket(p: Policy, start: real, k: string, spent: Bucket, a: Admission)
    requires p.Valid() && p.burst >= 1
    requires var st := State(start, [spent], [k], map[], None, map[], [a]);
             WellFormed(p, st) && Reachable(p, start, st)
    ensures WellFormed(p, Second(p, start, k, spent, a)) && Reachable(p, start, Second(p, start, k, spent, a))
  {
    TokensNow(p, start, p.burst);
    hide Policy.TokensAt, Policy.Allow;
    var full := Bucket(p.Full(), start);
    var st := State(start, [spent, full], [k, k], map[k := 1], None, map[1 := 1], [a]);
    Reach(p, start, State(start, [spent], [k], map[], None, map[], [a]), Lookup(1, k), st);
    Reach(p, start, st, Ask(1), Second(p, start, k, spent, a));
  }

  lemma SpendSecond(p: Policy, start: real, k: string, first: Bucket, a: Admission) returns (st: State)
    requires p.Valid() && p.burst >= 1 && a.key == k && a.time == start
    requires WellFormed(p, Second(p, start, k, first, a)) && Reachable(p, start, Second(p, start, k, first, a))
    ensures Reachable(p, start, st)
    ensures Admitted(st.log, k, start, start) == p.burst + 1
    ensures AdmittedEvicted(st.log, k, start, start) == if a.evicted then 1 else 0
  {
    var second := Second(p, start, k, first, a);
    assert AtRest(p, second, k, p.burst - 1) && second.clock == start;
    SecondCounts(p, start, k, first, a);
    hide *;
    st := SpendAll(p, start, second, k, p.burst - 1);
  }

  lemma SecondCounts(p: Policy, start: real, k: string, first: Bucket, a: Admission)
    requires p.burst >= 1 && a.key == k && a.time == start
    ensures var log := Second(p, start, k, first, a).log;
            && Admitted(log, k, start, start) == 2
            && AdmittedEvicted(log, k, start, start) == if a.evicted then 1 else 0
  {
    var b := Admission(k, start, false, false);
    CountMore([], a, k, start);
    CountMore([a], b, k, start);
    assert [] + [a] == [a] && [a] + [b] == [a, b];
  }

  /** Over all runs, counting evicted buckets is enough exactly for policies that admit nobody. */
  lemma PlainBoundIffNoBurst(p: Policy)
    requires p.Valid()
    ensures (forall start, st, k, s, e :: Reachable(p, start, st) && s <= e ==> PlainBound(p, st.log, k, s, e))
            <==> p.burst == 0
  {
    if p.burst == 0 {
      forall start, st, k, s, e | Reachable(p, start, st) && s <= e
        ensures PlainBound(p, st.log, k, s, e)
      {
        var steps :| RunSteps(p, Init(start), steps) == st;
        NoBurstAdmitsNone(p, Init(start), steps);
        Scale(e - s, p.rate);
      }
    } else {
      var st := CondemnedBucketsCount(p, 0.0, "a");
      assert !PlainBound(p, st.log, "a", 0.0, 0.0);
    }
  }

  lemma {:induction false} NoBurstAdmitsNone(p: Policy, st: State, steps: seq<Step>)
    requires WellFormed(p, st) && p.burst == 0 && st.log == []
    ensures RunSteps(p, st, steps).log == []
    decreases steps
  {
    if steps != [] {
      ApplyKeepsWellFormed(p, st, steps[0]);
      NoBurstAdmitsNone(p, Apply(p, st, steps[0]), steps[1..]);
    }
  }
}
