/** A token bucket over exact numbers: what golang.org/x/time/rate promises of a Limiter. */
module TokenBucket {
  datatype Bucket = Bucket(tokens: real, last: real)

  /** The rate and the burst every bucket of one limiter shares. */
  datatype Policy = Policy(rate: real, burst: nat) {
    predicate Valid() {
      rate >= 0.0
    }

    function Full(): real {
      burst as real
    }

    predicate Sound(b: Bucket) {
      0.0 <= b.tokens <= Full()
    }

    /** `TokensAt`: refilled since the last use, up to the burst. */
    function TokensAt(b: Bucket, now: real): real {
      var elapsed := if now < b.last then 0.0 else now - b.last;
      var tokens := b.tokens + elapsed * rate;
      if tokens > Full() then Full() else tokens
    }

    /** `Allow`: one token if there is one. */
    function Allow(b: Bucket, now: real): (r: (bool, Bucket)) {
      var tokens := TokensAt(b, now);
      if tokens >= 1.0 then (true, Bucket(tokens - 1.0, now)) else (false, b)
    }
  }

  /** Refilling in two steps is refilling at once. */
  lemma RefillInSteps(p: Policy, b: Bucket, t: real, u: real)
    requires p.Valid() && p.Sound(b) && b.last <= t <= u
    ensures 0.0 <= p.TokensAt(b, t) <= p.TokensAt(b, u) <= p.Full()
    ensures p.TokensAt(b, u) == p.TokensAt(Bucket(p.TokensAt(b, t), t), u)
    ensures p.TokensAt(b, u) <= p.TokensAt(b, t) + (u - t) * p.rate
  {
    Scale(t - b.last, p.rate);
    Scale(u - t, p.rate);
    assert (u - b.last) * p.rate == (t - b.last) * p.rate + (u - t) * p.rate;
  }

  lemma Scale(x: real, r: real)
    requires x >= 0.0 && r >= 0.0
    ensures x * r >= 0.0
  {
  }

  /** A client that waits for one token's worth of time is admitted, whatever came before. */
  lemma WaitingIsRewarded(p: Policy, b: Bucket, now: real)
    requires p.Valid() && p.Sound(b) && p.burst >= 1 && b.last <= now && (now - b.last) * p.rate >= 1.0
    ensures p.Allow(b, now).0
  {
  }

  /** The answers of asking so many times at one instant. */
  function AllowTimes(p: Policy, b: Bucket, now: real, times: nat): seq<bool>
    decreases times
  {
    if times == 0 then []
    else
      var (ok, b') := p.Allow(b, now);
      [ok] + AllowTimes(p, b', now, times - 1)
  }

  /** A client at rest gets exactly its burst: so many requests are admitted and the next ones are not. */
  lemma {:induction false} BurstIsExact(p: Policy, b: Bucket, now: real, times: nat, i: nat)
    requires p.Valid() && b.last == now && 0.0 <= b.tokens <= p.Full()
    requires b.tokens == b.tokens.Floor as real && i < times
    ensures |AllowTimes(p, b, now, times)| == times
    ensures AllowTimes(p, b, now, times)[i] <==> i < b.tokens.Floor
    decreases times
  {
    var (ok, b') := p.Allow(b, now);
    assert p.TokensAt(b, now) == b.tokens;
    assert ok <==> b.tokens.Floor >= 1;
    if ok {
      assert b' == Bucket(b.tokens - 1.0, now) && (b.tokens - 1.0).Floor == b.tokens.Floor - 1;
    }
    if i > 0 {
      BurstIsExact(p, b', now, times - 1, i - 1);
    } else if times > 1 {
      BurstIsExact(p, b', now, times - 1, 0);
    }
  }

  type Table = map<string, Bucket>

  predicate SoundTable(p: Policy, m: Table, now: real) {
    p.Valid() && forall k :: k in m ==> p.Sound(m[k]) && m[k].last <= now
  }

  /** The tokens a client has; one without a bucket would get a full one. */
  function Level(p: Policy, m: Table, k: string, now: real): real {
    if k in m then p.TokensAt(m[k], now) else p.Full()
  }

  /** Look up or create the client's bucket, then ask it. */
  function Serve(p: Policy, m: Table, k: string, now: real): (bool, Table) {
    var b := if k in m then m[k] else Bucket(p.Full(), now);
    var (ok, b') := p.Allow(b, now);
    (ok, m[k := b'])
  }

  /** One key of a sweep: drop the bucket if it is full. */
  function Evict(p: Policy, m: Table, k: string, now: real): Table {
    if k in m && p.TokensAt(m[k], now) == p.Full() then m - {k} else m
  }
}

/** The evicting limiter against the one that keeps every bucket for ever. */
module RateLimitRefinement {
  import opened TokenBucket

  datatype Event = Request(key: string, time: real) | Check(key: string, time: real)

  /** Times do not decrease. */
  predicate Monotone(es: seq<Event>, start: real) {
    es == [] || (start <= es[0].time && Monotone(es[1..], es[0].time))
  }

  function Requests(es: seq<Event>): seq<Event> {
    if es == [] then [] else (if es[0].Request? then [es[0]] else []) + Requests(es[1..])
  }

  /** The answers, in order, with a table that sweeps empty. */
  function Answers(p: Policy, m: Table, es: seq<Event>): seq<bool>
    decreases es
  {
    if es == [] then []
    else
      match es[0]
      case Request(k, t) =>
        var (ok, m') := Serve(p, m, k, t);
        [ok] + Answers(p, m', es[1..])
      case Check(k, t) => Answers(p, Evict(p, m, k, t), es[1..])
  }

  ghost predicate SameLevels(p: Policy, m: Table, n: Table, now: real) {
    forall k :: Level(p, m, k, now) == Level(p, n, k, now)
  }

  lemma LevelLater(p: Policy, m: Table, k: string, t: real, u: real)
    requires SoundTable(p, m, t) && t <= u
    ensures Level(p, m, k, u) == p.TokensAt(Bucket(Level(p, m, k, t), t), u)
  {
    if k in m {
      RefillInSteps(p, m[k], t, u);
    } else {
      RefillInSteps(p, Bucket(p.Full(), t), t, u);
    }
  }

  lemma SameLevelsLater(p: Policy, m: Table, n: Table, t: real, u: real)
    requires SoundTable(p, m, t) && SoundTable(p, n, t) && SameLevels(p, m, n, t) && t <= u
    ensures SoundTable(p, m, u) && SoundTable(p, n, u) && SameLevels(p, m, n, u)
  {
    forall k
      ensures Level(p, m, k, u) == Level(p, n, k, u)
    {
      LevelLater(p, m, k, t, u);
      LevelLater(p, n, k, t, u);
    }
  }

  /** What a served request does to the levels: the answer is whether a token is there, and it is
      the only one taken. */
  lemma ServeLevels(p: Policy, m: Table, k: string, now: real, j: string)
    requires SoundTable(p, m, now)
    ensures var (ok, m') := Serve(p, m, k, now);
            && SoundTable(p, m', now)
            && ok == (Level(p, m, k, now) >= 1.0)
            && Level(p, m', j, now) == Level(p, m, j, now) - (if ok && j == k then 1.0 else 0.0)
  {
  }

  /** Dropping a full bucket changes no level. */
  lemma EvictLevels(p: Policy, m: Table, k: string, now: real, j: string)
    requires SoundTable(p, m, now)
    ensures SoundTable(p, Evict(p, m, k, now), now)
    ensures Level(p, Evict(p, m, k, now), j, now) == Level(p, m, j, now)
  {
  }

  /** Sweeps never change an answer, wherever they fall. */
  lemma {:induction false} SweepsAreInvisible(p: Policy, m: Table, n: Table, es: seq<Event>, now: real)
    requires SoundTable(p, m, now) && SoundTable(p, n, now) && SameLevels(p, m, n, now) && Monotone(es, now)
    ensures Answers(p, m, es) == Answers(p, n, Requests(es))
    decreases es
  {
    if es != [] {
      var t, k := es[0].time, es[0].key;
      SameLevelsLater(p, m, n, now, t);
      if es[0].Request? {
        var m', n' := Serve(p, m, k, t).1, Serve(p, n, k, t).1;
        forall j
          ensures Level(p, m', j, t) == Level(p, n', j, t)
        {
          ServeLevels(p, m, k, t, j);
          ServeLevels(p, n, k, t, j);
        }
        ServeLevels(p, m, k, t, k);
        ServeLevels(p, n, k, t, k);
        SweepsAreInvisible(p, m', n', es[1..], t);
        assert Requests(es)[1..] == Requests(es[1..]);
      } else {
        var m' := Evict(p, m, k, t);
        forall j
          ensures Level(p, m', j, t) == Level(p, n, j, t)
        {
          EvictLevels(p, m, k, t, j);
        }
        EvictLevels(p, m, k, t, k);
        SweepsAreInvisible(p, m', n, es[1..], t);
        assert Requests(es) == Requests(es[1..]);
      }
    }
  }

  /** From an empty table, every placement of sweeps gives the answers of the limiter without them. */
  lemma EvictionRefinesKeeping(p: Policy, es: seq<Event>, start: real)
    requires p.Valid() && Monotone(es, start)
    ensures Answers(p, map[], es) == Answers(p, map[], Requests(es))
  {
    SweepsAreInvisible(p, map[], map[], es, start);
  }

  // ---- clients do not affect each other ----

  function Of(es: seq<Event>, k: string): seq<Event> {
    if es == [] then [] else (if es[0].key == k then [es[0]] else []) + Of(es[1..], k)
  }

  /** The answers that went to one client. */
  function AnswersTo(p: Policy, m: Table, es: seq<Event>, j: string): seq<bool>
    decreases es
  {
    if es == [] then []
    else
      match es[0]
      case Request(k, t) =>
        var (ok, m') := Serve(p, m, k, t);
        (if k == j then [ok] else []) + AnswersTo(p, m', es[1..], j)
      case Check(k, t) => AnswersTo(p, Evict(p, m, k, t), es[1..], j)
  }

  lemma {:induction false} ClientsAreIndependent(p: Policy, m: Table, n: Table, es: seq<Event>, j: string)
    requires (j in m <==> j in n) && (j in m ==> m[j] == n[j])
    ensures AnswersTo(p, m, es, j) == Answers(p, n, Of(es, j))
    decreases es
  {
    if es != [] {
      var t, k := es[0].time, es[0].key;
      var m' := if es[0].Request? then Serve(p, m, k, t).1 else Evict(p, m, k, t);
      if k == j {
        var n' := if es[0].Request? then Serve(p, n, k, t).1 else Evict(p, n, k, t);
        ClientsAreIndependent(p, m', n', es[1..], j);
        assert Of(es, j)[1..] == Of(es[1..], j);
      } else {
        ClientsAreIndependent(p, m', n, es[1..], j);
        assert Of(es, j) == Of(es[1..], j);
      }
    }
  }
}

/** The limiter as the program holds it: objects in a map. */
module RateLimiter {
  import opened TokenBucket
  import opened RateLimitRefinement

  /** `rate.Limiter`. */
  class Limiter {
    const policy: Policy
    var tokens: real
    var last: real

    constructor (policy: Policy, now: real)
      ensures this.policy == policy && Value() == Bucket(policy.Full(), now)
    {
      this.policy := policy;
      tokens := policy.burst as real;
      last := now;
    }

    function Value(): Bucket
      reads this
    {
      Bucket(tokens, last)
    }

    /** The tokens there would be now; nothing is stored. */
    method Advance(now: real) returns (t: real)
      ensures t == policy.TokensAt(Value(), now)
    {
      var from := if now < last then now else last;
      var delta := (now - from) * policy.rate;
      t := tokens + delta;
      if t > policy.burst as real {
        t := policy.burst as real;
      }
    }

    method Allow(now: real) returns (ok: bool)
      modifies this
      ensures (ok, Value()) == policy.Allow(old(Value()), now)
    {
      var t := Advance(now);
      t := t - 1.0;
      ok := t >= 0.0;
      if ok {
        tokens, last := t, now;
      }
    }
  }

  /** Where a sweep that reads the clock for each key stands when `keys` are still to be checked: of
      the others, those left were not full at its start and those gone are full by now. */
  ghost predicate SweptBut(p: Policy, m: Table, m': Table, keys: set<string>, start: real, end: real) {
    && m'.Keys <= m.Keys
    && (forall k :: k in m' ==> m'[k] == m[k] && (k in keys || p.TokensAt(m[k], start) < p.Full()))
    && (forall k :: k in m && k !in m' ==> p.TokensAt(m[k], end) == p.Full())
  }

  /** What a whole sweep may leave. */
  ghost predicate Swept(p: Policy, m: Table, m': Table, start: real, end: real) {
    SweptBut(p, m, m', {}, start, end)
  }

  lemma EvictMore(p: Policy, m: Table, m': Table, keys: set<string>, key: string, start: real, end: real, now: real)
    requires SoundTable(p, m, start) && start <= end <= now && key in m' && SweptBut(p, m, m', keys, start, end)
    ensures SweptBut(p, m, Evict(p, m', key, now), keys - {key}, start, now)
  {
    forall k | k in m
      ensures p.TokensAt(m[k], start) <= p.TokensAt(m[k], end) <= p.TokensAt(m[k], now) <= p.Full()
    {
      RefillInSteps(p, m[k], start, end);
      RefillInSteps(p, m[k], end, now);
    }
    hide Policy.TokensAt;
  }

  /** No later request can tell such a sweep from none. */
  lemma SweepChangesNoAnswer(p: Policy, m: Table, m': Table, start: real, end: real, es: seq<Event>)
    requires SoundTable(p, m, start) && start <= end && Swept(p, m, m', start, end) && Monotone(es, end)
    ensures Answers(p, m', es) == Answers(p, m, es)
  {
    forall k
      ensures Level(p, m', k, end) == Level(p, m, k, end)
    {
    }
    SweepsAreInvisible(p, m', m, es, end);
    SweepsAreInvisible(p, m, m, es, end);
  }

  class RateLimiter {
    const policy: Policy
    var limiters: map<string, Limiter>

    constructor (rate: real, burst: nat)
      requires rate >= 0.0
      ensures policy == Policy(rate, burst) && fresh(this) && limiters == map[] && Valid()
    {
      policy := Policy(rate, burst);
      limiters := map[];
    }

    ghost predicate Valid()
      reads this
    {
      && policy.Valid()
      && (forall k :: k in limiters ==> limiters[k].policy == policy)
      && (forall j, k :: j in limiters && k in limiters && limiters[j] == limiters[k] ==> j == k)
    }

    function View(): Table
      reads this, limiters.Values
    {
      map k | k in limiters :: limiters[k].Value()
    }

    method GetLimiter(key: string, now: real) returns (limiter: Limiter)
      requires Valid()
      modifies this`limiters
      ensures Valid()
      ensures key in limiters && limiters[key] == limiter
      ensures limiters == old(limiters)[key := limiter]
      ensures if key in old(limiters) then limiter == old(limiters)[key]
              else fresh(limiter) && limiter.policy == policy && limiter.Value() == Bucket(policy.Full(), now)
      ensures View() == if key in old(View()) then old(View()) else old(View())[key := Bucket(policy.Full(), now)]
    {
      if key in limiters {
        limiter := limiters[key];
        assert limiters == limiters[key := limiter];
      } else {
        limiter := new Limiter(policy, now);
        limiters := limiters[key := limiter];
      }
    }

    /** Spend a token of a bucket that is in the table. */
    method Ask(key: string, now: real) returns (ok: bool)
      requires Valid() && key in limiters
      modifies limiters[key]
      ensures Valid() && key in View() && key in old(View())
      ensures (ok, View()[key]) == policy.Allow(old(View())[key], now)
      ensures View() == old(View())[key := View()[key]]
    {
      ok := limiters[key].Allow(now);
    }

    /** The middleware's decision: OPTIONS requests pass untouched, others spend a token. */
    method Admit(options: bool, key: string, now: real) returns (ok: bool)
      requires Valid()
      modifies this`limiters, limiters.Values
      ensures Valid() && fresh(limiters.Values - old(limiters.Values))
      ensures options ==> ok && View() == old(View())
      ensures !options ==> (ok, View()) == Serve(policy, old(View()), key, now)
    {
      if options {
        return true;
      }
      var limiter := GetLimiter(key, now);
      hide Policy.Allow, Valid, View;
      ok := Ask(key, now);
      assert View() == old(View())[key := View()[key]];
    }

    /** One key of the cleanup loop. */
    method Check(key: string, now: real)
      requires Valid() && key in limiters
      modifies this`limiters
      ensures Valid() && limiters.Keys <= old(limiters.Keys) <= limiters.Keys + {key}
      ensures forall k :: k in limiters ==> limiters[k] == old(limiters)[k]
      ensures View() == Evict(policy, old(View()), key, now)
    {
      var tokens := limiters[key].Advance(now);
      if tokens == policy.burst as real {
        limiters := limiters - {key};
      }
    }

    /** One pass of the cleanup routine; the clock moves on between keys. */
    method Cleanup(start: real) returns (end: real)
      requires Valid() && SoundTable(policy, View(), start)
      modifies this`limiters
      ensures Valid() && start <= end
      ensures Swept(policy, old(View()), View(), start, end)
    {
      ghost var was := View();
      end := start;
      var keys := limiters.Keys;
      while keys != {}
        invariant Valid() && keys <= limiters.Keys
        invariant start <= end && SweptBut(policy, was, View(), keys, start, end)
        decreases |keys|
      {
        hide *;
        var key :| key in keys;
        var now: real := *;
        EvictMore(policy, was, View(), keys, key, start, end, if now < end then end else now);
        end := if now < end then end else now;
        Check(key, end);
        keys := keys - {key};
      }
    }
  }

  lemma NoEvents(p: Policy, m: Table)
    ensures Answers(p, m, []) == []
  {
  }

  lemma OneEvent(p: Policy, m: Table, es: seq<Event>)
    requires es != []
    ensures var e := es[0];
            && (e.Request? ==> Answers(p, m, es)
                               == [Serve(p, m, e.key, e.time).0] + Answers(p, Serve(p, m, e.key, e.time).1, es[1..]))
            && (e.Check? ==> Answers(p, m, es) == Answers(p, Evict(p, m, e.key, e.time), es[1..]))
            && (e.key !in m ==> Evict(p, m, e.key, e.time) == m)
  {
  }

  /** Requests and checks in any order, through the limiter itself. */
  method Handle(limiter: RateLimiter, es: seq<Event>) returns (answers: seq<bool>)
    requires limiter.Valid()
    modifies limiter`limiters, limiter.limiters.Values
    ensures limiter.Valid()
    ensures answers == Answers(limiter.policy, old(limiter.View()), es)
  {
    answers := [];
    hide Serve, Evict, RateLimiter.Valid, Answers;
    ghost var start := limiter.View();
    assert es[0..] == es;
    for i := 0 to |es|
      invariant limiter.Valid() && fresh(limiter.limiters.Values - old(limiter.limiters.Values))
      invariant start == old(limiter.View())
      invariant Answers(limiter.policy, start, es) == answers + Answers(limiter.policy, limiter.View(), es[i..])
    {
      OneEvent(limiter.policy, limiter.View(), es[i..]);
      assert es[i..][1..] == es[i + 1..];
      match es[i]
      case Request(k, t) =>
        var ok := limiter.Admit(false, k, t);
        answers := answers + [ok];
      case Check(k, t) =>
        if k in limiter.limiters {
          limiter.Check(k, t);
        }
    }
    assert es[|es|..] == [];
    NoEvents(limiter.policy, limiter.View());
    assert answers + [] == answers;
  }
}

/** What a client sees of a new limiter. */
module FirstRequests {
  import opened TokenBucket
  import opened RateLimitRefinement

  function Times(k: string, t: real, n: nat): (r: seq<Event>)
    ensures |r| == n && forall i :: 0 <= i < n ==> r[i] == Request(k, t)
  {
    seq(n, _ => Request(k, t))
  }

  lemma {:induction false} AnswersAreThoseOfBucket(p: Policy, m: Table, k: string, t: real, n: nat)
    ensures var b := if k in m then m[k] else Bucket(p.Full(), t);
            Answers(p, m, Times(k, t, n)) == AllowTimes(p, b, t, n)
    decreases n
  {
    var b := if k in m then m[k] else Bucket(p.Full(), t);
    if n > 0 {
      assert Times(k, t, n)[1..] == Times(k, t, n - 1);
      AnswersAreThoseOfBucket(p, m[k := p.Allow(b, t).1], k, t, n - 1);
      hide Policy.Allow;
    }
  }

  /** Of any number of requests at one instant a new client gets exactly the first ones admitted, as many as
      the burst. */
  lemma NewClientGetsBurst(p: Policy, m: Table, k: string, t: real, n: nat, i: nat)
    requires p.Valid() && k !in m && i < n
    ensures |Answers(p, m, Times(k, t, n))| == n
    ensures Answers(p, m, Times(k, t, n))[i] <==> i < p.burst
  {
    AnswersAreThoseOfBucket(p, m, k, t, n);
    hide Answers;
    assert p.Full().Floor == p.burst;
    BurstIsExact(p, Bucket(p.Full(), t), t, n, i);
  }
}
