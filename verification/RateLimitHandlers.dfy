/** Concurrent handlers and the sweeper over the limiter's own objects: each of their calls is one step of
    the protocol. */
module RateLimitHandlers {
  import opened Options
  import opened RateLimitProtocol
  import opened RateLimiter
  import opened TokenBucket

  /** These objects are the protocol's buckets, in the order they were made. */
  ghost predicate Buckets(p: Policy, made: seq<Limiter>, buckets: seq<Bucket>)
    reads made
  {
    && |made| == |buckets|
    && (forall i, j :: 0 <= i < j < |made| ==> made[i] != made[j])
    && (forall i :: 0 <= i < |made| ==> made[i].policy == p && made[i].Value() == buckets[i])
  }

  /** The program's references are the protocol's numbers. */
  ghost predicate Names(limiters: map<string, Limiter>, waiting: map<nat, Limiter>, made: seq<Limiter>, st: State) {
    && limiters.Keys == st.table.Keys
    && (forall k :: k in st.table ==> st.table[k] < |made| && limiters[k] == made[st.table[k]])
    && waiting.Keys == st.waiting.Keys
    && (forall r :: r in st.waiting ==> st.waiting[r] < |made| && waiting[r] == made[st.waiting[r]])
  }

  lemma NamesAfterLookup(p: Policy, limiters: map<string, Limiter>, waiting: map<nat, Limiter>, made: seq<Limiter>,
                         st: State, req: nat, key: string, l: Limiter)
    requires WellFormed(p, st) && |made| == |st.buckets| && Names(limiters, waiting, made, st)
    requires st.doomed.None? && req !in waiting && (key in limiters ==> l == limiters[key])
    ensures Names(limiters[key := l], waiting[req := l], if key in limiters then made else made + [l],
                  Apply(p, st, Lookup(req, key)))
  {
    hide Policy.TokensAt, Policy.Allow;
  }

  lemma BucketsAfterLookup(p: Policy, made: seq<Limiter>, st: State, req: nat, key: string, l: Limiter)
    requires WellFormed(p, st) && Buckets(p, made, st.buckets) && st.doomed.None? && req !in st.waiting
    requires key !in st.table ==> l !in made && l.policy == p && l.Value() == Bucket(p.Full(), st.clock)
    ensures Buckets(p, if key in st.table then made else made + [l], Apply(p, st, Lookup(req, key)).buckets)
  {
    hide Policy.TokensAt, Policy.Allow;
  }

  class Handlers {
    const limiter: RateLimiter
    var clock: real
    /** The bucket each waiting request has looked up. */
    var waiting: map<nat, Limiter>
    /** The key the sweeper holds the lock for. */
    var doomed: Option<string>
    /** Every bucket ever made, and the protocol's view of it all. */
    ghost var made: seq<Limiter>
    ghost var st: State

    ghost predicate Valid()
      reads this, limiter, made
    {
      && limiter.Valid() && WellFormed(limiter.policy, st) && st.clock == clock && st.doomed == doomed
      && Buckets(limiter.policy, made, st.buckets) && Names(limiter.limiters, waiting, made, st)
    }

    constructor (rate: real, burst: nat, start: real)
      requires rate >= 0.0
      ensures Valid() && limiter.policy == Policy(rate, burst) && st == Init(start)
    {
      limiter := new RateLimiter(rate, burst);
      clock, waiting, doomed := start, map[], None;
      made, st := [], Init(start);
    }

    method Wait(dt: real)
      requires Valid() && dt >= 0.0
      modifies this`clock, this`st
      ensures Valid() && st == Apply(limiter.policy, old(st), Tick(dt))
    {
      st := Apply(limiter.policy, st, Tick(dt));
      clock := clock + dt;
    }

    /** `GetLimiter`; the table's lock keeps it out while the sweeper is between its look and its deletion. */
    method LookUp(req: nat, key: string)
      requires Valid() && doomed.None? && req !in waiting
      modifies this`waiting, this`doomed, this`made, this`st, limiter
      ensures Valid() && st == Apply(limiter.policy, old(st), Lookup(req, key))
    {
      ghost var p, before := limiter.policy, st;
      ghost var after := Apply(p, before, Lookup(req, key));
      assert after.clock == clock && after.doomed == doomed && (key in st.table <==> key in limiter.limiters);
      ApplyKeepsWellFormed(p, before, Lookup(req, key));
      ghost var names := limiter.limiters;
      var l := limiter.GetLimiter(key, clock);
      ghost var grown := if key in names then made else made + [l];
      BucketsAfterLookup(p, made, before, req, key, l);
      NamesAfterLookup(p, names, waiting, made, before, req, key, l);
      hide Buckets, Names, Apply, WellFormed, RateLimiter.View, RateLimiter.Valid;
      Become(waiting[req := l], doomed, grown, after);
    }

    /** The new references of handlers and sweeper. */
    method Become(waiting': map<nat, Limiter>, doomed': Option<string>, ghost made': seq<Limiter>, ghost after: State)
      requires limiter.Valid() && WellFormed(limiter.policy, after) && after.clock == clock && after.doomed == doomed'
      requires Buckets(limiter.policy, made', after.buckets)
      requires Names(limiter.limiters, waiting', made', after)
      modifies this`waiting, this`doomed, this`made, this`st
      ensures Valid() && st == after
    {
      hide Buckets, Names, WellFormed;
      waiting, doomed, made, st := waiting', doomed', made', after;
    }

    /** `Allow` on the bucket looked up before, wherever that is now. */
    method Answer(req: nat) returns (ok: bool)
      requires Valid() && req in waiting
      modifies this`waiting, this`doomed, this`made, this`st, waiting[req]
      ensures Valid() && st == Apply(limiter.policy, old(st), Ask(req))
      ensures ok <==> |st.log| > old(|st.log|)
    {
      ghost var p, before, id := limiter.policy, st, st.waiting[req];
      ghost var after := Apply(p, before, Ask(req));
      ApplyKeepsWellFormed(p, before, Ask(req));
      ok := waiting[req].Allow(clock);
      hide Policy.Allow, Policy.TokensAt;
      assert after.buckets == before.buckets[id := p.Allow(before.buckets[id], clock).1];
      assert Buckets(p, made, after.buckets);
      assert Names(limiter.limiters, waiting - {req}, made, after);
      assert |after.log| == |before.log| + if ok then 1 else 0;
      hide Buckets, Names, Apply, WellFormed, RateLimiter.View;
      Become(waiting - {req}, doomed, made, after);
    }

    /** The sweeper's look at a bucket. */
    method Look(key: string)
      requires Valid() && doomed.None? && key in limiter.limiters
      modifies this`waiting, this`doomed, this`made, this`st
      ensures Valid() && st == Apply(limiter.policy, old(st), Measure(key))
    {
      ghost var after := Apply(limiter.policy, st, Measure(key));
      ApplyKeepsWellFormed(limiter.policy, st, Measure(key));
      var tokens := limiter.limiters[key].Advance(clock);
      var found := if tokens == limiter.policy.burst as real then Some(key) else None;
      hide Policy.TokensAt;
      assert after == st.(doomed := found);
      hide Buckets, Apply, WellFormed, RateLimiter.View;
      Become(waiting, found, made, after);
    }

    /** And its deletion. */
    method Drop()
      requires Valid() && doomed.Some?
      modifies this`waiting, this`doomed, this`made, this`st, limiter
      ensures Valid() && st == Apply(limiter.policy, old(st), Delete)
    {
      ghost var after := Apply(limiter.policy, st, Delete);
      ApplyKeepsWellFormed(limiter.policy, st, Delete);
      limiter.limiters := limiter.limiters - {doomed.value};
      assert after == st.(table := st.table - {doomed.value}, doomed := None);
      assert Names(limiter.limiters, waiting, made, after) && limiter.Valid();
      hide Buckets, Names, Apply, WellFormed, RateLimiter.View, RateLimiter.Valid;
      Become(waiting, None, made, after);
    }
  }
}
