/** The markets the seeder writes, and how many fall to each moderator. */
module SeedMarkets {
  import opened Arithmetic
  import opened Options
  import opened SeedNames

  datatype Market = Market(title: string, creator: string, resolution: int, open: bool, deleted: bool, kept: int)

  type Markets = map<nat, Market>

  function Title(i: nat): string {
    "Load Test Market " + Decimal(i, 6)
  }

  lemma FirstTitle()
    ensures Title(1) == "Load Test Market " + "000001"
  {
    FirstNumber();
  }

  /** Moderators take turns. */
  function Turn(i: nat, moderators: nat): (r: nat)
    requires i > 0 && moderators > 0
    ensures 1 <= r <= moderators
  {
    (i - 1) % moderators + 1
  }

  /** The first markets fall to the moderators in their order, and so on from the first again. */
  lemma TurnsInOrder(i: nat, m: nat)
    requires 0 < i && 0 < m
    ensures i <= m ==> Turn(i, m) == i
    ensures Turn(i + m, m) == Turn(i, m)
  {
    var q, r := (i - 1) / m, (i - 1) % m;
    assert i - 1 == q * m + r;
    assert i + m - 1 == (q + 1) * m + r;
    Quotient(i + m - 1, m, q + 1, r);
    if i <= m {
      Quotient(i - 1, m, 0, i - 1);
    }
  }

  function Creator(cfg: Config, i: nat): string
    requires i > 0 && cfg.moderatorCount > 0
  {
    Name(cfg.moderatorPrefix, Turn(i, cfg.moderatorCount))
  }

  predicate Matches(m: Markets, id: nat, title: string, creator: string) {
    id in m && !m[id].deleted && m[id].title == title && m[id].creator == creator
  }

  /** The first row in id order below `n`. */
  function Find(m: Markets, title: string, creator: string, n: nat): (r: Option<nat>)
    ensures r.Some? ==> r.value < n && Matches(m, r.value, title, creator)
    ensures r.None? ==> forall id :: 0 <= id < n ==> !Matches(m, id, title, creator)
    decreases n
  {
    if n == 0 then None
    else
      var earlier := Find(m, title, creator, n - 1);
      if earlier.Some? then earlier else if Matches(m, n - 1, title, creator) then Some(n - 1) else None
  }

  /** Of several such rows it is the one with the least id. */
  lemma {:induction false} FindIsFirst(m: Markets, title: string, creator: string, n: nat, id: nat)
    requires id < n && Matches(m, id, title, creator)
    ensures Find(m, title, creator, n).Some? && Find(m, title, creator, n).value <= id
    decreases n
  {
    if id < n - 1 {
      FindIsFirst(m, title, creator, n - 1, id);
    }
  }

  /** The table, the next id to give out, and the ids of the seeded markets so far. */
  datatype Board = Board(markets: Markets, nextId: nat, ids: seq<nat>)

  ghost predicate Sound(b: Board) {
    forall id :: id in b.markets ==> id < b.nextId
  }

  /** One turn of the loop of `upsertMarkets`. */
  function UpsertMarket(b: Board, title: string, creator: string, resolution: int): Board {
    var found := Find(b.markets, title, creator, b.nextId);
    if found.Some? then
      Board(b.markets[found.value := b.markets[found.value].(resolution := resolution, open := true)], b.nextId,
            b.ids + [found.value])
    else
      var market := Market(title, creator, resolution, true, false, 0);
      Board(b.markets[b.nextId := market], b.nextId + 1, b.ids + [b.nextId])
  }

  function UpsertMarkets(cfg: Config, b: Board, n: nat, resolution: int): Board
    requires cfg.moderatorCount > 0
    decreases n
  {
    if n == 0 then b
    else UpsertMarket(UpsertMarkets(cfg, b, n - 1, resolution), Title(n), Creator(cfg, n), resolution)
  }

  lemma {:induction false} FindSame(m: Markets, m': Markets, title: string, creator: string, n: nat, n': nat)
    requires n <= n'
    requires forall id :: 0 <= id < n ==> (Matches(m, id, title, creator) <==> Matches(m', id, title, creator))
    requires forall id :: n <= id < n' ==> !Matches(m', id, title, creator)
    ensures Find(m', title, creator, n') == Find(m, title, creator, n)
    decreases n'
  {
    if n < n' {
      FindSame(m, m', title, creator, n, n' - 1);
    } else if n > 0 {
      FindSame(m, m', title, creator, n - 1, n - 1);
    }
  }

  /** The seeded market of a title and creator is the one with this id, and it is up to date. */
  ghost predicate Shows(b: Board, title: string, creator: string, id: nat, resolution: int) {
    && Find(b.markets, title, creator, b.nextId) == Some(id)
    && b.markets[id].resolution == resolution && b.markets[id].open
  }

  /** An upsert shows its own market and disturbs no other. */
  lemma UpsertShows(b: Board, title: string, creator: string, resolution: int)
    requires Sound(b)
    ensures var b' := UpsertMarket(b, title, creator, resolution);
            Sound(b') && b'.nextId >= b.nextId && Shows(b', title, creator, b'.ids[|b.ids|], resolution)
  {
    var b' := UpsertMarket(b, title, creator, resolution);
    if Find(b.markets, title, creator, b.nextId).Some? {
      FindSame(b.markets, b'.markets, title, creator, b.nextId, b'.nextId);
    } else {
      FindSame(b.markets, b'.markets, title, creator, b.nextId, b.nextId);
    }
  }

  lemma UpsertDisturbsNoOther(b: Board, title: string, creator: string, resolution: int,
                              other: string, maker: string, id: nat, at: int)
    requires Sound(b) && title != other && Shows(b, other, maker, id, at)
    ensures Shows(UpsertMarket(b, title, creator, resolution), other, maker, id, at)
  {
    var b' := UpsertMarket(b, title, creator, resolution);
    FindSame(b.markets, b'.markets, other, maker, b.nextId, b'.nextId);
  }

  lemma TitlesDiffer(i: nat, j: nat)
    requires i < j < 1_000_000
    ensures Title(i) != Title(j)
  {
    if Title(i) == Title(j) {
      NamesAreInjective("Load Test Market ", i, "Load Test Market ", j);
    }
  }

  ghost predicate AllShown(cfg: Config, b: Board, n: nat, resolution: int)
    requires cfg.moderatorCount > 0
  {
    |b.ids| == n && ShownUpTo(cfg, b, n, resolution)
  }

  ghost predicate ShownUpTo(cfg: Config, b: Board, n: nat, resolution: int)
    requires cfg.moderatorCount > 0 && n <= |b.ids|
  {
    forall i :: 1 <= i <= n ==> Shows(b, Title(i), Creator(cfg, i), b.ids[i - 1], resolution)
  }

  lemma ShownLess(cfg: Config, b: Board, n: nat, resolution: int)
    requires cfg.moderatorCount > 0 && 0 < n <= |b.ids| && ShownUpTo(cfg, b, n, resolution)
    ensures ShownUpTo(cfg, b, n - 1, resolution)
    ensures Shows(b, Title(n), Creator(cfg, n), b.ids[n - 1], resolution)
  {
  }

  lemma AllShownMore(cfg: Config, b: Board, n: nat, resolution: int)
    requires cfg.moderatorCount > 0 && Sound(b) && 0 < n < 1_000_000 && AllShown(cfg, b, n - 1, resolution)
    ensures var b' := UpsertMarket(b, Title(n), Creator(cfg, n), resolution);
            Sound(b') && b'.nextId >= b.nextId && AllShown(cfg, b', n, resolution)
  {
    var b' := UpsertMarket(b, Title(n), Creator(cfg, n), resolution);
    assert |b'.ids| == n && b'.ids[..n - 1] == b.ids;
    UpsertShows(b, Title(n), Creator(cfg, n), resolution);
    hide UpsertMarket, Title, Creator, Shows, Sound;
    forall i | 1 <= i < n
      ensures Shows(b', Title(i), Creator(cfg, i), b'.ids[i - 1], resolution)
    {
      TitlesDiffer(i, n);
      assert b'.ids[i - 1] == b.ids[i - 1];
      UpsertDisturbsNoOther(b, Title(n), Creator(cfg, n), resolution, Title(i), Creator(cfg, i), b.ids[i - 1],
                            resolution);
    }
  }

  lemma {:induction false} UpsertMarketsShows(cfg: Config, b: Board, n: nat, resolution: int)
    requires cfg.moderatorCount > 0 && Sound(b) && b.ids == [] && n < 1_000_000
    ensures Sound(UpsertMarkets(cfg, b, n, resolution)) && UpsertMarkets(cfg, b, n, resolution).nextId >= b.nextId
    ensures AllShown(cfg, UpsertMarkets(cfg, b, n, resolution), n, resolution)
    decreases n
  {
    if n > 0 {
      hide UpsertMarket, Title, Creator, Sound, AllShown;
      UpsertMarketsShows(cfg, b, n - 1, resolution);
      AllShownMore(cfg, UpsertMarkets(cfg, b, n - 1, resolution), n, resolution);
    }
  }

  /** Seeding again with the same time finds every market and changes none. */
  lemma {:induction false} UpsertMarketsAgain(cfg: Config, b: Board, n: nat, resolution: int)
    requires cfg.moderatorCount > 0 && n <= |b.ids| && ShownUpTo(cfg, b, n, resolution)
    ensures UpsertMarkets(cfg, Restart(b), n, resolution).markets == b.markets
    ensures UpsertMarkets(cfg, Restart(b), n, resolution).nextId == b.nextId
    ensures UpsertMarkets(cfg, Restart(b), n, resolution).ids == b.ids[..n]
    decreases n
  {
    hide UpsertMarket, Title, Creator, Shows, ShownUpTo;
    if n > 0 {
      ShownLess(cfg, b, n, resolution);
      UpsertMarketsAgain(cfg, b, n - 1, resolution);
      UpsertShown(UpsertMarkets(cfg, Restart(b), n - 1, resolution), b, Title(n), Creator(cfg, n), b.ids[n - 1],
                  resolution);
      assert b.ids[..n] == b.ids[..n - 1] + [b.ids[n - 1]];
    }
  }

  /** The same table, with no ids collected yet. */
  function Restart(b: Board): Board {
    b.(ids := [])
  }

  lemma UpsertShown(c: Board, b: Board, title: string, creator: string, id: nat, resolution: int)
    requires Shows(b, title, creator, id, resolution) && c.markets == b.markets && c.nextId == b.nextId
    ensures var c' := UpsertMarket(c, title, creator, resolution);
            c'.markets == b.markets && c'.nextId == b.nextId && c'.ids == c.ids + [id]
  {
    hide Find;
    assert b.markets[id := b.markets[id].(resolution := resolution, open := true)] == b.markets;
  }

  /** The same ids with another time. */
  function AtTime(b: Board, resolution: int): Board {
    b.(markets := map id | id in b.markets ::
         if id in b.ids then b.markets[id].(resolution := resolution) else b.markets[id])
  }

  lemma {:induction false} TimeDoesNotMatter(cfg: Config, b: Board, n: nat, resolution: int, other: int)
    requires cfg.moderatorCount > 0 && b.ids == []
    ensures UpsertMarkets(cfg, b, n, other) == AtTime(UpsertMarkets(cfg, b, n, resolution), other)
    decreases n
  {
    if n == 0 {
      assert AtTime(b, other).markets == b.markets;
    } else {
      TimeDoesNotMatter(cfg, b, n - 1, resolution, other);
      TimeStep(UpsertMarkets(cfg, b, n - 1, resolution), Title(n), Creator(cfg, n), resolution, other);
    }
  }

  lemma TimeStep(b: Board, title: string, creator: string, resolution: int, other: int)
    ensures UpsertMarket(AtTime(b, other), title, creator, other)
            == AtTime(UpsertMarket(b, title, creator, resolution), other)
  {
    var c := AtTime(b, other);
    FindSame(b.markets, c.markets, title, creator, b.nextId, c.nextId);
    assert UpsertMarket(c, title, creator, other).markets
        == AtTime(UpsertMarket(b, title, creator, resolution), other).markets;
  }

  /** Seeding markets a second time gives the same ids, and what one seeding at the second time gives. */
  lemma MarketsTwiceIsOnce(cfg: Config, b: Board, n: nat, resolution: int, other: int)
    requires cfg.moderatorCount > 0 && Sound(b) && b.ids == [] && n < 1_000_000
    ensures var once := UpsertMarkets(cfg, b, n, resolution);
            var twice := UpsertMarkets(cfg, Restart(once), n, other);
            twice == UpsertMarkets(cfg, b, n, other) && twice.ids == once.ids && twice.nextId == once.nextId
  {
    var once := UpsertMarkets(cfg, b, n, resolution);
    UpsertMarketsShows(cfg, b, n, resolution);
    UpsertMarketsAgain(cfg, once, n, resolution);
    assert once.ids[..n] == once.ids;
    TimeDoesNotMatter(cfg, b, n, resolution, other);
    TimeDoesNotMatter(cfg, Restart(once), n, resolution, other);
  }

  // ---- how many ids are given out ----

  /** How many of the first `n` markets have no live row yet. */
  function Missing(cfg: Config, m: Markets, nextId: nat, n: nat): nat
    requires cfg.moderatorCount > 0
    decreases n
  {
    if n == 0 then 0
    else Missing(cfg, m, nextId, n - 1) + (if Find(m, Title(n), Creator(cfg, n), nextId).None? then 1 else 0)
  }

  /** Upserting the markets before number `i` leaves the search for it as it was. */
  lemma {:induction false} NotYetTouched(cfg: Config, b: Board, n: nat, i: nat, resolution: int)
    requires cfg.moderatorCount > 0 && Sound(b) && b.ids == [] && n < i < 1_000_000
    ensures var b' := UpsertMarkets(cfg, b, n, resolution);
            Find(b'.markets, Title(i), Creator(cfg, i), b'.nextId)
            == Find(b.markets, Title(i), Creator(cfg, i), b.nextId)
    decreases n
  {
    if n > 0 {
      hide Title, Creator, UpsertMarket;
      NotYetTouched(cfg, b, n - 1, i, resolution);
      UpsertMarketsShows(cfg, b, n - 1, resolution);
      TitlesDiffer(n, i);
      FindOther(UpsertMarkets(cfg, b, n - 1, resolution), Title(n), Creator(cfg, n), resolution,
                Title(i), Creator(cfg, i));
    }
  }

  lemma FindOther(b: Board, title: string, creator: string, resolution: int, other: string, maker: string)
    requires Sound(b) && title != other
    ensures var b' := UpsertMarket(b, title, creator, resolution);
            Find(b'.markets, other, maker, b'.nextId) == Find(b.markets, other, maker, b.nextId)
  {
    var b' := UpsertMarket(b, title, creator, resolution);
    FindSame(b.markets, b'.markets, other, maker, b.nextId, b'.nextId);
  }

  /** Seeding gives out one id for each market that has no live row. */
  lemma {:induction false} IdsGivenOut(cfg: Config, b: Board, n: nat, resolution: int)
    requires cfg.moderatorCount > 0 && Sound(b) && b.ids == [] && n < 1_000_000
    ensures UpsertMarkets(cfg, b, n, resolution).nextId == b.nextId + Missing(cfg, b.markets, b.nextId, n)
    decreases n
  {
    if n > 0 {
      hide Title, Creator, Find, UpsertMarket;
      IdsGivenOut(cfg, b, n - 1, resolution);
      NotYetTouched(cfg, b, n - 1, n, resolution);
      NewIdIfMissing(UpsertMarkets(cfg, b, n - 1, resolution), Title(n), Creator(cfg, n), resolution);
    }
  }

  lemma NewIdIfMissing(b: Board, title: string, creator: string, resolution: int)
    ensures UpsertMarket(b, title, creator, resolution).nextId
            == b.nextId + if Find(b.markets, title, creator, b.nextId).None? then 1 else 0
  {
  }

  // ---- the load of each moderator ----

  /** How many of the first `n` markets fall to this moderator. */
  function Load(n: nat, moderators: nat, who: nat): nat
    requires moderators > 0
    decreases n
  {
    if n == 0 then 0 else Load(n - 1, moderators, who) + (if Turn(n, moderators) == who then 1 else 0)
  }

  lemma NextTurn(n: nat, m: nat)
    requires m > 0
    ensures (n + 1) / m == n / m + (if n % m == m - 1 then 1 else 0)
    ensures (n + 1) % m == if n % m == m - 1 then 0 else n % m + 1
  {
    var q, r := n / m, n % m;
    assert n == q * m + r;
    if r == m - 1 {
      assert n + 1 == (q + 1) * m;
      Quotient(n + 1, m, q + 1, 0);
    } else {
      Quotient(n + 1, m, q, r + 1);
    }
  }

  /** Turns are even: loads differ by at most one, the first moderators having the larger ones. */
  lemma {:induction false} LoadIs(n: nat, moderators: nat, who: nat)
    requires 1 <= who <= moderators
    ensures Load(n, moderators, who) == n / moderators + (if who <= n % moderators then 1 else 0)
    decreases n
  {
    if n > 0 {
      LoadIs(n - 1, moderators, who);
      NextTurn(n - 1, moderators);
    }
  }

  lemma LoadsAreEven(n: nat, moderators: nat, who: nat, other: nat)
    requires 1 <= who <= moderators && 1 <= other <= moderators
    ensures Load(n, moderators, who) <= Load(n, moderators, other) + 1
  {
    LoadIs(n, moderators, who);
    LoadIs(n, moderators, other);
  }
}
