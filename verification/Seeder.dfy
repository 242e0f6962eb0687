/** What the load-test seeder does to the database. */
module Seeder {
  import opened Options
  import opened SeedMarkets
  import opened SeedNames
  import opened SeedUsers

  datatype Bet = Bet(username: string, marketId: nat, amount: int)

  datatype Db = Db(users: Users, markets: Markets, bets: set<Bet>, nextId: nat)

  // ---- the whole ----

  ghost predicate Consistent(db: Db) {
    Unique(db.users) && forall id :: id in db.markets ==> id < db.nextId
  }

  /** Users, then markets; nothing when a row cannot be written. */
  function SeedAll(cfg: Config, db: Db, hash: string, resolution: int): Option<(Db, seq<nat>)>
    requires cfg.InBounds()
  {
    match UpsertAll(db.users, Seeds(cfg, hash))
    case None => None
    case Some(users) =>
      var b := UpsertMarkets(cfg, Board(db.markets, db.nextId, []), cfg.marketCount, resolution);
      Some((Db(users, b.markets, db.bets, b.nextId), b.ids))
  }

  /** Seeding succeeds, when the database refuses nothing else, exactly if no fixture is soft-deleted and
      no other user holds something unique of one. */
  lemma SeededIffFree(cfg: Config, db: Db, hash: string, resolution: int)
    requires cfg.Safe() && cfg.InBounds()
    ensures SeedAll(cfg, db, hash, resolution).Some? <==> FreeForFixtures(cfg, db.users)
  {
    UsersSeededIffFree(cfg, db.users, hash);
    hide Seeds, UpsertAll, UpsertMarkets, FreeForFixtures;
  }

  /** Seeding twice is seeding once, with the second password hash and time, and gives the same ids. */
  lemma SeedTwiceIsOnce(cfg: Config, db: Db, hash: string, resolution: int, hash': string, resolution': int)
    requires cfg.Safe() && cfg.InBounds() && Consistent(db) && FreeForFixtures(cfg, db.users)
    ensures SeedAll(cfg, db, hash, resolution).Some?
    ensures var (once, ids) := SeedAll(cfg, db, hash, resolution).value;
            var again := SeedAll(cfg, once, hash', resolution');
            again == SeedAll(cfg, db, hash', resolution') && again.Some? && again.value.1 == ids
  {
    var start := Board(db.markets, db.nextId, []);
    UsersTwiceIsOnce(cfg, db.users, hash, hash');
    UsersSeededIffFree(cfg, db.users, hash');
    hide Seeds, UpsertAll, UpsertMarkets, Unique, FreeForFixtures;
    MarketsTwiceIsOnce(cfg, start, cfg.marketCount, resolution, resolution');
    TimeDoesNotMatter(cfg, start, cfg.marketCount, resolution, resolution');
  }

  /** A live row with the balance asked for, the password hashed, and nothing to change at the first login. */
  predicate Ready(users: Users, name: string, userType: string, balance: int, hash: string) {
    && name in users && !users[name].deleted && users[name].profile.userType == userType
    && users[name].profile.balance == balance && users[name].profile.password == hash
    && !users[name].profile.mustChangePassword
  }

  /** Every fixture can log in and bet. */
  lemma FixturesAreReady(cfg: Config, db: Db, hash: string, resolution: int, i: nat)
    requires cfg.Safe() && cfg.InBounds() && FreeForFixtures(cfg, db.users) && 1 <= i
    ensures SeedAll(cfg, db, hash, resolution).Some?
    ensures var users := SeedAll(cfg, db, hash, resolution).value.0.users;
            && (i <= cfg.userCount ==> Ready(users, Name(cfg.userPrefix, i), "REGULAR", cfg.balance, hash))
            && (i <= cfg.moderatorCount ==> Ready(users, Name(cfg.moderatorPrefix, i), "MODERATOR", cfg.balance, hash))
  {
    hide Seeds, UpsertAll, UpsertMarkets, FreeForFixtures, Clash, Holds, Ready, Config.Safe;
    SeededIffFree(cfg, db, hash, resolution);
    SeedsAreApart(cfg, hash);
    UpsertAllHolds(db.users, Seeds(cfg, hash));
    var users := UpsertAll(db.users, Seeds(cfg, hash)).value;
    if i <= cfg.userCount {
      SeedIsReady(cfg, users, hash, i - 1);
    }
    if i <= cfg.moderatorCount {
      SeedIsReady(cfg, users, hash, cfg.userCount + i - 1);
    }
  }

  lemma SeedIsReady(cfg: Config, users: Users, hash: string, i: nat)
    requires i < cfg.userCount + cfg.moderatorCount && Holds(users, Seeds(cfg, hash)[i])
    ensures i < cfg.userCount ==> Ready(users, Name(cfg.userPrefix, i + 1), "REGULAR", cfg.balance, hash)
    ensures i >= cfg.userCount ==>
              Ready(users, Name(cfg.moderatorPrefix, i - cfg.userCount + 1), "MODERATOR", cfg.balance, hash)
  {
    SeedIs(cfg, hash, i);
    hide Seeds, Name, Decimal;
  }

  /** Every market whose id is returned has a creator with a live row, an active moderator. */
  lemma CreatorsAreActiveModerators(cfg: Config, db: Db, hash: string, resolution: int, i: nat)
    requires cfg.Safe() && cfg.InBounds() && Consistent(db) && FreeForFixtures(cfg, db.users) && i < cfg.marketCount
    ensures SeedAll(cfg, db, hash, resolution).Some?
    ensures var (after, ids) := SeedAll(cfg, db, hash, resolution).value;
            && |ids| == cfg.marketCount && ids[i] in after.markets
            && var creator := after.markets[ids[i]].creator;
            && creator in after.users && !after.users[creator].deleted
            && after.users[creator].profile.userType == "MODERATOR"
            && after.users[creator].profile.moderatorStatus == "active"
  {
    var seeds, b := Seeds(cfg, hash), Board(db.markets, db.nextId, []);
    var at := cfg.userCount + Turn(i + 1, cfg.moderatorCount) - 1;
    SeededIffFree(cfg, db, hash, resolution);
    SeedsAreApart(cfg, hash);
    UpsertAllHolds(db.users, seeds);
    SeedIs(cfg, hash, at);
    var users := UpsertAll(db.users, seeds).value;
    assert Holds(users, seeds[at]) && seeds[at].name == Creator(cfg, i + 1);
    hide Seeds, UpsertAll, UpsertMarkets, Name, Title, Clash, FreeForFixtures, Unique;
    UpsertMarketsShows(cfg, b, cfg.marketCount, resolution);
    var b' := UpsertMarkets(cfg, b, cfg.marketCount, resolution);
    assert Shows(b', Title(i + 1), Creator(cfg, i + 1), b'.ids[i], resolution);
  }

  /** Names the reset deletes. */
  predicate Fixture(cfg: Config, name: string) {
    Like(name, cfg.userPrefix + "%") || Like(name, cfg.moderatorPrefix + "%")
  }

  predicate FixtureMarket(cfg: Config, m: Market) {
    Like(m.creator, cfg.moderatorPrefix + "%")
  }

  predicate Kept(cfg: Config, markets: Markets, bet: Bet) {
    !(bet.marketId in markets && FixtureMarket(cfg, markets[bet.marketId])) && !Fixture(cfg, bet.username)
  }

  function KeptMarkets(cfg: Config, markets: Markets): Markets {
    map id | id in markets && !FixtureMarket(cfg, markets[id]) :: markets[id]
  }

  function KeptUsers(cfg: Config, users: Users): Users {
    map k | k in users && !Fixture(cfg, k) :: users[k]
  }

  /** `resetFixtures`. */
  function Reset(cfg: Config, db: Db): Db {
    Db(KeptUsers(cfg, db.users), KeptMarkets(cfg, db.markets), (set b | b in db.bets && Kept(cfg, db.markets, b)),
       db.nextId)
  }

  /** The reset takes exactly the users whose names start with one of the prefixes; the others stay as they are. */
  lemma ResetKeepsOtherUsers(cfg: Config, db: Db, k: string)
    requires cfg.Safe()
    ensures k in Reset(cfg, db).users
            <==> k in db.users && !(cfg.userPrefix <= k) && !(cfg.moderatorPrefix <= k)
    ensures k in Reset(cfg, db).users ==> Reset(cfg, db).users[k] == db.users[k]
  {
    LikePrefix(k, cfg.userPrefix);
    LikePrefix(k, cfg.moderatorPrefix);
    hide Like;
  }

  /** The markets whose creators' names start with the moderators' prefix. */
  lemma ResetKeepsOtherMarkets(cfg: Config, db: Db, id: nat)
    requires cfg.Safe()
    ensures id in Reset(cfg, db).markets <==> id in db.markets && !(cfg.moderatorPrefix <= db.markets[id].creator)
    ensures id in Reset(cfg, db).markets ==> Reset(cfg, db).markets[id] == db.markets[id]
  {
    if id in db.markets {
      LikePrefix(db.markets[id].creator, cfg.moderatorPrefix);
    }
    hide Like;
  }

  /** And the bets by those users or on those markets. */
  lemma ResetKeepsOtherBets(cfg: Config, db: Db, b: Bet)
    requires cfg.Safe()
    ensures b in Reset(cfg, db).bets
            <==> && b in db.bets && !(cfg.userPrefix <= b.username) && !(cfg.moderatorPrefix <= b.username)
                 && !(b.marketId in db.markets && cfg.moderatorPrefix <= db.markets[b.marketId].creator)
    ensures Reset(cfg, db).nextId == db.nextId
  {
    LikePrefix(b.username, cfg.userPrefix);
    LikePrefix(b.username, cfg.moderatorPrefix);
    if b.marketId in db.markets {
      LikePrefix(db.markets[b.marketId].creator, cfg.moderatorPrefix);
    }
    hide Like;
  }

  lemma SeededNamesAreFixtures(cfg: Config, i: nat)
    requires cfg.Safe()
    ensures Fixture(cfg, Name(cfg.userPrefix, i)) && Like(Name(cfg.moderatorPrefix, i), cfg.moderatorPrefix + "%")
  {
    LikePrefix(Name(cfg.userPrefix, i), cfg.userPrefix);
    LikePrefix(Name(cfg.moderatorPrefix, i), cfg.moderatorPrefix);
  }

  lemma {:induction false} UpsertAllKeepsOthers(cfg: Config, users: Users, seeds: seq<Seed>)
    requires UpsertAll(users, seeds).Some? && forall i :: 0 <= i < |seeds| ==> Fixture(cfg, seeds[i].name)
    ensures KeptUsers(cfg, UpsertAll(users, seeds).value) == KeptUsers(cfg, users)
    decreases |seeds|
  {
    if seeds != [] {
      UpsertAllKeepsOthers(cfg, users, seeds[..|seeds| - 1]);
      assert Fixture(cfg, seeds[|seeds| - 1].name);
      hide Fixture;
      assert forall k :: k in KeptUsers(cfg, users) <==> k in users && !Fixture(cfg, k);
    }
  }

  /** From one table to the next: what was there keeps its creator, and only fixtures change or are new. */
  ghost predicate OnlyFixtures(cfg: Config, m: Markets, n: nat, m': Markets, n': nat) {
    && n <= n'
    && (forall id :: id in m ==>
          id in m' && m'[id].creator == m[id].creator && (m'[id] == m[id] || FixtureMarket(cfg, m[id])))
    && (forall id :: id in m' && id !in m ==> FixtureMarket(cfg, m'[id]))
    && (forall id :: n <= id < n' ==> id in m' && id !in m)
    && (forall id :: id in m' && id !in m ==> n <= id < n')
  }

  lemma UpsertOnlyFixtures(cfg: Config, b: Board, title: string, creator: string, resolution: int)
    requires Sound(b) && Like(creator, cfg.moderatorPrefix + "%")
    ensures BoardFixtures(cfg, b, UpsertMarket(b, title, creator, resolution))
  {
    hide Like;
  }

  ghost predicate BoardFixtures(cfg: Config, b: Board, b': Board) {
    OnlyFixtures(cfg, b.markets, b.nextId, b'.markets, b'.nextId)
  }

  lemma FixturesThrough(cfg: Config, a: Board, b: Board, c: Board)
    requires Sound(a) && BoardFixtures(cfg, a, b) && BoardFixtures(cfg, b, c)
    ensures BoardFixtures(cfg, a, c)
  {
    hide Like;
  }

  lemma CreatorIsFixture(cfg: Config, n: nat)
    requires cfg.Safe() && cfg.moderatorCount > 0 && n > 0
    ensures Like(Creator(cfg, n), cfg.moderatorPrefix + "%")
  {
    hide Like;
    SeededNamesAreFixtures(cfg, Turn(n, cfg.moderatorCount));
  }

  lemma NothingChanged(cfg: Config, b: Board)
    ensures BoardFixtures(cfg, b, b)
  {
    hide FixtureMarket;
  }

  lemma OneMoreFixture(cfg: Config, b: Board, c: Board, n: nat, resolution: int)
    requires cfg.Safe() && cfg.moderatorCount > 0 && n > 0 && Sound(b) && Sound(c) && BoardFixtures(cfg, b, c)
    ensures BoardFixtures(cfg, b, UpsertMarket(c, Title(n), Creator(cfg, n), resolution))
  {
    hide *;
    CreatorIsFixture(cfg, n);
    UpsertOnlyFixtures(cfg, c, Title(n), Creator(cfg, n), resolution);
    FixturesThrough(cfg, b, c, UpsertMarket(c, Title(n), Creator(cfg, n), resolution));
  }

  lemma {:induction false} UpsertMarketsOnlyFixtures(cfg: Config, b: Board, n: nat, resolution: int)
    requires cfg.Safe() && cfg.moderatorCount > 0 && Sound(b) && b.ids == [] && n < 1_000_000
    ensures BoardFixtures(cfg, b, UpsertMarkets(cfg, b, n, resolution))
    decreases n
  {
    hide UpsertMarket, Title, Creator, Config.Safe, BoardFixtures, Sound, AllShown;
    if n == 0 {
      NothingChanged(cfg, b);
    } else {
      UpsertMarketsOnlyFixtures(cfg, b, n - 1, resolution);
      UpsertMarketsShows(cfg, b, n - 1, resolution);
      OneMoreFixture(cfg, b, UpsertMarkets(cfg, b, n - 1, resolution), n, resolution);
    }
  }

  lemma SeedsAreFixtures(cfg: Config, hash: string)
    requires cfg.Safe()
    ensures forall i :: 0 <= i < |Seeds(cfg, hash)| ==> Fixture(cfg, Seeds(cfg, hash)[i].name)
  {
    forall i | 0 <= i < |Seeds(cfg, hash)|
      ensures Fixture(cfg, Seeds(cfg, hash)[i].name)
    {
      SeededNamesAreFixtures(cfg, if i < cfg.userCount then i + 1 else i - cfg.userCount + 1);
    }
    hide Like;
  }

  /** The bets that point at an id which seeding is about to give out. */
  predicate LeftOver(cfg: Config, db: Db, bet: Bet)
    requires cfg.moderatorCount > 0
  {
    db.nextId <= bet.marketId < db.nextId + Missing(cfg, db.markets, db.nextId, cfg.marketCount)
  }

  /** Resetting after seeding is just resetting, up to the next id, exactly when every left-over bet is a
      fixture's own. */
  lemma ResetAfterSeed(cfg: Config, db: Db, hash: string, resolution: int)
    requires cfg.Safe() && cfg.InBounds() && Consistent(db) && FreeForFixtures(cfg, db.users)
    ensures SeedAll(cfg, db, hash, resolution).Some?
    ensures var after := SeedAll(cfg, db, hash, resolution).value.0;
            Reset(cfg, after).(nextId := db.nextId) == Reset(cfg, db)
            <==> forall b :: b in db.bets && LeftOver(cfg, db, b) ==> Fixture(cfg, b.username)
  {
    SeededIffFree(cfg, db, hash, resolution);
    SeedsAreFixtures(cfg, hash);
    hide Fixture, Like, Config.Safe, FreeForFixtures, Clash;
    UpsertAllKeepsOthers(cfg, db.users, Seeds(cfg, hash));
    var after := SeedAll(cfg, db, hash, resolution).value.0;
    var start := Board(db.markets, db.nextId, []);
    IdsGivenOut(cfg, start, cfg.marketCount, resolution);
    UpsertMarketsOnlyFixtures(cfg, start, cfg.marketCount, resolution);
    hide Seeds, UpsertAll, UpsertMarkets, KeptUsers, Unique, Missing;
    KeptMarketsSame(cfg, db.markets, db.nextId, after.markets, after.nextId);
    KeptBetsSame(cfg, db, after);
  }

  lemma KeptMarketsSame(cfg: Config, m: Markets, n: nat, m': Markets, n': nat)
    requires OnlyFixtures(cfg, m, n, m', n')
    ensures KeptMarkets(cfg, m') == KeptMarkets(cfg, m)
  {
    hide Like;
  }

  lemma KeptBetsSame(cfg: Config, db: Db, after: Db)
    requires after.bets == db.bets && OnlyFixtures(cfg, db.markets, db.nextId, after.markets, after.nextId)
    ensures Reset(cfg, after).bets == Reset(cfg, db).bets
            <==> forall b :: b in db.bets && db.nextId <= b.marketId < after.nextId ==> Fixture(cfg, b.username)
  {
    hide Like, Fixture;
    forall b | b in db.bets
      ensures Kept(cfg, after.markets, b) <==> Kept(cfg, db.markets, b) && !(db.nextId <= b.marketId < after.nextId)
    {
    }
    assert forall b :: b in Reset(cfg, db).bets <==> b in db.bets && Kept(cfg, db.markets, b);
    assert forall b :: b in Reset(cfg, after).bets <==> b in db.bets && Kept(cfg, after.markets, b);
  }

  /** In particular when every bet is on a market that exists. */
  lemma ResetAfterSeedWithForeignKeys(cfg: Config, db: Db, hash: string, resolution: int)
    requires cfg.Safe() && cfg.InBounds() && Consistent(db) && FreeForFixtures(cfg, db.users)
    requires forall b :: b in db.bets ==> b.marketId in db.markets
    ensures SeedAll(cfg, db, hash, resolution).Some?
    ensures var after := SeedAll(cfg, db, hash, resolution).value.0;
            Reset(cfg, after).(nextId := db.nextId) == Reset(cfg, db)
  {
    ResetAfterSeed(cfg, db, hash, resolution);
    hide *;
    NoneLeftOver(cfg, db);
  }

  lemma NoneLeftOver(cfg: Config, db: Db)
    requires cfg.moderatorCount > 0 && Consistent(db) && forall b :: b in db.bets ==> b.marketId in db.markets
    ensures forall b :: b in db.bets ==> !LeftOver(cfg, db, b)
  {
    hide Missing, Unique;
  }

  /** A bet left over on the first id to be given out: the reset after seeding removes it. */
  lemma LeftOverBetIsLost(hash: string, resolution: int)
    ensures DEFAULTS.Safe() && DEFAULTS.InBounds()
    ensures var db := Db(map[], map[], {Bet("alice", 0, 1)}, 0);
            && SeedAll(DEFAULTS, db, hash, resolution).Some?
            && Bet("alice", 0, 1) in Reset(DEFAULTS, db).bets
            && Reset(DEFAULTS, SeedAll(DEFAULTS, db, hash, resolution).value.0).(nextId := 0) != Reset(DEFAULTS, db)
  {
    var bet := Bet("alice", 0, 1);
    var db := Db(map[], map[], {bet}, 0);
    EmptyIsFree(DEFAULTS);
    MissingFromEmpty(DEFAULTS, DEFAULTS.marketCount);
    AliceIsNoFixture();
    hide Fixture, Like, Missing, FreeForFixtures, SeedAll, Config.Safe, KeptUsers, KeptMarkets;
    assert Kept(DEFAULTS, db.markets, bet) && bet in db.bets && LeftOver(DEFAULTS, db, bet);
    ResetAfterSeed(DEFAULTS, db, hash, resolution);
  }

  lemma AliceIsNoFixture()
    ensures DEFAULTS.Safe() && !Fixture(DEFAULTS, "alice")
  {
    hide Like;
    LikePrefix("alice", DEFAULTS.userPrefix);
    LikePrefix("alice", DEFAULTS.moderatorPrefix);
  }

  lemma EmptyIsFree(cfg: Config)
    ensures FreeForFixtures(cfg, map[])
  {
    hide Seeds;
  }

  lemma {:induction false} MissingFromEmpty(cfg: Config, n: nat)
    requires cfg.moderatorCount > 0
    ensures Missing(cfg, map[], 0, n) == n
    decreases n
  {
    if n > 0 {
      MissingFromEmpty(cfg, n - 1);
    }
  }

  lemma UpsertNoneAndAll(before: Users, seeds: seq<Seed>)
    ensures UpsertAll(before, seeds[..0]) == Some(before) && seeds[..|seeds|] == seeds
  {
  }

  lemma UpsertPrefix(before: Users, seeds: seq<Seed>, k: nat, u: Users, u': Users)
    requires k < |seeds| && UpsertAll(before, seeds[..k]) == Some(u)
    requires UpsertUser(u, seeds[k].name, seeds[k].profile) == Some(u')
    ensures UpsertAll(before, seeds[..k + 1]) == Some(u')
  {
    assert seeds[..k + 1] == seeds[..k] + [seeds[k]];
    UpsertAllMore(before, seeds[..k], seeds[k]);
  }

  /** A line of `markets.csv`. */
  datatype MarketLine = MarketLine(id: nat, kind: string)

  function MarketLines(ids: seq<nat>, hot: nat): (r: seq<MarketLine>)
    ensures |r| == |ids|
  {
    seq(|ids|, i requires 0 <= i < |ids| => MarketLine(ids[i], if i < hot then "hot" else "normal"))
  }

  function Hot(lines: seq<MarketLine>): nat {
    if lines == [] then 0 else Hot(lines[..|lines| - 1]) + (if lines[|lines| - 1].kind == "hot" then 1 else 0)
  }

  /** As many markets are marked hot as were asked for, each market of the table once. */
  lemma {:induction false} HotMarkets(ids: seq<nat>, hot: nat)
    ensures Hot(MarketLines(ids, hot)) == if hot <= |ids| then hot else |ids|
    ensures forall i :: 0 <= i < |ids| ==>
              MarketLines(ids, hot)[i].id == ids[i] && (MarketLines(ids, hot)[i].kind == "hot" <==> i < hot)
    decreases |ids|
  {
    if ids != [] {
      HotMarkets(ids[..|ids| - 1], hot);
      assert MarketLines(ids, hot)[..|ids| - 1] == MarketLines(ids[..|ids| - 1], hot);
    }
  }

  function Logins(cfg: Config): (r: seq<string>)
    ensures |r| == cfg.userCount
  {
    seq(cfg.userCount, i requires 0 <= i < cfg.userCount => Name(cfg.userPrefix, i + 1))
  }

  /** The users file names exactly the regular users seeded, in order. */
  lemma LoginsAreRegularUsers(cfg: Config, hash: string, i: nat)
    requires i < cfg.userCount
    ensures Logins(cfg)[i] == Seeds(cfg, hash)[i].name && Seeds(cfg, hash)[i].profile.userType == "REGULAR"
  {
    SeedIs(cfg, hash, i);
  }

  /** The fixture files: the lines handed to each CSV writer, without header and password. */
  class Fixtures {
    var logins: seq<string>
    var markets: seq<MarketLine>

    constructor ()
      ensures logins == [] && markets == []
    {
      logins, markets := [], [];
    }

    method WriteUsersCSV(cfg: Config) returns (ok: bool)
      modifies this`logins
      ensures ok ==> logins == Logins(cfg)
    {
      logins := [];
      for i := 1 to cfg.userCount + 1
        invariant |logins| == i - 1
        invariant forall j :: 0 <= j < i - 1 ==> logins[j] == Logins(cfg)[j]
      {
        hide Name;
        ok := *;
        if !ok {
          return;
        }
        logins := logins + [Name(cfg.userPrefix, i)];
      }
      ok := *;
    }

    method WriteMarketsCSV(cfg: Config, ids: seq<nat>) returns (ok: bool)
      modifies this`markets
      ensures ok ==> markets == MarketLines(ids, cfg.hotMarketCount)
    {
      markets := [];
      for i := 0 to |ids|
        invariant |markets| == i
        invariant forall j :: 0 <= j < i ==> markets[j] == MarketLines(ids, cfg.hotMarketCount)[j]
      {
        ok := *;
        if !ok {
          return;
        }
        markets := markets + [MarketLine(ids[i], if i < cfg.hotMarketCount then "hot" else "normal")];
      }
      ok := *;
    }
  }

  /** Unwritten is the case where the database was seeded and the files were not written. */
  datatype Result = Ok(ids: seq<nat>) | Refused | Failed | Unwritten(ids: seq<nat>)

  class Store {
    var users: Users
    var markets: Markets
    var bets: set<Bet>
    var nextId: nat

    function View(): Db
      reads this
    {
      Db(users, markets, bets, nextId)
    }

    /** Whether the database carries out a statement is not ours to say. */
    method Ask() returns (ok: bool) {
      ok := *;
    }

    method ResetFixtures(cfg: Config) returns (ok: bool)
      modifies this
      ensures ok ==> View() == Reset(cfg, old(View()))
      ensures nextId == old(nextId)
    {
      ok := Ask();
      if !ok {
        return;
      }
      bets := set b | b in bets && !(b.marketId in markets && FixtureMarket(cfg, markets[b.marketId]));
      ok := Ask();
      if !ok {
        return;
      }
      bets := set b | b in bets && !Fixture(cfg, b.username);
      ok := Ask();
      if !ok {
        return;
      }
      markets := KeptMarkets(cfg, markets);
      ok := Ask();
      if !ok {
        return;
      }
      users := KeptUsers(cfg, users);
      hide Like, Fixture, FixtureMarket;
      assert bets == Reset(cfg, old(View())).bets;
    }

    /** Look for the row, then create or update it; a clash with another row fails. */
    method UpsertUserRow(s: Seed) returns (ok: bool)
      requires !s.profile.mustChangePassword
      modifies this`users
      ensures ok ==> UpsertUser(old(users), s.name, s.profile) == Some(users)
    {
      ok := Ask();
      if !ok {
        return;
      }
      if s.name in users && !users[s.name].deleted {
        ok := Ask();
        ok := ok && !Conflicts(users, s.name, s.profile);
        if ok {
          users := users[s.name := users[s.name].(profile := s.profile)];
        }
      } else {
        ok := Ask();
        ok := ok && s.name !in users && !Conflicts(users, s.name, s.profile);
        if !ok {
          return;
        }
        ghost var before := users;
        users := users[s.name := User(s.profile.(mustChangePassword := true), false, 0)];
        ok := Ask();
        if ok {
          users := users[s.name := users[s.name].(profile := users[s.name].profile.(mustChangePassword := false))];
          assert users == before[s.name := User(s.profile, false, 0)];
        }
      }
    }

    method UpsertUserRows(cfg: Config, hash: string) returns (ok: bool)
      requires cfg.InBounds()
      modifies this`users
      ensures ok ==> UpsertAll(old(users), Seeds(cfg, hash)) == Some(users)
    {
      ghost var before, seeds := users, Seeds(cfg, hash);
      UpsertNoneAndAll(before, seeds);
      hide *;
      ok := true;
      for i := 1 to cfg.userCount + 1
        invariant UpsertAll(before, seeds[..i - 1]) == Some(users)
      {
        SeedIs(cfg, hash, i - 1);
        ghost var was := users;
        ok := UpsertUserRow(UserSeed(cfg, i, hash));
        if !ok {
          return;
        }
        UpsertPrefix(before, seeds, i - 1, was, users);
      }
      ghost var n := cfg.userCount;
      for i := 1 to cfg.moderatorCount + 1
        invariant UpsertAll(before, seeds[..n + i - 1]) == Some(users)
      {
        SeedIs(cfg, hash, n + i - 1);
        ghost var was := users;
        ok := UpsertUserRow(ModeratorSeed(cfg, i, hash));
        if !ok {
          return;
        }
        UpsertPrefix(before, seeds, n + i - 1, was, users);
      }
    }

    method UpsertMarketRows(cfg: Config, resolution: int) returns (ok: bool, ids: seq<nat>)
      requires cfg.InBounds()
      modifies this`markets, this`nextId
      ensures nextId >= old(nextId)
      ensures ok ==> UpsertMarkets(cfg, Board(old(markets), old(nextId), []), cfg.marketCount, resolution)
                     == Board(markets, nextId, ids)
    {
      ghost var start := Board(markets, nextId, []);
      ids := [];
      ok := true;
      for i := 1 to cfg.marketCount + 1
        invariant nextId >= old(nextId) && UpsertMarkets(cfg, start, i - 1, resolution) == Board(markets, nextId, ids)
      {
        hide Title, Creator;
        var title, creator := Title(i), Creator(cfg, i);
        ok := Ask();
        if !ok {
          return;
        }
        var found := Find(markets, title, creator, nextId);
        ok := Ask();
        if !ok {
          return;
        }
        if found.None? {
          markets := markets[nextId := Market(title, creator, resolution, true, false, 0)];
          ids := ids + [nextId];
          nextId := nextId + 1;
        } else {
          markets := markets[found.value := markets[found.value].(resolution := resolution, open := true)];
          ids := ids + [found.value];
        }
      }
    }

    /** One transaction: reset if asked to, users, markets. What fails is undone, ids given out aside;
        then the files, whose failure undoes nothing. */
    method Run(cfg: Config, hash: string, resolution: int, files: Fixtures) returns (r: Result)
      requires cfg.InBounds()
      modifies this, files
      ensures r.Refused? <==> !cfg.Safe()
      ensures r.Refused? ==> View() == old(View())
      ensures r.Failed? ==> View().(nextId := old(nextId)) == old(View()) && nextId >= old(nextId)
      ensures r.Ok? || r.Unwritten? ==>
                SeedAll(cfg, if cfg.reset then Reset(cfg, old(View())) else old(View()), hash, resolution)
                == Some((View(), r.ids))
      ensures r.Ok? ==> files.logins == Logins(cfg) && files.markets == MarketLines(r.ids, cfg.hotMarketCount)
    {
      if !cfg.Safe() {
        return Refused;
      }
      var done, ids := Transaction(cfg, hash, resolution);
      if !done {
        return Failed;
      }
      var ok := files.WriteUsersCSV(cfg);
      if ok {
        ok := files.WriteMarketsCSV(cfg, ids);
      }
      hide SeedAll, Reset;
      r := if ok then Ok(ids) else Unwritten(ids);
    }

    method Transaction(cfg: Config, hash: string, resolution: int) returns (ok: bool, ids: seq<nat>)
      requires cfg.InBounds()
      modifies this
      ensures !ok ==> View().(nextId := old(nextId)) == old(View()) && nextId >= old(nextId)
      ensures ok ==> SeedAll(cfg, if cfg.reset then Reset(cfg, old(View())) else old(View()), hash, resolution)
                     == Some((View(), ids))
    {
      var users0, markets0, bets0 := users, markets, bets;
      ok, ids := true, [];
      if cfg.reset {
        ok := ResetFixtures(cfg);
      }
      hide Reset, Seeds, UpsertAll, UpsertMarkets;
      if ok {
        ok := UpsertUserRows(cfg, hash);
      }
      if ok {
        ok, ids := UpsertMarketRows(cfg, resolution);
      }
      if !ok {
        users, markets, bets := users0, markets0, bets0;
      }
    }
  }
}
