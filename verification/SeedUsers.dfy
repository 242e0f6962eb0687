/** The users the seeder writes, and when it can. */
module SeedUsers {
  import opened Arithmetic
  import opened Options
  import opened SeedNames

  /** The columns that no two users may share, the password, and the other columns the seeder writes. */
  datatype Profile = Profile(displayName: string, email: string, apiKey: string, password: string,
                             userType: string, moderatorStatus: string, balance: int, mustChangePassword: bool)

  /** `kept` stands for the columns the seeder never writes. */
  datatype User = User(profile: Profile, deleted: bool, kept: int)

  type Users = map<string, User>

  predicate Clash(p: Profile, q: Profile) {
    p.displayName == q.displayName || p.email == q.email || p.apiKey == q.apiKey
  }

  /** The unique columns of the table. */
  ghost predicate Unique(users: Users) {
    forall a, b :: a in users && b in users && a != b ==> !Clash(users[a].profile, users[b].profile)
  }

  predicate Conflicts(users: Users, name: string, p: Profile) {
    exists a :: a in users && a != name && Clash(users[a].profile, p)
  }

  /** `upsertUser`: update the row of that name, or create it; a deleted row still owns its name. */
  function UpsertUser(users: Users, name: string, p: Profile): Option<Users> {
    if Conflicts(users, name, p) || (name in users && users[name].deleted) then None
    else if name in users then Some(users[name := users[name].(profile := p)])
    else Some(users[name := User(p, false, 0)])
  }

  /** A user can be written exactly if its own row is not deleted and no other row, deleted or not, has its
      display name, its address or its key. */
  lemma WritableIff(users: Users, name: string, p: Profile)
    ensures UpsertUser(users, name, p).Some?
            <==> && (name in users ==> !users[name].deleted)
                 && forall a :: a in users && a != name ==>
                      && users[a].profile.displayName != p.displayName
                      && users[a].profile.email != p.email && users[a].profile.apiKey != p.apiKey
    ensures UpsertUser(users, name, p).Some? ==>
              var u := UpsertUser(users, name, p).value;
              && name in u && u[name].profile == p && !u[name].deleted
              && (name in users ==> u[name].kept == users[name].kept)
              && u.Keys == users.Keys + {name} && forall a :: a in users && a != name ==> u[a] == users[a]
  {
  }

  const USER_TITLE := "Load Test User "
  const MODERATOR_TITLE := "Load Test Moderator "
  const EMAIL_SUFFIX := "@example.loadtest.local"
  const API_KEY_PREFIX := "loadtest-api-key-"

  datatype Seed = Seed(name: string, profile: Profile)

  function SeedOf(prefix: string, display: string, userType: string, status: string, i: nat, hash: string,
                  balance: int): Seed {
    var name := Name(prefix, i);
    Seed(name, Profile(display + Decimal(i, 6), name + EMAIL_SUFFIX, API_KEY_PREFIX + name, hash,
                       userType, status, balance, false))
  }

  function UserSeed(cfg: Config, i: nat, hash: string): Seed {
    SeedOf(cfg.userPrefix, USER_TITLE, "REGULAR", "none", i, hash, cfg.balance)
  }

  function ModeratorSeed(cfg: Config, i: nat, hash: string): Seed {
    SeedOf(cfg.moderatorPrefix, MODERATOR_TITLE, "MODERATOR", "active", i, hash, cfg.balance)
  }

  /** All seeds in the order they are written: the users, then the moderators. */
  function Seeds(cfg: Config, hash: string): (r: seq<Seed>)
    ensures |r| == cfg.userCount + cfg.moderatorCount
  {
    seq(cfg.userCount, i requires 0 <= i < cfg.userCount => UserSeed(cfg, i + 1, hash))
    + seq(cfg.moderatorCount, i requires 0 <= i < cfg.moderatorCount => ModeratorSeed(cfg, i + 1, hash))
  }

  lemma SeedIs(cfg: Config, hash: string, i: nat)
    requires i < cfg.userCount + cfg.moderatorCount
    ensures var s := Seeds(cfg, hash)[i];
            && !s.profile.mustChangePassword
            && s == if i < cfg.userCount then UserSeed(cfg, i + 1, hash)
                    else ModeratorSeed(cfg, i - cfg.userCount + 1, hash)
  {
  }

  function UpsertAll(users: Users, seeds: seq<Seed>): Option<Users>
    decreases |seeds|
  {
    if seeds == [] then Some(users)
    else
      var before := UpsertAll(users, seeds[..|seeds| - 1]);
      if before.None? then None
      else UpsertUser(before.value, seeds[|seeds| - 1].name, seeds[|seeds| - 1].profile)
  }

  lemma UpsertAllMore(users: Users, seeds: seq<Seed>, s: Seed)
    ensures UpsertAll(users, seeds + [s]) == (match UpsertAll(users, seeds)
                                              case None => None
                                              case Some(u) => UpsertUser(u, s.name, s.profile))
  {
    assert (seeds + [s])[..|seeds + [s]| - 1] == seeds;
  }

  lemma {:induction false} UpsertAllKeepsUnique(users: Users, seeds: seq<Seed>)
    requires Unique(users)
    ensures UpsertAll(users, seeds).Some? ==> Unique(UpsertAll(users, seeds).value)
    decreases |seeds|
  {
    hide UpsertUser, Unique;
    if seeds != [] {
      var init, s := seeds[..|seeds| - 1], seeds[|seeds| - 1];
      UpsertAllKeepsUnique(users, init);
      if UpsertAll(users, init).Some? {
        UpsertKeepsUnique(UpsertAll(users, init).value, s.name, s.profile);
      }
    }
  }

  lemma UpsertKeepsUnique(users: Users, name: string, p: Profile)
    requires Unique(users)
    ensures UpsertUser(users, name, p).Some? ==> Unique(UpsertUser(users, name, p).value)
  {
    hide Clash;
    ClashIsMutual();
  }

  lemma ClashIsMutual()
    ensures forall p, q :: Clash(p, q) <==> Clash(q, p)
  {
  }

  ghost predicate DistinctNames(seeds: seq<Seed>) {
    forall i, j :: 0 <= i < j < |seeds| ==> seeds[i].name != seeds[j].name
  }

  /** Seeds with different names and nothing unique in common. */
  ghost predicate Apart(seeds: seq<Seed>) {
    DistinctNames(seeds) && forall i, j :: 0 <= i < j < |seeds| ==> !Clash(seeds[i].profile, seeds[j].profile)
  }

  /** Two seeds of either kind share nothing unique, and not their name. */
  lemma SeedsDiffer(s: Seed, p: string, d: string, i: nat, t: Seed, q: string, e: string, j: nat)
    requires IsSeed(s, p, d, i) && IsSeed(t, q, e, j) && i < 1_000_000 && j < 1_000_000
    requires (p != q || i != j) && (|d| != |e| || (d == e && i != j))
    ensures s.name != t.name && !Clash(s.profile, t.profile)
  {
    if s.name == t.name {
      NamesAreInjective(p, i, q, j);
    }
    if d == e && i != j && Decimal(i, 6) == Decimal(j, 6) {
      MillionIsSixDigits();
      DecimalIsInjective(i, j, 6);
    }
    hide Decimal, Name;
    Extended(s.name, t.name, EMAIL_SUFFIX);
    Prefixed(API_KEY_PREFIX, s.name, t.name);
    Prefixed(d, Decimal(i, 6), Decimal(j, 6));
  }

  predicate IsSeed(s: Seed, prefix: string, display: string, i: nat) {
    && s.name == Name(prefix, i) && s.profile.displayName == display + Decimal(i, 6)
    && s.profile.email == s.name + EMAIL_SUFFIX && s.profile.apiKey == API_KEY_PREFIX + s.name
  }

  lemma Extended(a: string, b: string, more: string)
    ensures a + more == b + more ==> a == b
  {
    assert (a + more)[..|a|] == a && (b + more)[..|b|] == b;
  }

  lemma Prefixed(before: string, a: string, b: string)
    ensures before + a == before + b ==> a == b
  {
    assert (before + a)[|before|..] == a && (before + b)[|before|..] == b;
  }

  lemma SeedsAreApart(cfg: Config, hash: string)
    requires cfg.Safe() && cfg.InBounds()
    ensures Apart(Seeds(cfg, hash))
  {
    var seeds := Seeds(cfg, hash);
    forall i, j | 0 <= i < j < |seeds|
      ensures seeds[i].name != seeds[j].name && !Clash(seeds[i].profile, seeds[j].profile)
    {
      hide *;
      SeedKind(cfg, hash, i);
      SeedKind(cfg, hash, j);
      TwoSeedsDiffer(cfg, i, j, seeds[i], seeds[j]);
    }
  }

  /** The `i`-th seed is a user, or a moderator with the number left. */
  predicate OfKind(cfg: Config, i: nat, s: Seed) {
    if i < cfg.userCount then IsSeed(s, cfg.userPrefix, USER_TITLE, i + 1)
    else IsSeed(s, cfg.moderatorPrefix, MODERATOR_TITLE, i - cfg.userCount + 1)
  }

  lemma SeedKind(cfg: Config, hash: string, i: nat)
    requires i < cfg.userCount + cfg.moderatorCount
    ensures OfKind(cfg, i, Seeds(cfg, hash)[i])
  {
    SeedIs(cfg, hash, i);
    hide Seeds, Decimal;
  }

  lemma TwoSeedsDiffer(cfg: Config, i: nat, j: nat, s: Seed, t: Seed)
    requires cfg.Safe() && cfg.InBounds() && i < j < cfg.userCount + cfg.moderatorCount
    requires OfKind(cfg, i, s) && OfKind(cfg, j, t)
    ensures s.name != t.name && !Clash(s.profile, t.profile)
  {
    hide IsSeed, Clash;
    var n := cfg.userCount;
    if j < n {
      SeedsDiffer(s, cfg.userPrefix, USER_TITLE, i + 1, t, cfg.userPrefix, USER_TITLE, j + 1);
    } else if i < n {
      SeedsDiffer(s, cfg.userPrefix, USER_TITLE, i + 1, t, cfg.moderatorPrefix, MODERATOR_TITLE, j - n + 1);
    } else {
      SeedsDiffer(s, cfg.moderatorPrefix, MODERATOR_TITLE, i - n + 1,
                  t, cfg.moderatorPrefix, MODERATOR_TITLE, j - n + 1);
    }
  }

  /** The row of a seed is there and holds it. */
  predicate Holds(users: Users, s: Seed) {
    s.name in users && !users[s.name].deleted && users[s.name].profile == s.profile
  }

  lemma {:induction false} UpsertAllHolds(users: Users, seeds: seq<Seed>)
    requires DistinctNames(seeds)
    ensures UpsertAll(users, seeds).Some? ==>
              forall i :: 0 <= i < |seeds| ==> Holds(UpsertAll(users, seeds).value, seeds[i])
    decreases |seeds|
  {
    if seeds != [] {
      UpsertAllHolds(users, seeds[..|seeds| - 1]);
    }
  }

  predicate Named(seeds: seq<Seed>, k: string) {
    exists i :: 0 <= i < |seeds| && seeds[i].name == k
  }

  lemma NamedMore(init: seq<Seed>, s: Seed, k: string)
    ensures Named(init + [s], k) <==> Named(init, k) || s.name == k
  {
    assert (init + [s])[|init|] == s;
    if Named(init, k) {
      var i :| 0 <= i < |init| && init[i].name == k;
      assert (init + [s])[i].name == k;
    }
  }

  // ---- when it can be done ----

  /** No row that is not itself written earlier has something unique of the seed. */
  ghost predicate NothingClashes(users: Users, earlier: seq<Seed>, s: Seed) {
    forall a :: a in users && a != s.name && !Named(earlier, a) ==> !Clash(users[a].profile, s.profile)
  }

  /** No seed's own row is deleted, and no row to be left or written later has something unique of a seed. */
  ghost predicate Free(users: Users, seeds: seq<Seed>) {
    && (forall i :: 0 <= i < |seeds| && seeds[i].name in users ==> !users[seeds[i].name].deleted)
    && (forall i :: 0 <= i < |seeds| ==> NothingClashes(users, seeds[..i], seeds[i]))
  }

  lemma FreeMore(users: Users, init: seq<Seed>, s: Seed)
    ensures Free(users, init + [s]) <==>
            && Free(users, init) && (s.name in users ==> !users[s.name].deleted) && NothingClashes(users, init, s)
  {
    var seeds := init + [s];
    hide NothingClashes;
    assert seeds[|init|] == s && seeds[..|init|] == init;
    assert forall i :: 0 <= i < |init| ==> seeds[i] == init[i] && seeds[..i] == init[..i];
  }

  /** The rows after some seeds: theirs, and the others as they were. */
  lemma {:induction false} OtherRows(users: Users, seeds: seq<Seed>, a: string)
    requires UpsertAll(users, seeds).Some? && !Named(seeds, a)
    ensures var u := UpsertAll(users, seeds).value; (a in u <==> a in users) && (a in u ==> u[a] == users[a])
    decreases |seeds|
  {
    if seeds != [] {
      var init, s := seeds[..|seeds| - 1], seeds[|seeds| - 1];
      assert seeds == init + [s];
      NamedMore(init, s, a);
      OtherRows(users, init, a);
    }
  }

  /** Before the last seed, its conflicts are those with rows no earlier seed has written. */
  lemma ConflictsAfter(users: Users, init: seq<Seed>, s: Seed)
    requires Apart(init + [s]) && UpsertAll(users, init).Some?
    ensures var u := UpsertAll(users, init).value;
            && (Conflicts(u, s.name, s.profile) <==> !NothingClashes(users, init, s))
            && (s.name in u <==> s.name in users) && (s.name in u ==> u[s.name] == users[s.name])
  {
    var u, seeds := UpsertAll(users, init).value, init + [s];
    assert seeds[|init|] == s && forall i :: 0 <= i < |init| ==> seeds[i] == init[i];
    assert !Named(init, s.name);
    OtherRows(users, init, s.name);
    assert DistinctNames(init);
    UpsertAllHolds(users, init);
    forall a | a in u && Named(init, a)
      ensures !Clash(u[a].profile, s.profile)
    {
      var i :| 0 <= i < |init| && init[i].name == a;
      assert Holds(u, init[i]) && !Clash(seeds[i].profile, s.profile);
    }
    forall a | !Named(init, a)
      ensures (a in u <==> a in users) && (a in u ==> u[a] == users[a])
    {
      OtherRows(users, init, a);
    }
    hide Clash, Named, UpsertAll;
  }

  /** Seeds with nothing unique in common can all be written exactly when the table is free for them. */
  lemma {:induction false} WritableIffFree(users: Users, seeds: seq<Seed>)
    requires Apart(seeds)
    ensures UpsertAll(users, seeds).Some? <==> Free(users, seeds)
    decreases |seeds|
  {
    if seeds != [] {
      var init, s := seeds[..|seeds| - 1], seeds[|seeds| - 1];
      assert seeds == init + [s];
      ApartLess(init, s);
      FreeMore(users, init, s);
      WritableIffFree(users, init);
      if UpsertAll(users, init).Some? {
        ConflictsAfter(users, init, s);
      }
      UpsertAllMore(users, init, s);
      hide Free, Apart, NothingClashes, Conflicts, UpsertAll;
    }
  }

  lemma ApartLess(init: seq<Seed>, s: Seed)
    requires Apart(init + [s])
    ensures Apart(init)
  {
    assert forall i :: 0 <= i < |init| ==> (init + [s])[i] == init[i];
  }

  /** Writing what is there already changes nothing, and nothing stands in its way. */
  lemma {:induction false} UpsertAgain(users: Users, seeds: seq<Seed>)
    requires Unique(users) && forall i :: 0 <= i < |seeds| ==> Holds(users, seeds[i])
    ensures UpsertAll(users, seeds) == Some(users)
    decreases |seeds|
  {
    if seeds != [] {
      UpsertAgain(users, seeds[..|seeds| - 1]);
      var s := seeds[|seeds| - 1];
      assert Holds(users, s);
      assert users[s.name := users[s.name].(profile := s.profile)] == users;
    }
  }

  function Rehash(seeds: seq<Seed>, hash: string): (r: seq<Seed>)
    ensures |r| == |seeds|
    ensures forall i :: 0 <= i < |seeds| ==> r[i] == Seed(seeds[i].name, seeds[i].profile.(password := hash))
  {
    seq(|seeds|, i requires 0 <= i < |seeds| => Seed(seeds[i].name, seeds[i].profile.(password := hash)))
  }

  function SetPassword(users: Users, seeds: seq<Seed>, hash: string): Users {
    map k | k in users ::
      if Named(seeds, k) then users[k].(profile := users[k].profile.(password := hash)) else users[k]
  }

  lemma HashKeepsConflicts(u: Users, seeds: seq<Seed>, name: string, p: Profile, hash: string)
    ensures Conflicts(SetPassword(u, seeds, hash), name, p.(password := hash)) <==> Conflicts(u, name, p)
  {
    var w := SetPassword(u, seeds, hash);
    forall a | a in u
      ensures Clash(w[a].profile, p.(password := hash)) <==> Clash(u[a].profile, p)
    {
    }
    hide Clash;
  }

  lemma HashAfterWrite(u: Users, init: seq<Seed>, s: Seed, v: User, hash: string)
    requires v.profile == s.profile
    ensures SetPassword(u[s.name := v], init + [s], hash)
            == SetPassword(u, init, hash)[s.name := v.(profile := s.profile.(password := hash))]
  {
    forall k | k in u || k == s.name
      ensures Named(init + [s], k) <==> Named(init, k) || s.name == k
    {
      NamedMore(init, s, k);
    }
    hide Named;
  }

  /** Another password hash changes the passwords and nothing else. */
  lemma {:induction false} HashDoesNotMatter(users: Users, seeds: seq<Seed>, hash: string)
    ensures UpsertAll(users, Rehash(seeds, hash)) == (match UpsertAll(users, seeds)
                                                      case None => None
                                                      case Some(u) => Some(SetPassword(u, seeds, hash)))
    decreases |seeds|
  {
    hide UpsertUser, SetPassword, Rehash;
    if seeds == [] {
      NothingHashed(users, hash);
    } else {
      var init, s := seeds[..|seeds| - 1], seeds[|seeds| - 1];
      HashDoesNotMatter(users, init, hash);
      assert seeds == init + [s];
      RehashMore(init, s, hash);
      UpsertAllMore(users, Rehash(init, hash), Seed(s.name, s.profile.(password := hash)));
      if UpsertAll(users, init).Some? {
        HashStep(UpsertAll(users, init).value, init, s, hash);
      }
    }
  }

  lemma NothingHashed(users: Users, hash: string)
    ensures Rehash([], hash) == [] && SetPassword(users, [], hash) == users && UpsertAll(users, []) == Some(users)
  {
  }

  lemma RehashMore(init: seq<Seed>, s: Seed, hash: string)
    ensures Rehash(init + [s], hash) == Rehash(init, hash) + [Seed(s.name, s.profile.(password := hash))]
  {
  }

  lemma HashStep(u: Users, init: seq<Seed>, s: Seed, hash: string)
    ensures UpsertUser(SetPassword(u, init, hash), s.name, s.profile.(password := hash))
            == (match UpsertUser(u, s.name, s.profile)
                case None => None
                case Some(v) => Some(SetPassword(v, init + [s], hash)))
  {
    var p := s.profile.(password := hash);
    HashKeepsConflicts(u, init, s.name, s.profile, hash);
    var written := if s.name in u then u[s.name].(profile := s.profile) else User(s.profile, false, 0);
    HashAfterWrite(u, init, s, written, hash);
    hide Conflicts, Named;
  }

  lemma SeedsRehash(cfg: Config, hash: string, other: string)
    ensures Seeds(cfg, other) == Rehash(Seeds(cfg, hash), other)
  {
  }

  lemma FreeWhateverTheHash(users: Users, seeds: seq<Seed>, hash: string)
    ensures Free(users, Rehash(seeds, hash)) <==> Free(users, seeds)
  {
    var rehashed := Rehash(seeds, hash);
    forall i | 0 <= i < |seeds|
      ensures NothingClashes(users, rehashed[..i], rehashed[i]) <==> NothingClashes(users, seeds[..i], seeds[i])
    {
      NamedRehash(seeds, i, hash);
    }
    hide NothingClashes;
  }

  lemma NamedRehash(seeds: seq<Seed>, i: nat, hash: string)
    requires i <= |seeds|
    ensures forall k :: Named(Rehash(seeds, hash)[..i], k) <==> Named(seeds[..i], k)
  {
    var rehashed := Rehash(seeds, hash);
    forall k
      ensures Named(rehashed[..i], k) <==> Named(seeds[..i], k)
    {
      if Named(seeds[..i], k) {
        var j :| 0 <= j < i && seeds[..i][j].name == k;
        assert rehashed[..i][j].name == k;
      }
    }
  }

  /** Whether the table is free for the fixtures, which their password hash does not decide. */
  ghost predicate FreeForFixtures(cfg: Config, users: Users) {
    Free(users, Seeds(cfg, ""))
  }

  /** The users can be seeded exactly when no fixture is soft-deleted and no other row holds a display
      name, address or key of theirs. */
  lemma UsersSeededIffFree(cfg: Config, users: Users, hash: string)
    requires cfg.Safe() && cfg.InBounds()
    ensures UpsertAll(users, Seeds(cfg, hash)).Some? <==> FreeForFixtures(cfg, users)
  {
    SeedsAreApart(cfg, hash);
    WritableIffFree(users, Seeds(cfg, hash));
    SeedsRehash(cfg, "", hash);
    FreeWhateverTheHash(users, Seeds(cfg, ""), hash);
    hide *;
  }

  /** Seeding users a second time gives exactly what one seeding with the second hash gives. */
  lemma UsersTwiceIsOnce(cfg: Config, users: Users, hash: string, other: string)
    requires cfg.Safe() && cfg.InBounds() && Unique(users) && FreeForFixtures(cfg, users)
    ensures UpsertAll(users, Seeds(cfg, hash)).Some?
    ensures var once := UpsertAll(users, Seeds(cfg, hash)).value;
            UpsertAll(once, Seeds(cfg, other)) == UpsertAll(users, Seeds(cfg, other))
  {
    var seeds := Seeds(cfg, hash);
    UsersSeededIffFree(cfg, users, hash);
    hide FreeForFixtures, Clash, UpsertAll;
    SeedsAreApart(cfg, hash);
    UpsertAllKeepsUnique(users, seeds);
    UpsertAllHolds(users, seeds);
    UpsertAgain(UpsertAll(users, seeds).value, seeds);
    HashDoesNotMatter(users, seeds, other);
    HashDoesNotMatter(UpsertAll(users, seeds).value, seeds, other);
    SeedsRehash(cfg, hash, other);
  }

  const DEFAULTS := Config(true, false, false, false, 10, 2, 5, 1, "loaduser", "loadmod", 17, 1_000_000)

  lemma FirstName()
    ensures Name("loaduser", 1) == "loaduser000001"
  {
    FirstNumber();
    hide Decimal;
    assert "loaduser" + "000001" == "loaduser000001";
  }

  /** The first of each kind, spelled out. */
  lemma FirstFixtures(hash: string)
    ensures Seeds(DEFAULTS, hash)[0]
            == Seed("loaduser000001",
                    Profile("Load Test User " + "000001", "loaduser000001" + "@example.loadtest.local",
                            "loadtest-api-key-" + "loaduser000001", hash, "REGULAR", "none", 1_000_000, false))
    ensures Seeds(DEFAULTS, hash)[10]
            == Seed("loadmod000001",
                    Profile("Load Test Moderator " + "000001", "loadmod000001" + "@example.loadtest.local",
                            "loadtest-api-key-" + "loadmod000001", hash, "MODERATOR", "active", 1_000_000, false))
  {
    FirstNumber();
    FirstName();
    SeedIs(DEFAULTS, hash, 0);
    SeedIs(DEFAULTS, hash, 10);
    hide Seeds, Decimal;
    assert "loadmod" + "000001" == "loadmod000001";
  }

  /** One soft-deleted fixture is enough to make seeding fail. */
  lemma DeletedFixtureBlocksSeeding(p: Profile, hash: string)
    ensures var users := map["loaduser000001" := User(p, true, 0)];
            DEFAULTS.Safe() && DEFAULTS.InBounds() && UpsertAll(users, Seeds(DEFAULTS, hash)).None?
  {
    var users := map["loaduser000001" := User(p, true, 0)];
    UsersSeededIffFree(DEFAULTS, users, hash);
    FirstName();
    SeedIs(DEFAULTS, "", 0);
    hide Seeds, NothingClashes;
    assert Seeds(DEFAULTS, "")[0].name in users;
  }
}
