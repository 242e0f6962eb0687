/** One process starting against the shared database: the migration runner, or the verifier that only
    looks, and the start-up around it. */
module StartupProcess {
  import opened StringOrder

  /** A registered `up` function, which may be nil. */
  datatype Up = Nil | Hook

  type Registry = map<string, Up>

  /** The table of applied migrations, and the history of `up` functions that succeeded. */
  datatype Db = Db(table: bool, rows: set<string>, ran: seq<string>)

  datatype Pc =
    | Begin
    | Prepared
    | Walk(at: nat, applied: set<string>)
    | Executed(at: nat, applied: set<string>)
    | Migrated
    | UsersSeeded
    | Started
    | Ready
    | Failed

  datatype Process = Process(writer: bool, registry: Registry, pc: Pc) {
    /** From the start to the end of `Run`. */
    predicate Migrating() {
      writer && (pc.Begin? || pc.Prepared? || pc.Walk? || pc.Executed?)
    }

    /** The registered ids in the order they are visited. */
    ghost function Ids(): seq<string> {
      Sorted(registry.Keys)
    }

    /** `up` has succeeded for this id and its row is not yet written. */
    ghost predicate Between(id: string) {
      pc.Executed? && pc.at < |Ids()| && Ids()[pc.at] == id
    }
  }

  /** One step of a process; `ok` says whether what it asks of the database or a hook succeeds. */
  ghost function Next(db: Db, p: Process, ok: bool): (Db, Process) {
    var failed := p.(pc := Failed);
    match p.pc
    case Begin =>
      if p.registry == map[] || !ok then (db, failed)
      else if p.writer then (db.(table := true), p.(pc := Prepared))
      else if db.table then (db, p.(pc := Prepared))
      else (db, failed)
    case Prepared =>
      if ok then (db, p.(pc := Walk(0, db.rows))) else (db, failed)
    case Walk(at, applied) =>
      if at >= |p.Ids()| then (db, p.(pc := if p.writer then Migrated else Started))
      else
        var id := p.Ids()[at];
        if id in applied then (db, p.(pc := Walk(at + 1, applied)))
        else if p.writer && p.registry[id] == Hook && ok then
          (db.(ran := db.ran + [id]), p.(pc := Executed(at, applied)))
        else (db, failed)
    case Executed(at, applied) =>
      if at < |p.Ids()| && ok && p.Ids()[at] !in db.rows then
        (db.(rows := db.rows + {p.Ids()[at]}), p.(pc := Walk(at + 1, applied)))
      else (db, failed)
    case Migrated => (db, p.(pc := if ok then UsersSeeded else Failed))
    case UsersSeeded => (db, p.(pc := if ok then Started else Failed))
    case Started => (db, p.(pc := Ready))
    case Ready => (db, p)
    case Failed => (db, p)
  }

  /** The first `n` ids of the process are recorded. */
  ghost predicate Past(db: Db, p: Process, n: nat) {
    n <= |p.Ids()| && forall i :: 0 <= i < n ==> p.Ids()[i] in db.rows
  }

  /** What a process knows of the database wherever it stands, whoever else is running. */
  ghost predicate Knows(db: Db, p: Process) {
    p.pc.Begin? || p.pc.Failed? ||
    (db.table && p.registry != map[] &&
     match p.pc
     case Prepared => true
     case Walk(at, applied) => Past(db, p, at) && applied <= db.rows
     case Executed(at, applied) =>
       p.writer && Past(db, p, at) && applied <= db.rows && at < |p.Ids()| && p.Ids()[at] in db.ran
     case _ => p.registry.Keys <= db.rows)
  }

  lemma NextKnows(db: Db, p: Process, ok: bool)
    requires Knows(db, p)
    ensures var (db', p') := Next(db, p, ok); Knows(db', p') && p'.registry == p.registry && p'.writer == p.writer
  {
    if p.pc.Walk? && p.pc.at == |p.Ids()| {
      forall x | x in p.registry.Keys
        ensures x in db.rows
      {
        assert x in p.Ids();
      }
    }
  }

  /** Others' steps only add to the database. */
  predicate Grows(db: Db, db': Db) {
    (db.table ==> db'.table) && db.rows <= db'.rows && db.ran <= db'.ran
  }

  lemma KnowsStill(db: Db, db': Db, p: Process)
    requires Knows(db, p) && Grows(db, db')
    ensures Knows(db', p)
  {
    if p.pc.Executed? {
      assert forall x :: x in db.ran ==> x in db'.ran;
    }
  }

  lemma NextGrows(db: Db, p: Process, ok: bool)
    ensures Grows(db, Next(db, p, ok).0)
  {
  }
}

/** Any number of writer and verifier processes, starting, stopping and starting again over one database. */
module StartupProtocol {
  import opened StringOrder
  import opened StartupProcess

  /** `stopped` lists, for every run that ended between an `up` and its row, the id it was at. */
  datatype System = System(db: Db, procs: map<nat, Process>, stopped: seq<string>)

  datatype Step =
    | Launch(pid: nat, writer: bool, registry: Registry)
    | Crash(pid: nat)
    | Advance(pid: nat, ok: bool)

  function Init(table: bool, rows: set<string>): System {
    System(Db(table, rows, []), map[], [])
  }

  ghost function StoppedAt(p: Process, p': Process): seq<string> {
    if p.pc.Executed? && p'.pc.Failed? && p.pc.at < |p.Ids()| then [p.Ids()[p.pc.at]] else []
  }

  /** A failed process has exited; its place may be taken again. */
  ghost function Apply(st: System, step: Step): System {
    match step
    case Launch(pid, writer, registry) =>
      if pid in st.procs && !st.procs[pid].pc.Failed? then st
      else st.(procs := st.procs[pid := Process(writer, registry, Begin)])
    case Crash(pid) =>
      if pid !in st.procs then st
      else
        var p' := st.procs[pid].(pc := Failed);
        st.(procs := st.procs[pid := p'], stopped := st.stopped + StoppedAt(st.procs[pid], p'))
    case Advance(pid, ok) =>
      if pid !in st.procs then st
      else
        var (db, p') := Next(st.db, st.procs[pid], ok);
        System(db, st.procs[pid := p'], st.stopped + StoppedAt(st.procs[pid], p'))
  }

  ghost function Run(st: System, steps: seq<Step>): System
    decreases steps
  {
    if steps == [] then st else Run(Apply(st, steps[0]), steps[1..])
  }

  // ---- whoever runs, and however they are interleaved ----

  ghost predicate Sound(st: System, before: set<string>) {
    && before <= st.db.rows
    && (forall x :: x in st.db.rows && x !in before ==> x in st.db.ran)
    && (forall i :: i in st.procs ==> Knows(st.db, st.procs[i]))
  }

  lemma StepSound(st: System, step: Step, before: set<string>)
    requires Sound(st, before)
    ensures Sound(Apply(st, step), before)
    ensures Grows(st.db, Apply(st, step).db)
  {
    if step.Advance? && step.pid in st.procs {
      var p := st.procs[step.pid];
      NextKnows(st.db, p, step.ok);
      NextGrows(st.db, p, step.ok);
      var db' := Next(st.db, p, step.ok).0;
      forall i | i in st.procs
        ensures Knows(db', st.procs[i])
      {
        KnowsStill(st.db, db', st.procs[i]);
      }
      forall x | x in db'.rows && x !in before
        ensures x in db'.ran
      {
        if x in st.db.rows {
          assert forall y :: y in st.db.ran ==> y in db'.ran;
        }
      }
    }
  }

  lemma {:induction false} RunSound(st: System, steps: seq<Step>, before: set<string>)
    requires Sound(st, before)
    ensures Sound(Run(st, steps), before)
    ensures Grows(st.db, Run(st, steps).db)
    decreases steps
  {
    if steps != [] {
      StepSound(st, steps[0], before);
      RunSound(Apply(st, steps[0]), steps[1..], before);
    }
  }

  /** A process that marks itself ready has every id of its own registry recorded, each executed
      before it was recorded unless it was there from the beginning, and nothing later undoes this. */
  lemma ReadyIsSafe(table: bool, before: set<string>, steps: seq<Step>, later: seq<Step>, pid: nat)
    ensures var st := Run(Init(table, before), steps);
            pid in st.procs && st.procs[pid].pc.Ready? ==>
              && st.procs[pid].registry.Keys <= st.db.rows
              && (forall x :: x in st.procs[pid].registry.Keys && x !in before ==> x in st.db.ran)
              && st.procs[pid].registry.Keys <= Run(st, later).db.rows
  {
    var st := Run(Init(table, before), steps);
    RunSound(Init(table, before), steps, before);
    RunSound(st, later, before);
  }

  // ---- one registry: the recorded ids are an initial segment ----

  predicate SameRegistry(steps: seq<Step>, registry: Registry) {
    forall i :: 0 <= i < |steps| && steps[i].Launch? ==> steps[i].registry == registry
  }

  /** Recorded is everything up to some point of the sorted ids, and nothing after it. */
  ghost predicate InitialSegment(rows: set<string>, ids: seq<string>) {
    && (forall x :: x in rows ==> x in ids)
    && (forall i, j :: 0 <= i < j < |ids| && ids[j] in rows ==> ids[i] in rows)
  }

  lemma StepSegment(st: System, step: Step, registry: Registry)
    requires Sound(st, {}) && InitialSegment(st.db.rows, Sorted(registry.Keys))
    requires forall i :: i in st.procs ==> st.procs[i].registry == registry
    requires step.Launch? ==> step.registry == registry
    ensures InitialSegment(Apply(st, step).db.rows, Sorted(registry.Keys))
    ensures forall i :: i in Apply(st, step).procs ==> Apply(st, step).procs[i].registry == registry
  {
    if step.Advance? && step.pid in st.procs {
      NextSegment(st.db, st.procs[step.pid], step.ok);
    }
    hide InitialSegment, Next, Sorted;
  }

  lemma NextSegment(db: Db, p: Process, ok: bool)
    requires Knows(db, p) && InitialSegment(db.rows, p.Ids())
    ensures InitialSegment(Next(db, p, ok).0.rows, p.Ids()) && Next(db, p, ok).1.registry == p.registry
  {
  }

  /** From an empty table, with one registry and any number of processes, the recorded ids are always
      an initial segment of the sorted ids. */
  lemma {:induction false} RecordedIsInitialSegment(st: System, steps: seq<Step>, registry: Registry)
    requires Sound(st, {}) && InitialSegment(st.db.rows, Sorted(registry.Keys))
    requires forall i :: i in st.procs ==> st.procs[i].registry == registry
    requires SameRegistry(steps, registry)
    ensures InitialSegment(Run(st, steps).db.rows, Sorted(registry.Keys))
    decreases steps
  {
    if steps != [] {
      StepSegment(st, steps[0], registry);
      StepSound(st, steps[0], {});
      RecordedIsInitialSegment(Apply(st, steps[0]), steps[1..], registry);
    }
  }

  lemma FromEmptyInitialSegment(table: bool, steps: seq<Step>, registry: Registry)
    requires SameRegistry(steps, registry)
    ensures InitialSegment(Run(Init(table, {}), steps).db.rows, Sorted(registry.Keys))
  {
    RecordedIsInitialSegment(Init(table, {}), steps, registry);
  }

  // ---- one writer at a time ----

  ghost predicate OneWriter(st: System) {
    forall i, j :: i in st.procs && j in st.procs && st.procs[i].Migrating() && st.procs[j].Migrating() ==> i == j
  }

  /** Never are two writers migrating at once; verifiers may be as many as they like. */
  ghost predicate OneWriterThroughout(st: System, steps: seq<Step>)
    decreases steps
  {
    OneWriter(st) && (steps == [] || OneWriterThroughout(Apply(st, steps[0]), steps[1..]))
  }

  /** A migrating writer's snapshot is still the truth about the ids ahead of it. */
  ghost predicate Current(db: Db, p: Process) {
    p.writer && (p.pc.Walk? || p.pc.Executed?) ==>
      && (forall i :: p.pc.at <= i < |p.Ids()| && p.Ids()[i] in db.rows ==> p.Ids()[i] in p.pc.applied)
      && (p.pc.Executed? && p.pc.at < |p.Ids()| ==> p.Ids()[p.pc.at] !in p.pc.applied)
  }

  ghost predicate InFlight(st: System, id: string) {
    exists i :: i in st.procs && st.procs[i].Between(id)
  }

  function Count(names: seq<string>, id: string): nat {
    if names == [] then 0 else (if names[0] == id then 1 else 0) + Count(names[1..], id)
  }

  lemma {:induction false} CountAppend(xs: seq<string>, ys: seq<string>, id: string)
    ensures Count(xs + ys, id) == Count(xs, id) + Count(ys, id)
  {
    if xs == [] {
      assert xs + ys == ys;
    } else {
      assert (xs + ys)[1..] == xs[1..] + ys;
      CountAppend(xs[1..], ys, id);
    }
  }

  function One(b: bool): nat {
    if b then 1 else 0
  }

  /** Every execution of an id is accounted for: it was recorded, or is about to be, or its run stopped. */
  ghost predicate Balanced(st: System, before: set<string>, id: string) {
    Count(st.db.ran, id) == One(id in st.db.rows && id !in before) + One(InFlight(st, id)) + Count(st.stopped, id)
  }

  ghost predicate Orderly(st: System, before: set<string>, id: string) {
    && Sound(st, before) && OneWriter(st) && Balanced(st, before, id)
    && (forall i :: i in st.procs ==> Current(st.db, st.procs[i]))
  }

  lemma StepCurrent(st: System, step: Step)
    requires OneWriter(st) && (forall i :: i in st.procs ==> Knows(st.db, st.procs[i]) && Current(st.db, st.procs[i]))
    ensures forall i :: i in Apply(st, step).procs ==> Current(Apply(st, step).db, Apply(st, step).procs[i])
  {
    if step.Advance? && step.pid in st.procs {
      NextCurrent(st.db, st.procs[step.pid], step.ok);
    }
  }

  lemma NextCurrent(db: Db, p: Process, ok: bool)
    requires Knows(db, p) && Current(db, p)
    ensures Current(Next(db, p, ok).0, Next(db, p, ok).1)
    ensures Next(db, p, ok).0.rows != db.rows ==> p.Migrating()
  {
  }

  /** Replacing a process that is not migrating, now or then, changes nobody's flight. */
  lemma FlightUnchanged(procs: map<nat, Process>, pid: nat, p': Process, id: string, st: System, st': System)
    requires st.procs == procs && st'.procs == procs[pid := p']
    requires !p'.Between(id) && (pid in procs ==> !procs[pid].Between(id))
    ensures InFlight(st', id) == InFlight(st, id)
  {
    if InFlight(st, id) {
      var i :| i in st.procs && st.procs[i].Between(id);
      assert i in st'.procs && st'.procs[i].Between(id);
    }
  }

  /** Replacing the one migrating process: the only flight is its own. */
  lemma FlightMoves(st: System, st': System, pid: nat, p': Process, id: string)
    requires OneWriter(st) && pid in st.procs && st.procs[pid].Migrating()
    requires forall i :: i in st.procs ==> Knows(st.db, st.procs[i])
    requires st'.procs == st.procs[pid := p']
    ensures InFlight(st, id) == st.procs[pid].Between(id)
    ensures InFlight(st', id) == p'.Between(id)
  {
    if p'.Between(id) {
      assert pid in st'.procs && st'.procs[pid].Between(id);
    }
  }

  /** One step of one process: an execution more is a flight more, a flight less is a row or a stop. */
  lemma NextBalanced(db: Db, p: Process, ok: bool, before: set<string>, id: string)
    requires Knows(db, p) && Current(db, p) && before <= db.rows
    ensures var (db', p') := Next(db, p, ok);
            Count(db'.ran, id) + One(id in db.rows && id !in before) + One(p.Between(id))
            == Count(db.ran, id) + One(id in db'.rows && id !in before) + One(p'.Between(id))
               + Count(StoppedAt(p, p'), id)
  {
    if p.pc.Walk? && p.pc.at < |p.Ids()| {
      CountAppend(db.ran, [p.Ids()[p.pc.at]], id);
    }
  }

  /** Who is not migrating runs nothing, now or after the step. */
  lemma Resting(db: Db, p: Process, ok: bool, id: string)
    requires Knows(db, p) && !p.Migrating()
    ensures !p.Between(id) && !Next(db, p, ok).1.Between(id)
  {
    hide Process.Ids;
  }

  lemma AdvanceBalanced(st: System, pid: nat, ok: bool, before: set<string>, id: string)
    requires Orderly(st, before, id) && pid in st.procs
    ensures Balanced(Apply(st, Advance(pid, ok)), before, id)
  {
    var st' := Apply(st, Advance(pid, ok));
    var p, p' := st.procs[pid], st'.procs[pid];
    assert Knows(st.db, p) && Current(st.db, p);
    assert st'.procs == st.procs[pid := p'] && st'.stopped == st.stopped + StoppedAt(p, p');
    assert st'.db == Next(st.db, p, ok).0 && p' == Next(st.db, p, ok).1;
    hide Apply, Knows, Next, StoppedAt, Process.Ids, Current, Count;
    if !p.Migrating() {
      Resting(st.db, p, ok, id);
    }
    hide Process.Between;
    CountAppend(st.stopped, StoppedAt(p, p'), id);
    NextBalanced(st.db, p, ok, before, id);
    if p.Migrating() {
      FlightMoves(st, st', pid, p', id);
    } else {
      FlightUnchanged(st.procs, pid, p', id, st, st');
    }
  }

  lemma StepBalanced(st: System, step: Step, before: set<string>, id: string)
    requires Orderly(st, before, id)
    ensures Balanced(Apply(st, step), before, id)
  {
    var st' := Apply(st, step);
    match step
    case Launch(pid, writer, registry) =>
      if st' != st {
        FlightUnchanged(st.procs, pid, st'.procs[pid], id, st, st');
      }
    case Crash(pid) =>
      if st' != st {
        var p, p' := st.procs[pid], st'.procs[pid];
        CountAppend(st.stopped, StoppedAt(p, p'), id);
        if p.Migrating() {
          FlightMoves(st, st', pid, p', id);
        } else {
          assert Knows(st.db, p);
          FlightUnchanged(st.procs, pid, p', id, st, st');
        }
      }
    case Advance(pid, ok) =>
      if pid in st.procs {
        AdvanceBalanced(st, pid, ok, before, id);
      }
  }

  lemma StepOrderly(st: System, step: Step, before: set<string>, id: string)
    requires Orderly(st, before, id) && OneWriter(Apply(st, step))
    ensures Orderly(Apply(st, step), before, id)
  {
    StepSound(st, step, before);
    StepCurrent(st, step);
    StepBalanced(st, step, before, id);
  }

  /** With one writer at a time, whatever stops and starts: each execution of an id is its one recorded
      one, the one in flight, or one whose run stopped before the row was written. */
  lemma {:induction false} ExecutionsAreAccountedFor(st: System, steps: seq<Step>, before: set<string>, id: string)
    requires Orderly(st, before, id) && OneWriterThroughout(st, steps)
    ensures Orderly(Run(st, steps), before, id)
    decreases steps
  {
    if steps != [] {
      assert OneWriter(Apply(st, steps[0]));
      StepOrderly(st, steps[0], before, id);
      ExecutionsAreAccountedFor(Apply(st, steps[0]), steps[1..], before, id);
    }
  }

  /** An id is executed at most once more than the number of runs that stopped between its `up` and its row. */
  lemma ExecutionBound(table: bool, before: set<string>, steps: seq<Step>, id: string)
    requires OneWriterThroughout(Init(table, before), steps)
    ensures var st := Run(Init(table, before), steps);
            Count(st.db.ran, id) <= 1 + Count(st.stopped, id)
  {
    ExecutionsAreAccountedFor(Init(table, before), steps, before, id);
    var st := Run(Init(table, before), steps);
    if InFlight(st, id) {
      var i :| i in st.procs && st.procs[i].Between(id);
      assert Current(st.db, st.procs[i]) && Knows(st.db, st.procs[i]);
    }
  }

  /** A recorded migration is never executed again. */
  lemma RecordedNeverReruns(table: bool, before: set<string>, steps: seq<Step>, step: Step, id: string)
    requires OneWriterThroughout(Init(table, before), steps)
    ensures var st := Run(Init(table, before), steps);
            id in st.db.rows ==> Count(Apply(st, step).db.ran, id) == Count(st.db.ran, id)
  {
    ExecutionsAreAccountedFor(Init(table, before), steps, before, id);
    var st := Run(Init(table, before), steps);
    if step.Advance? && step.pid in st.procs {
      var p := st.procs[step.pid];
      assert Current(st.db, p);
      if p.pc.Walk? && p.pc.at < |p.Ids()| {
        CountAppend(st.db.ran, [p.Ids()[p.pc.at]], id);
      }
    }
  }

  // ---- why one writer ----

  /** The state after a run from this table in which every process has the same registry. */
  ghost predicate Reachable(registry: Registry, table: bool, rows: set<string>, st: System) {
    exists steps :: SameRegistry(steps, registry) && Run(Init(table, rows), steps) == st
  }

  lemma {:induction false} RunLast(st: System, steps: seq<Step>, step: Step)
    ensures Run(st, steps + [step]) == Apply(Run(st, steps), step)
    decreases steps
  {
    if steps == [] {
      assert steps + [step] == [step];
    } else {
      assert (steps + [step])[1..] == steps[1..] + [step];
      RunLast(Apply(st, steps[0]), steps[1..], step);
    }
  }

  lemma Reach(registry: Registry, table: bool, rows: set<string>, st: System, step: Step, st': System)
    requires Reachable(registry, table, rows, st) && Apply(st, step) == st'
    requires step.Launch? ==> step.registry == registry
    ensures Reachable(registry, table, rows, st')
  {
    var steps :| SameRegistry(steps, registry) && Run(Init(table, rows), steps) == st;
    RunLast(Init(table, rows), steps, step);
    assert SameRegistry(steps + [step], registry);
  }

  /** The id at this place is the first one that the table lacks. */
  ghost predicate FirstMissingAt(registry: Registry, rows: set<string>, m: nat) {
    var ids := Sorted(registry.Keys);
    m < |ids| && ids[m] !in rows && forall j :: 0 <= j < m ==> ids[j] in rows
  }

  /** Nothing can ever be executed: the table is complete, or the first id it lacks has a nil hook. */
  ghost predicate Stuck(registry: Registry, rows: set<string>) {
    forall m: nat :: FirstMissingAt(registry, rows, m) ==> registry[Sorted(registry.Keys)[m]] == Nil
  }

  function Two(registry: Registry, db: Db, pc: Pc, pc': Pc): System {
    System(db, map[0 := Process(true, registry, pc), 1 := Process(true, registry, pc')], [])
  }

  lemma FirstMoves(registry: Registry, table: bool, rows: set<string>, db: Db, pc: Pc, other: Pc, db': Db, pc': Pc)
    requires Reachable(registry, table, rows, Two(registry, db, pc, other))
    requires Next(db, Process(true, registry, pc), true) == (db', Process(true, registry, pc')) && !pc'.Failed?
    ensures Reachable(registry, table, rows, Two(registry, db', pc', other))
  {
    hide Next, Reachable;
    Reach(registry, table, rows, Two(registry, db, pc, other), Advance(0, true), Two(registry, db', pc', other));
  }

  lemma SecondMoves(registry: Registry, table: bool, rows: set<string>, db: Db, pc: Pc, other: Pc, db': Db, other': Pc)
    requires Reachable(registry, table, rows, Two(registry, db, pc, other))
    requires Next(db, Process(true, registry, other), true) == (db', Process(true, registry, other')) && !other'.Failed?
    ensures Reachable(registry, table, rows, Two(registry, db', pc, other'))
  {
    hide Next, Reachable;
    Reach(registry, table, rows, Two(registry, db, pc, other), Advance(1, true), Two(registry, db', pc, other'));
  }

  lemma BothBegin(registry: Registry, table: bool, rows: set<string>)
    ensures Reachable(registry, table, rows, Two(registry, Db(table, rows, []), Begin, Begin))
  {
    var st := Init(table, rows);
    assert Run(st, []) == st && SameRegistry([], registry);
    var one := System(Db(table, rows, []), map[0 := Process(true, registry, Begin)], []);
    Reach(registry, table, rows, st, Launch(0, true, registry), one);
    Reach(registry, table, rows, one, Launch(1, true, registry), Two(registry, Db(table, rows, []), Begin, Begin));
  }

  /** Both writers have loaded the table before either executes anything. */
  lemma BothLoad(registry: Registry, table: bool, rows: set<string>)
    requires registry != map[]
    ensures Reachable(registry, table, rows, Two(registry, Db(true, rows, []), Walk(0, rows), Walk(0, rows)))
  {
    var fresh', made := Db(table, rows, []), Db(true, rows, []);
    BothBegin(registry, table, rows);
    hide Reachable;
    FirstMoves(registry, table, rows, fresh', Begin, Begin, made, Prepared);
    SecondMoves(registry, table, rows, made, Prepared, Begin, made, Prepared);
    FirstMoves(registry, table, rows, made, Prepared, Prepared, made, Walk(0, rows));
    SecondMoves(registry, table, rows, made, Walk(0, rows), Prepared, made, Walk(0, rows));
  }

  /** And have passed the ids that are recorded. */
  lemma {:induction false} BothWalk(registry: Registry, table: bool, rows: set<string>, m: nat)
    requires registry != map[] && m <= |Sorted(registry.Keys)|
    requires forall j :: 0 <= j < m ==> Sorted(registry.Keys)[j] in rows
    ensures Reachable(registry, table, rows, Two(registry, Db(true, rows, []), Walk(m, rows), Walk(m, rows)))
    decreases m
  {
    hide Reachable, Sorted;
    var made := Db(true, rows, []);
    if m == 0 {
      BothLoad(registry, table, rows);
    } else {
      BothWalk(registry, table, rows, m - 1);
      FirstMoves(registry, table, rows, made, Walk(m - 1, rows), Walk(m - 1, rows), made, Walk(m, rows));
      SecondMoves(registry, table, rows, made, Walk(m, rows), Walk(m - 1, rows), made, Walk(m, rows));
    }
  }

  /** One writer executes and records the first missing id. */
  lemma OneRecords(db: Db, p: Process, m: nat, id: string)
    requires p.writer && m < |p.Ids()| && id == p.Ids()[m]
    requires id in p.registry && p.registry[id] == Hook && id !in db.rows
    ensures var rows, ran := db.rows, db.ran + [id];
            && Next(db, p.(pc := Walk(m, rows)), true)
               == (Db(db.table, rows, ran), p.(pc := Executed(m, rows)))
            && Next(Db(db.table, rows, ran), p.(pc := Executed(m, rows)), true)
               == (Db(db.table, rows + {id}, ran), p.(pc := Walk(m + 1, rows)))
            && Next(Db(db.table, rows + {id}, ran), p.(pc := Walk(m, rows)), true).0.ran == ran + [id]
  {
    hide Sorted;
  }

  /** Two writers that both loaded the table: the second executes what the first has recorded. */
  lemma TwoWritersExecuteTwice(registry: Registry, table: bool, rows: set<string>, m: nat)
    returns (st: System, step: Step)
    requires FirstMissingAt(registry, rows, m) && registry[Sorted(registry.Keys)[m]] == Hook
    ensures Reachable(registry, table, rows, st)
    ensures var id := Sorted(registry.Keys)[m];
            id in st.db.rows && Count(Apply(st, step).db.ran, id) == Count(st.db.ran, id) + 1
  {
    SortedAt(registry.Keys, m);
    hide Reachable, Sorted;
    var id := Sorted(registry.Keys)[m];
    var made, ran, done := Db(true, rows, []), Db(true, rows, [id]), Db(true, rows + {id}, [id]);
    OneRecords(made, Process(true, registry, Begin), m, id);
    assert made.ran + [id] == [id];
    BothWalk(registry, table, rows, m);
    FirstMoves(registry, table, rows, made, Walk(m, rows), Walk(m, rows), ran, Executed(m, rows));
    FirstMoves(registry, table, rows, ran, Executed(m, rows), Walk(m, rows), done, Walk(m + 1, rows));
    st, step := Two(registry, done, Walk(m + 1, rows), Walk(m, rows)), Advance(1, true);
    assert Apply(st, step).db.ran == [id] + [id];
    CountAppend([id], [id], id);
  }

  /** Nothing has been executed, and every process that has loaded the table waits at a recorded id or at
      the first missing one. */
  ghost predicate Idling(registry: Registry, rows: set<string>, st: System) {
    && st.db.rows == rows && st.db.ran == []
    && forall i :: i in st.procs ==> IdlingAt(registry, rows, st.procs[i])
  }

  ghost predicate IdlingAt(registry: Registry, rows: set<string>, p: Process) {
    && p.registry == registry && !p.pc.Executed?
    && (p.pc.Walk? ==> p.pc.applied == rows && p.pc.at <= |p.Ids()|
                       && forall j :: 0 <= j < p.pc.at ==> p.Ids()[j] in rows)
  }

  lemma NextIdles(registry: Registry, rows: set<string>, db: Db, p: Process, ok: bool)
    requires Stuck(registry, rows) && IdlingAt(registry, rows, p) && db.rows == rows && db.ran == []
    ensures var (db', p') := Next(db, p, ok); db'.rows == rows && db'.ran == [] && IdlingAt(registry, rows, p')
  {
    hide Sorted;
    if p.pc.Walk? && p.pc.at < |p.Ids()| && p.Ids()[p.pc.at] !in rows {
      assert FirstMissingAt(registry, rows, p.pc.at);
    }
  }

  lemma StepIdles(registry: Registry, rows: set<string>, st: System, step: Step)
    requires Stuck(registry, rows) && Idling(registry, rows, st) && (step.Launch? ==> step.registry == registry)
    ensures Idling(registry, rows, Apply(st, step))
  {
    hide Stuck, Next, Sorted;
    if step.Advance? && step.pid in st.procs {
      NextIdles(registry, rows, st.db, st.procs[step.pid], step.ok);
    }
  }

  lemma {:induction false} RunIdles(registry: Registry, rows: set<string>, st: System, steps: seq<Step>)
    requires Stuck(registry, rows) && Idling(registry, rows, st) && SameRegistry(steps, registry)
    ensures Idling(registry, rows, Run(st, steps))
    decreases steps
  {
    hide Stuck, Idling;
    if steps != [] {
      StepIdles(registry, rows, st, steps[0]);
      RunIdles(registry, rows, Apply(st, steps[0]), steps[1..]);
    }
  }

  /** This step does not execute the id if it is recorded. */
  ghost predicate NoRerun(st: System, step: Step, id: string) {
    id in st.db.rows ==> Count(Apply(st, step).db.ran, id) == Count(st.db.ran, id)
  }

  lemma IdlingNeverReruns(registry: Registry, rows: set<string>, st: System, step: Step, id: string)
    requires Stuck(registry, rows) && Idling(registry, rows, st)
    ensures NoRerun(st, step, id)
  {
    if step.Advance? {
      StepIdles(registry, rows, st, step);
    }
    hide Stuck, Next, Count;
  }

  /** Any number of writers, all with one registry: no recorded id is ever executed again exactly when
      nothing can be executed at all. */
  lemma ManyWritersNeverRerunIffStuck(registry: Registry, table: bool, rows: set<string>)
    ensures (forall st, step, id :: Reachable(registry, table, rows, st) ==> NoRerun(st, step, id))
            <==> Stuck(registry, rows)
  {
    hide NoRerun, Idling;
    if Stuck(registry, rows) {
      forall st, step, id | Reachable(registry, table, rows, st)
        ensures NoRerun(st, step, id)
      {
        var steps :| SameRegistry(steps, registry) && Run(Init(table, rows), steps) == st;
        InitIdles(registry, table, rows);
        RunIdles(registry, rows, Init(table, rows), steps);
        IdlingNeverReruns(registry, rows, st, step, id);
      }
    } else {
      var m: nat :| FirstMissingAt(registry, rows, m) && registry[Sorted(registry.Keys)[m]] != Nil;
      var st, step := TwoWritersExecuteTwice(registry, table, rows, m);
      Rerun(st, step, Sorted(registry.Keys)[m]);
    }
  }

  lemma Rerun(st: System, step: Step, id: string)
    requires id in st.db.rows && Count(Apply(st, step).db.ran, id) == Count(st.db.ran, id) + 1
    ensures !NoRerun(st, step, id)
  {
  }

  lemma InitIdles(registry: Registry, table: bool, rows: set<string>)
    ensures Idling(registry, rows, Init(table, rows))
  {
  }

  /** From an empty table: exactly the empty registry and those whose least id has a nil hook. */
  lemma StuckWhenEmpty(registry: Registry)
    ensures Stuck(registry, {}) <==> registry == map[] || registry[Sorted(registry.Keys)[0]] == Nil
  {
    hide Sorted;
    if registry == map[] {
      if m: nat :| FirstMissingAt(registry, {}, m) {
        SortedAt(registry.Keys, m);
        assert false;
      }
    } else {
      var x :| x in registry.Keys;
      assert x in Sorted(registry.Keys);
      assert FirstMissingAt(registry, {}, 0);
    }
  }
}

/** The package itself: a registry, the runner and the verifier, over a database that may refuse. */
module Migration {
  import opened StringOrder
  import opened StartupProcess

  datatype Error =
    | NoMigrations
    | TableNotCreated
    | TableMissing
    | NotLoaded
    | NilUp(id: string)
    | UpFailed(id: string)
    | NotRecorded(id: string)
    | NotApplied(id: string)
    | SeedFailed
    | HooksMissing

  datatype Result = Ok | Err(error: Error)

  /** What each call does if it succeeds; whether it does is not ours to say. */
  class Database {
    var table: bool
    var rows: set<string>
    ghost var ran: seq<string>

    ghost function View(): Db
      reads this
    {
      Db(table, rows, ran)
    }

    method AutoMigrate() returns (ok: bool)
      modifies this
      ensures View() == if ok then old(View()).(table := true) else old(View())
    {
      ok := *;
      if ok {
        table := true;
      }
    }

    method HasTable() returns (ok: bool)
      ensures ok ==> table
    {
      ok := *;
      ok := ok && table;
    }

    method Find() returns (ok: bool, found: set<string>)
      ensures ok ==> found == rows
    {
      ok := *;
      found := rows;
    }

    /** Call a registered hook. */
    method CallUp(id: string) returns (ok: bool)
      modifies this
      ensures View() == if ok then old(View()).(ran := old(ran) + [id]) else old(View())
    {
      ok := *;
      if ok {
        ran := ran + [id];
      }
    }

    /** Insert a row; the id is the primary key. */
    method Create(id: string) returns (ok: bool)
      modifies this
      ensures ok ==> id !in old(rows)
      ensures View() == if ok then old(View()).(rows := old(rows) + {id}) else old(View())
    {
      ok := *;
      ok := ok && id !in rows;
      if ok {
        rows := rows + {id};
      }
    }
  }

  /** A process taken through a list of outcomes. */
  ghost function Steps(db: Db, p: Process, outcomes: seq<bool>): (Db, Process) {
    if outcomes == [] then (db, p)
    else
      var (db', p') := Steps(db, p, outcomes[..|outcomes| - 1]);
      Next(db', p', outcomes[|outcomes| - 1])
  }

  lemma StepsMore(db: Db, p: Process, outcomes: seq<bool>, ok: bool)
    ensures Steps(db, p, outcomes + [ok])
            == Next(Steps(db, p, outcomes).0, Steps(db, p, outcomes).1, ok)
  {
    assert (outcomes + [ok])[..|outcomes + [ok]| - 1] == outcomes;
  }

  /** A process of this registry, started on `db` and taken through the outcomes, ends here. */
  ghost predicate Takes(registry: Registry, writer: bool, db: Db, trace: seq<bool>, db': Db, pc: Pc) {
    Steps(db, Process(writer, registry, Begin), trace) == (db', Process(writer, registry, pc))
  }

  lemma TakesMore(registry: Registry, writer: bool, db: Db, trace: seq<bool>, mid: Db, pc: Pc, ok: bool,
                  db': Db, pc': Pc)
    requires Takes(registry, writer, db, trace, mid, pc)
    requires Next(mid, Process(writer, registry, pc), ok) == (db', Process(writer, registry, pc'))
    ensures Takes(registry, writer, db, trace + [ok], db', pc')
  {
    StepsMore(db, Process(writer, registry, Begin), trace, ok);
  }

  /** Refused at once. */
  lemma TakesNothing(registry: Registry, writer: bool, db: Db)
    requires registry == map[]
    ensures Takes(registry, writer, db, [false], db, Failed)
  {
    assert [false][..0] == [];
  }

  /** The table is made, or found, and the rows are loaded. */
  lemma TakesLoad(registry: Registry, writer: bool, db: Db, prepared: bool, db': Db, loaded: bool)
    requires registry != map[]
    requires prepared ==> db' == (if writer then db.(table := true) else db) && (!writer ==> db.table)
    requires !prepared ==> db' == db
    ensures !prepared ==> Takes(registry, writer, db, [false], db', Failed)
    ensures prepared && !loaded ==> Takes(registry, writer, db, [true, false], db', Failed)
    ensures prepared && loaded ==> Takes(registry, writer, db, [true, true], db', Walk(0, db'.rows))
  {
    assert Takes(registry, writer, db, [], db, Begin);
    TakesMore(registry, writer, db, [], db, Begin, prepared, db', if prepared then Prepared else Failed);
    assert [] + [prepared] == [prepared];
    if prepared {
      TakesMore(registry, writer, db, [true], db', Prepared, loaded, db', if loaded then Walk(0, db'.rows) else Failed);
      assert [true] + [loaded] == [true, loaded];
    }
  }

  lemma TakesSkip(registry: Registry, writer: bool, db: Db, trace: seq<bool>, mid: Db, i: nat, applied: set<string>)
    requires Takes(registry, writer, db, trace, mid, Walk(i, applied))
    requires i < |Sorted(registry.Keys)| && Sorted(registry.Keys)[i] in applied
    ensures Takes(registry, writer, db, trace + [true], mid, Walk(i + 1, applied))
  {
    TakesMore(registry, writer, db, trace, mid, Walk(i, applied), true, mid, Walk(i + 1, applied));
  }

  lemma TakesMissing(registry: Registry, writer: bool, db: Db, trace: seq<bool>, mid: Db, i: nat, applied: set<string>)
    requires Takes(registry, writer, db, trace, mid, Walk(i, applied))
    requires i < |Sorted(registry.Keys)| && Sorted(registry.Keys)[i] !in applied
    ensures Takes(registry, writer, db, trace + [false], mid, Failed)
  {
    TakesMore(registry, writer, db, trace, mid, Walk(i, applied), false, mid, Failed);
  }

  lemma TakesApply(registry: Registry, db: Db, trace: seq<bool>, mid: Db, i: nat, applied: set<string>,
                   ok: bool, db': Db)
    requires Takes(registry, true, db, trace, mid, Walk(i, applied))
    requires i < |Sorted(registry.Keys)| && Sorted(registry.Keys)[i] !in applied
    requires registry[Sorted(registry.Keys)[i]] == Hook && (ok ==> Sorted(registry.Keys)[i] !in mid.rows)
    requires var id := Sorted(registry.Keys)[i];
             db' == Db(mid.table, if ok then mid.rows + {id} else mid.rows, mid.ran + [id])
    ensures Takes(registry, true, db, trace + [true] + [ok], db', if ok then Walk(i + 1, applied) else Failed)
  {
    var done := mid.(ran := mid.ran + [Sorted(registry.Keys)[i]]);
    TakesMore(registry, true, db, trace, mid, Walk(i, applied), true, done, Executed(i, applied));
    TakesMore(registry, true, db, trace + [true], done, Executed(i, applied), ok,
              db', if ok then Walk(i + 1, applied) else Failed);
  }

  lemma TakesEnd(registry: Registry, writer: bool, db: Db, trace: seq<bool>, mid: Db, applied: set<string>)
    requires Takes(registry, writer, db, trace, mid, Walk(|Sorted(registry.Keys)|, applied))
    ensures Takes(registry, writer, db, trace + [true], mid, if writer then Migrated else Started)
  {
    TakesMore(registry, writer, db, trace, mid, Walk(|Sorted(registry.Keys)|, applied), true, mid,
              if writer then Migrated else Started);
  }

  /** The ids of a list that are not yet applied, in order. */
  function Pending(ids: seq<string>, applied: set<string>): seq<string> {
    if ids == [] then []
    else Pending(ids[..|ids| - 1], applied) + (if ids[|ids| - 1] in applied then [] else [ids[|ids| - 1]])
  }

  lemma {:induction false} PendingOf(ids: seq<string>, applied: set<string>)
    requires Increasing(ids)
    ensures Increasing(Pending(ids, applied))
    ensures forall x :: x in Pending(ids, applied) <==> x in ids && x !in applied
  {
    hide AtOrBefore;
    if ids != [] {
      var n := |ids| - 1;
      var init, last := ids[..n], ids[n];
      PendingOf(init, applied);
      assert forall x :: x in init ==> exists j :: 0 <= j < n && ids[j] == x;
      assert forall x :: x in ids <==> x in init || x == last;
      LastIsGreatest(Pending(init, applied), last);
    }
  }

  lemma LastIsGreatest(names: seq<string>, last: string)
    requires Increasing(names) && forall x :: x in names ==> AtOrBefore(x, last) && x != last
    ensures Increasing(names + [last])
  {
    hide AtOrBefore;
    assert forall i :: 0 <= i < |names| ==> names[i] in names;
  }

  /** What `Run` executes: the ids without a row, from the first in order to the last. */
  lemma PendingIsSorted(all: set<string>, applied: set<string>)
    ensures Pending(Sorted(all), applied) == Sorted(all - applied)
  {
    PendingOf(Sorted(all), applied);
    OneIncreasingList(Pending(Sorted(all), applied), Sorted(all - applied));
  }

  lemma TakesSeed(registry: Registry, db: Db, trace: seq<bool>, mid: Db, pc: Pc, ok: bool)
    requires Takes(registry, true, db, trace, mid, pc) && (pc.Migrated? || pc.UsersSeeded?)
    ensures Takes(registry, true, db, trace + [ok], mid,
                  if !ok then Failed else if pc.Migrated? then UsersSeeded else Started)
  {
    TakesMore(registry, true, db, trace, mid, pc, ok, mid,
              if !ok then Failed else if pc.Migrated? then UsersSeeded else Started);
  }

  lemma TakesReady(registry: Registry, writer: bool, db: Db, trace: seq<bool>, mid: Db)
    requires Takes(registry, writer, db, trace, mid, Started)
    ensures Takes(registry, writer, db, trace + [true], mid, Ready)
  {
    TakesMore(registry, writer, db, trace, mid, Started, true, mid, Ready);
  }

  lemma {:induction false} StepsKnow(db: Db, p: Process, outcomes: seq<bool>)
    requires Knows(db, p)
    ensures var (db', p') := Steps(db, p, outcomes);
            Knows(db', p') && p'.registry == p.registry && p'.writer == p.writer
  {
    if outcomes != [] {
      var less := outcomes[..|outcomes| - 1];
      StepsKnow(db, p, less);
      NextKnows(Steps(db, p, less).0, Steps(db, p, less).1, outcomes[|outcomes| - 1]);
    }
  }

  /** A run that ends well leaves nothing for the verifier to miss: unless the database refuses it
      something, verification after it succeeds. */
  lemma RunMakesVerifySucceed(registry: Registry, db: Db, trace: seq<bool>, db': Db)
    requires Takes(registry, true, db, trace, db', Migrated)
    ensures Takes(registry, false, db', AllTrue(|Sorted(registry.Keys)| + 3), db', Started)
  {
    StepsKnow(db, Process(true, registry, Begin), trace);
    TakesLoad(registry, false, db', true, db', true);
    var n := |Sorted(registry.Keys)|;
    VerifyWalks(registry, db', n);
    TakesEnd(registry, false, db', AllTrue(n + 2), db', db'.rows);
    assert AllTrue(n + 2) + [true] == AllTrue(n + 3);
  }

  function AllTrue(n: nat): (r: seq<bool>) {
    seq(n, _ => true)
  }

  lemma {:induction false} VerifyWalks(registry: Registry, db: Db, i: nat)
    requires registry != map[] && db.table && registry.Keys <= db.rows && i <= |Sorted(registry.Keys)|
    ensures Takes(registry, false, db, AllTrue(i + 2), db, Walk(i, db.rows))
  {
    AllTrueMore(i + 1);
    hide Takes, AllTrue;
    if i == 0 {
      TakesLoad(registry, false, db, true, db, true);
    } else {
      VerifyWalks(registry, db, i - 1);
      SortedAt(registry.Keys, i - 1);
      hide Sorted;
      TakesSkip(registry, false, db, AllTrue(i + 1), db, i - 1, db.rows);
    }
  }

  lemma AllTrueMore(n: nat)
    ensures AllTrue(n) + [true] == AllTrue(n + 1) && AllTrue(2) == [true, true]
  {
  }

  /** Nothing is left for a run over a database that has every id recorded. */
  ghost predicate Idle(p: Process) {
    !p.pc.Executed? && (p.pc.Walk? ==> p.registry.Keys <= p.pc.applied)
  }

  /** A second run, whatever it meets, executes nothing and records nothing. */
  lemma {:induction false} SecondRunChangesNothing(db: Db, p: Process, outcomes: seq<bool>)
    requires p.registry.Keys <= db.rows && Idle(p)
    ensures var (db', p') := Steps(db, p, outcomes);
            db'.rows == db.rows && db'.ran == db.ran && Idle(p') && p'.registry == p.registry
  {
    if outcomes != [] {
      var less := outcomes[..|outcomes| - 1];
      SecondRunChangesNothing(db, p, less);
      NextIdle(Steps(db, p, less).0, Steps(db, p, less).1, outcomes[|outcomes| - 1]);
    }
  }

  lemma NextIdle(db: Db, p: Process, ok: bool)
    requires p.registry.Keys <= db.rows && Idle(p)
    ensures var (db', p') := Next(db, p, ok);
            db'.rows == db.rows && db'.ran == db.ran && Idle(p') && p'.registry == p.registry
  {
    if p.pc.Walk? && p.pc.at < |p.Ids()| {
      assert p.Ids()[p.pc.at] in p.Ids();
    }
  }

  lemma FirstMissing(all: set<string>, rows: set<string>, i: nat)
    requires i < |Sorted(all)| && Sorted(all)[i] !in rows
    requires forall j :: 0 <= j < i ==> Sorted(all)[j] in rows
    ensures Sorted(all)[i] in all
    ensures forall x :: x in all && x !in rows ==> AtOrBefore(Sorted(all)[i], x)
  {
    var ids := Sorted(all);
    assert ids[i] in ids;
    Total(ids[i], ids[i]);
    forall x | x in all && x !in rows
      ensures AtOrBefore(ids[i], x)
    {
      assert x in ids;
      var j :| 0 <= j < |ids| && ids[j] == x;
    }
  }

  lemma NoneMissing(all: set<string>, rows: set<string>)
    requires forall j :: 0 <= j < |Sorted(all)| ==> Sorted(all)[j] in rows
    ensures all <= rows
  {
    forall x | x in all
      ensures x in rows
    {
      assert x in Sorted(all);
    }
  }

  /** What the loop of `Run` has made of the database after `i` ids. */
  ghost predicate Applied(ids: seq<string>, i: nat, start: Db, now: Db)
    requires i <= |ids|
  {
    && now.table == start.table
    && now.ran == start.ran + Pending(ids[..i], start.rows)
    && (forall x :: x in now.rows <==> x in start.rows || x in ids[..i])
  }

  lemma AppliedMore(ids: seq<string>, i: nat, start: Db, now: Db, after: Db)
    requires i < |ids| && Applied(ids, i, start, now)
    requires after == if ids[i] in start.rows then now
                      else now.(rows := now.rows + {ids[i]}, ran := now.ran + [ids[i]])
    ensures Applied(ids, i + 1, start, after)
  {
    assert ids[..i + 1][..i] == ids[..i] && ids[..i + 1] == ids[..i] + [ids[i]];
    assert ids[i] in start.rows ==> Pending(ids[..i + 1], start.rows) == Pending(ids[..i], start.rows);
  }

  lemma AppliedAll(all: set<string>, start: Db, now: Db)
    requires Applied(Sorted(all), |Sorted(all)|, start, now)
    ensures now == Db(start.table, start.rows + all, start.ran + Pending(Sorted(all), start.rows))
    ensures all <= start.rows ==> now == start
  {
    var ids := Sorted(all);
    assert ids[..|ids|] == ids;
    assert forall x :: x in ids <==> x in all;
    if all <= start.rows {
      NothingPending(ids, start.rows);
    }
  }

  lemma {:induction false} NothingPending(ids: seq<string>, applied: set<string>)
    requires forall i :: 0 <= i < |ids| ==> ids[i] in applied
    ensures Pending(ids, applied) == []
  {
    if ids != [] {
      NothingPending(ids[..|ids| - 1], applied);
    }
  }

  class Runner {
    var registry: Registry

    constructor ()
      ensures registry == map[]
    {
      registry := map[];
    }

    /** The first registration of an id stands. */
    method Register(id: string, up: Up) returns (ok: bool)
      modifies this
      ensures ok == (id !in old(registry))
      ensures registry == if ok then old(registry)[id := up] else old(registry)
    {
      if id in registry {
        return false;
      }
      registry := registry[id := up];
      ok := true;
    }

    method ClearRegistry()
      modifies this
      ensures registry == map[]
    {
      var keys := registry.Keys;
      while keys != {}
        invariant registry.Keys == keys
        decreases |keys|
      {
        var k :| k in keys;
        registry := registry - {k};
        keys := keys - {k};
      }
    }

    method SortedRegistryIDs() returns (ids: seq<string>)
      ensures ids == Sorted(registry.Keys)
    {
      ids := [];
      var keys := registry.Keys;
      while keys != {}
        invariant keys <= registry.Keys
        invariant Distinct(ids) && Lists(ids, registry.Keys - keys)
        decreases |keys|
      {
        var id :| id in keys;
        ids := ids + [id];
        keys := keys - {id};
      }
      SortOfListing(ids, registry.Keys);
      ids := Sort(ids);
    }

    /** The `up` of one unapplied id, then its row. */
    method ApplyMigration(db: Database, id: string) returns (r: Result)
      modifies db
      ensures db.table == old(db.table)
      ensures r.Ok? ==> id in registry && registry[id] == Hook && id !in old(db.rows)
                        && db.View() == Db(db.table, old(db.rows) + {id}, old(db.ran) + [id])
      ensures r == Err(NilUp(id)) <==> id !in registry || registry[id] == Nil
      ensures r.Err? ==> r.error in {NilUp(id), UpFailed(id), NotRecorded(id)}
      ensures r.Err? ==> db.View() == if r.error == NotRecorded(id) then old(db.View()).(ran := old(db.ran) + [id])
                                     else old(db.View())
    {
      if id !in registry || registry[id] == Nil {
        return Err(NilUp(id));
      }
      var ok := db.CallUp(id);
      if !ok {
        return Err(UpFailed(id));
      }
      ok := db.Create(id);
      if !ok {
        return Err(NotRecorded(id));
      }
      r := Ok;
    }

    /** Apply what is missing, in order; stop at the first failure. */
    method Run(db: Database) returns (r: Result, ghost trace: seq<bool>)
      modifies db
      ensures Takes(registry, true, old(db.View()), trace, db.View(), if r.Ok? then Migrated else Failed)
      ensures r != Err(HooksMissing) && (r == Err(NoMigrations) <==> registry == map[])
      ensures r.Ok? ==> db.View() == Db(true, old(db.rows) + registry.Keys,
                                        old(db.ran) + Pending(Sorted(registry.Keys), old(db.rows)))
      ensures registry.Keys <= old(db.rows) ==>
                && db.rows == old(db.rows) && db.ran == old(db.ran)
                && (r.Ok? || r.error in {NoMigrations, TableNotCreated, NotLoaded})
    {
      ghost var before := db.View();
      if registry == map[] {
        TakesNothing(registry, true, before);
        return Err(NoMigrations), [false];
      }
      var ok := db.AutoMigrate();
      TakesLoad(registry, true, before, ok, db.View(), false);
      if !ok {
        return Err(TableNotCreated), [false];
      }
      var applied;
      ok, applied := db.Find();
      if !ok {
        return Err(NotLoaded), [true, false];
      }
      TakesLoad(registry, true, before, true, db.View(), true);
      r, trace := ApplyAll(db, applied, before, [true, true]);
    }

    /** One missing id, whose visit is two steps of the machine, or one if `up` does not succeed. */
    method ApplyNext(db: Database, id: string, ghost applied: set<string>, ghost before: Db, ghost trace0: seq<bool>,
                     ghost i: nat) returns (r: Result, ghost trace: seq<bool>)
      requires Takes(registry, true, before, trace0, db.View(), Walk(i, applied))
      requires i < |Sorted(registry.Keys)| && id == Sorted(registry.Keys)[i] && id !in applied
      modifies db
      ensures Takes(registry, true, before, trace, db.View(), if r.Ok? then Walk(i + 1, applied) else Failed)
      ensures r.Ok? ==> db.View() == Db(old(db.table), old(db.rows) + {id}, old(db.ran) + [id])
      ensures r.Err? ==> r.error in {NilUp(id), UpFailed(id), NotRecorded(id)}
    {
      ghost var was := db.View();
      SortedAt(registry.Keys, i);
      r := ApplyMigration(db, id);
      hide *;
      if r.Err? && r.error != NotRecorded(id) {
        TakesMissing(registry, true, before, trace0, was, i, applied);
        return r, trace0 + [false];
      }
      TakesApply(registry, before, trace0, was, i, applied, r.Ok?, db.View());
      trace := trace0 + [true] + [r.Ok?];
    }

    /** The loop of `Run`. */
    method ApplyAll(db: Database, applied: set<string>, ghost before: Db, ghost trace0: seq<bool>)
      returns (r: Result, ghost trace: seq<bool>)
      requires Takes(registry, true, before, trace0, db.View(), Walk(0, applied)) && applied == db.rows
      modifies db
      ensures Takes(registry, true, before, trace, db.View(), if r.Ok? then Migrated else Failed)
      ensures r != Err(NoMigrations) && r != Err(HooksMissing)
      ensures r.Ok? ==> db.View() == Db(old(db.table), applied + registry.Keys,
                                        old(db.ran) + Pending(Sorted(registry.Keys), applied))
      ensures registry.Keys <= applied ==> r.Ok? && db.View() == old(db.View())
    {
      trace := trace0;
      var ids := SortedRegistryIDs();
      ghost var start := db.View();
      assert Applied(ids, 0, start, start);
      hide *;
      var i := 0;
      while i < |ids|
        invariant 0 <= i <= |ids|
        invariant Takes(registry, true, before, trace, db.View(), Walk(i, applied))
        invariant Applied(ids, i, start, db.View())
      {
        var id := ids[i];
        ghost var was := db.View();
        if id in applied {
          TakesSkip(registry, true, before, trace, was, i, applied);
          trace := trace + [true];
        } else {
          r, trace := ApplyNext(db, id, applied, before, trace, i);
          if r.Err? {
            return;
          }
        }
        AppliedMore(ids, i, start, was, db.View());
        i := i + 1;
      }
      TakesEnd(registry, true, before, trace, db.View(), applied);
      AppliedAll(registry.Keys, start, db.View());
      trace := trace + [true];
      r := Ok;
    }

    /** Look, and change nothing. */
    method VerifyApplied(db: Database) returns (r: Result, ghost trace: seq<bool>)
      ensures Takes(registry, false, db.View(), trace, db.View(), if r.Ok? then Started else Failed)
      ensures r.Ok? ==> registry != map[] && db.table && registry.Keys <= db.rows
      ensures r != Err(HooksMissing) && (r == Err(NoMigrations) <==> registry == map[])
      ensures registry != map[] && registry.Keys <= db.rows ==> r.Ok? || r.error in {TableMissing, NotLoaded}
      ensures r.Err? && r.error.NotApplied? ==>
                && r.error.id in registry && r.error.id !in db.rows
                && forall x :: x in registry && x !in db.rows ==> AtOrBefore(r.error.id, x)
    {
      ghost var before := db.View();
      if registry == map[] {
        TakesNothing(registry, false, before);
        return Err(NoMigrations), [false];
      }
      var ok := db.HasTable();
      TakesLoad(registry, false, before, ok, before, false);
      if !ok {
        return Err(TableMissing), [false];
      }
      var applied;
      ok, applied := db.Find();
      if !ok {
        return Err(NotLoaded), [true, false];
      }
      TakesLoad(registry, false, before, true, before, true);
      r, trace := FindMissing(before, applied, [true, true]);
    }

    /** The loop of `VerifyApplied`. */
    method FindMissing(ghost before: Db, applied: set<string>, ghost trace0: seq<bool>)
      returns (r: Result, ghost trace: seq<bool>)
      requires Takes(registry, false, before, trace0, before, Walk(0, applied))
      ensures Takes(registry, false, before, trace, before, if r.Ok? then Started else Failed)
      ensures r.Ok? <==> registry.Keys <= applied
      ensures r.Err? ==> r.error.NotApplied? && r.error.id in registry && r.error.id !in applied
                         && forall x :: x in registry && x !in applied ==> AtOrBefore(r.error.id, x)
    {
      trace := trace0;
      var ids := SortedRegistryIDs();
      hide *;
      var i := 0;
      while i < |ids|
        invariant 0 <= i <= |ids|
        invariant Takes(registry, false, before, trace, before, Walk(i, applied))
        invariant forall j :: 0 <= j < i ==> ids[j] in applied
      {
        if ids[i] !in applied {
          TakesMissing(registry, false, before, trace, before, i, applied);
          FirstMissing(registry.Keys, applied, i);
          return Err(NotApplied(ids[i])), trace + [false];
        }
        TakesSkip(registry, false, before, trace, before, i, applied);
        trace := trace + [true];
        i := i + 1;
      }
      TakesEnd(registry, false, before, trace, before, applied);
      NoneMissing(registry.Keys, applied);
      trace := trace + [true];
      r := Ok;
    }
  }

  /** Which start-up hooks were given. */
  datatype Hooks = Hooks(migrate: bool, verify: bool, seedUsers: bool, seedHomepage: bool)

  /** The data a start-up writes. */
  datatype Seed = Users | Homepage

  class Server {
    var ready: bool
    /** The seed hooks that have succeeded, in order. */
    var seeded: seq<Seed>

    constructor ()
      ensures !ready && seeded == []
    {
      ready, seeded := false, [];
    }

    method SeedUsers() returns (ok: bool)
      modifies this`seeded
      ensures seeded == if ok then old(seeded) + [Users] else old(seeded)
    {
      ok := *;
      if ok {
        seeded := seeded + [Users];
      }
    }

    method SeedHomepage() returns (ok: bool)
      modifies this`seeded
      ensures seeded == if ok then old(seeded) + [Homepage] else old(seeded)
    {
      ok := *;
      if ok {
        seeded := seeded + [Homepage];
      }
    }

    /** The writer migrates and seeds, any other process only verifies. */
    method RunStartupMutations(db: Database, runner: Runner, writer: bool, hooks: Hooks)
      returns (r: Result, ghost trace: seq<bool>)
      requires db as object != runner as object && db as object != this as object
      modifies db, this`seeded
      ensures writer && r.Ok? ==> seeded == old(seeded) + [Users, Homepage]
      ensures !writer || (r.Err? && r.error != SeedFailed) ==> seeded == old(seeded)
      ensures r == Err(SeedFailed) ==> seeded == old(seeded) || seeded == old(seeded) + [Users]
      ensures seeded != old(seeded) ==> runner.registry.Keys <= db.rows
      ensures r == Err(HooksMissing) <==> (if writer then !hooks.migrate || !hooks.seedUsers || !hooks.seedHomepage
                                                     else !hooks.verify)
      ensures r == Err(HooksMissing) || !writer ==> db.View() == old(db.View())
      ensures r != Err(HooksMissing) ==>
                Takes(runner.registry, writer, old(db.View()), trace, db.View(), if r.Ok? then Started else Failed)
    {
      if writer {
        if !hooks.migrate || !hooks.seedUsers || !hooks.seedHomepage {
          return Err(HooksMissing), [];
        }
        r, trace := runner.Run(db);
        if r.Err? {
          return;
        }
        var ok := SeedUsers();
        TakesSeed(runner.registry, old(db.View()), trace, db.View(), Migrated, ok);
        trace := trace + [ok];
        if !ok {
          return Err(SeedFailed), trace;
        }
        ok := SeedHomepage();
        TakesSeed(runner.registry, old(db.View()), trace, db.View(), UsersSeeded, ok);
        trace := trace + [ok];
        return if ok then Ok else Err(SeedFailed), trace;
      }
      if !hooks.verify {
        return Err(HooksMissing), [];
      }
      r, trace := runner.VerifyApplied(db);
    }

    /** The end of start-up in `main`: a failure is fatal, and only success marks the server ready. */
    method Boot(db: Database, runner: Runner, writer: bool) returns (r: Result, ghost trace: seq<bool>)
      requires db as object != runner as object && db as object != this as object && !ready
      modifies db, this
      ensures Takes(runner.registry, writer, old(db.View()), trace, db.View(), if r.Ok? then Ready else Failed)
      ensures ready == r.Ok?
      ensures ready ==> runner.registry != map[] && runner.registry.Keys <= db.rows
      ensures seeded == old(seeded) || writer
      ensures writer && ready ==> seeded == old(seeded) + [Users, Homepage]
    {
      r, trace := RunStartupMutations(db, runner, writer, Hooks(true, true, true, true));
      if r.Ok? {
        StepsKnow(old(db.View()), Process(writer, runner.registry, Begin), trace);
        TakesReady(runner.registry, writer, old(db.View()), trace, db.View());
        trace := trace + [true];
        ready := true;
      }
    }
  }
}
