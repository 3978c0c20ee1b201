/** The cron lease protocol as a step system: several drivers tick over one `__cron_jobs` and
    one `__cron_leases` table. Each SQL statement is one atomic step, the clock never runs
    backwards, and a driver may crash or fail between any two steps
    (crates/ducklink-host/src/cron_cli.rs:949-1146). */
module CronProtocol {
  import opened Wrappers

  datatype Status = Unset | StatusFired | StatusFailed | StatusSkipped

  datatype Job = Job(schedule: string, catchUp: string, active: bool, next: Option<int>, node: Option<string>,
      database: string, lastRun: Option<int>, lastStatus: Status)

  datatype Lease = Lease(holder: string, acquiredAt: int, expiresAt: int)

  datatype RunRow = RunRow(job: nat, at: int, ok: bool)

  /** One row read from `cron_due_for`: the window is the `next_run_at` it was due for. */
  datatype Entry = Entry(id: nat, window: int, database: string)

  datatype Pc = Idle | Started | HasRead | AtJob | Acquired | Fired | Recorded

  /** A driver: where it is, the clock value its tick captured, the rows it read, and the
      index of the row it works on. */
  datatype Driver = Driver(pc: Pc, now: int, due: seq<Entry>, at: nat)

  datatype Fire = Fire(node: string, id: nat, window: int)

  /** `fires` is history: every job execution, in order. */
  datatype State = State(
    clock: int,
    jobs: map<nat, Job>,
    leases: map<nat, Lease>,
    runs: seq<RunRow>,
    drivers: map<string, Driver>,
    fires: seq<Fire>)

  /** `advance` is the extension's `cron_advance`; `ttl` each driver's lease time. */
  datatype Config = Config(advance: (string, int, int, string) -> Option<int>, ttl: string -> int)

  datatype Action =
    | Start
    | ReadDue(due: seq<Entry>)
    | PreAdvance
    | Acquire
    | UseFails(saved: bool)
    | RunJob
    | Record(ok: bool, saved: bool)
    | Release
    | ReleaseFails
    | Finish
    | Crash

  datatype Step = Clock(t: int) | By(n: string, act: Action)

  // ---------------------------------------------------------------------------
  // The SQL statements
  // ---------------------------------------------------------------------------

  predicate Due(job: Job, now: int, n: string) {
    job.active && job.next.Some? && job.next.value <= now && (job.node.None? || job.node.value == n)
  }

  predicate IsRow(jobs: map<nat, Job>, now: int, n: string, e: Entry) {
    e.id in jobs && Due(jobs[e.id], now, n) && e == Entry(e.id, jobs[e.id].next.value, jobs[e.id].database)
  }

  predicate Listed(due: seq<Entry>, id: nat) {
    exists k :: 0 <= k < |due| && due[k].id == id
  }

  /** What `cron_due_for` may return: exactly the due rows, once each, by `next_run_at`. */
  ghost predicate IsDueList(jobs: map<nat, Job>, now: int, n: string, due: seq<Entry>) {
    && (forall k :: 0 <= k < |due| ==> IsRow(jobs, now, n, due[k]))
    && (forall id :: id in jobs && Due(jobs[id], now, n) ==> Listed(due, id))
    && (forall j, k :: 0 <= j < k < |due| ==> due[j].id != due[k].id && due[j].window <= due[k].window)
  }

  /** The pre-advance UPDATE. */
  function Advanced(cfg: Config, jobs: map<nat, Job>, now: int, n: string): map<nat, Job> {
    map id | id in jobs ::
      if Due(jobs[id], now, n)
      then jobs[id].(
             next := cfg.advance(jobs[id].schedule, jobs[id].next.value, now, jobs[id].catchUp),
             lastRun := Some(now))
      else jobs[id]
  }

  /** The acquire UPSERT succeeds on an absent or expired row and does nothing otherwise. */
  predicate CanAcquire(leases: map<nat, Lease>, id: nat, now: int) {
    id !in leases || leases[id].expiresAt <= now
  }

  function AcquireRow(cfg: Config, leases: map<nat, Lease>, id: nat, n: string, now: int): map<nat, Lease> {
    if CanAcquire(leases, id, now) then leases[id := Lease(n, now, now + cfg.ttl(n))] else leases
  }

  /** The release UPDATE touches the row only if the driver still holds it. */
  function ReleaseRow(leases: map<nat, Lease>, id: nat, n: string): map<nat, Lease> {
    if id in leases && leases[id].holder == n then leases[id := leases[id].(expiresAt := 0)] else leases
  }

  function SetStatus(jobs: map<nat, Job>, id: nat, st: Status): map<nat, Job> {
    if id in jobs then jobs[id := jobs[id].(lastStatus := st)] else jobs
  }

  // ---------------------------------------------------------------------------
  // Steps and runs
  // ---------------------------------------------------------------------------

  predicate Holding(d: Driver) {
    d.pc in {Acquired, Fired, Recorded} && d.at < |d.due|
  }

  function Put(s: State, n: string, d: Driver): State {
    s.(drivers := s.drivers[n := d])
  }

  /** The record statements: the job's last status and a row in `__cron_runs`. */
  function Outcome(s: State, d: Driver, st: Status): State
    requires d.at < |d.due|
  {
    var id := d.due[d.at].id;
    s.(jobs := SetStatus(s.jobs, id, st), runs := s.runs + [RunRow(id, d.now, st == StatusFired)])
  }

  ghost predicate CanAct(cfg: Config, s: State, n: string, act: Action) {
    n in s.drivers &&
    var d := s.drivers[n];
    match act
    case Start => d.pc == Idle
    case ReadDue(due) => d.pc == Started && IsDueList(s.jobs, d.now, n, due)
    case PreAdvance => d.pc == HasRead && d.due != []
    case Acquire => d.pc == AtJob && d.at < |d.due|
    case UseFails(_) => d.pc == Acquired && d.at < |d.due| && d.due[d.at].database != ""
    case RunJob => d.pc == Acquired && d.at < |d.due|
    case Record(_, _) => d.pc == Fired && d.at < |d.due|
    case Release => d.pc == Recorded && d.at < |d.due|
    case ReleaseFails => d.pc == Recorded && d.at < |d.due|
    case Finish => (d.pc == HasRead && d.due == []) || (d.pc == AtJob && d.at == |d.due|)
    case Crash => true
  }

  ghost function Act(cfg: Config, s: State, n: string, act: Action): State
    requires CanAct(cfg, s, n, act)
  {
    var d := s.drivers[n];
    match act
    case Start => Put(s, n, Driver(Started, s.clock, [], 0))
    case ReadDue(due) => Put(s, n, d.(pc := HasRead, due := due))
    case PreAdvance => Put(s, n, d.(pc := AtJob)).(jobs := Advanced(cfg, s.jobs, d.now, n))
    case Acquire =>
      var id := d.due[d.at].id;
      if CanAcquire(s.leases, id, d.now)
      then Put(s, n, d.(pc := Acquired)).(leases := AcquireRow(cfg, s.leases, id, n, d.now))
      else Put(s, n, d.(at := d.at + 1))
    case UseFails(saved) =>
      var t := Put(s, n, d.(pc := AtJob, at := d.at + 1));
      if saved then Outcome(t, d, StatusSkipped) else t
    case RunJob =>
      Put(s, n, d.(pc := Fired)).(fires := s.fires + [Fire(n, d.due[d.at].id, d.due[d.at].window)])
    case Record(ok, saved) =>
      var t := Put(s, n, d.(pc := Recorded));
      if saved then Outcome(t, d, if ok then StatusFired else StatusFailed) else t
    case Release =>
      Put(s, n, d.(pc := AtJob, at := d.at + 1)).(leases := ReleaseRow(s.leases, d.due[d.at].id, n))
    case ReleaseFails => Put(s, n, d.(pc := AtJob, at := d.at + 1))
    case Finish => Put(s, n, Driver(Idle, 0, [], 0))
    case Crash => Put(s, n, Driver(Idle, 0, [], 0))
  }

  ghost predicate Enabled(cfg: Config, s: State, e: Step) {
    match e
    case Clock(t) => s.clock <= t
    case By(n, act) => CanAct(cfg, s, n, act)
  }

  ghost function Do(cfg: Config, s: State, e: Step): State
    requires Enabled(cfg, s, e)
  {
    match e
    case Clock(t) => s.(clock := t)
    case By(n, act) => Act(cfg, s, n, act)
  }

  /** The state after a run, if each step of it is enabled. */
  ghost function Exec(cfg: Config, s: State, steps: seq<Step>): Option<State> {
    if steps == [] then Some(s) else
    match Exec(cfg, s, steps[..|steps| - 1])
    case None => None
    case Some(t) => if Enabled(cfg, t, steps[|steps| - 1]) then Some(Do(cfg, t, steps[|steps| - 1])) else None
  }

  /** All drivers are idle and nothing has fired. The tables may hold anything. */
  ghost predicate Init(s: State) {
    s.fires == [] && forall n :: n in s.drivers ==> s.drivers[n].pc == Idle
  }

  ghost predicate AdvancesPastNow(cfg: Config) {
    forall schedule, next, now, c :: var t := cfg.advance(schedule, next, now, c); t.Some? ==> t.value > now
  }

  // ---------------------------------------------------------------------------
  // Leases: two concurrent holders mean an expired lease
  // ---------------------------------------------------------------------------

  function Expiry(cfg: Config, s: State, n: string): int
    requires n in s.drivers
  {
    s.drivers[n].now + cfg.ttl(n)
  }

  function HeldJob(s: State, n: string): nat
    requires n in s.drivers && Holding(s.drivers[n])
  {
    s.drivers[n].due[s.drivers[n].at].id
  }

  /** A holder's row is still its own, or its lease has run out. */
  ghost predicate LeaseOk(cfg: Config, s: State, n: string)
    requires n in s.drivers
  {
    && (s.drivers[n].pc != Idle ==> s.drivers[n].now <= s.clock)
    && (Holding(s.drivers[n]) ==>
          || (HeldJob(s, n) in s.leases && s.leases[HeldJob(s, n)] == Lease(n, s.drivers[n].now, Expiry(cfg, s, n)))
          || Expiry(cfg, s, n) <= s.clock)
  }

  ghost predicate LeaseInv(cfg: Config, s: State) {
    forall n :: n in s.drivers ==> LeaseOk(cfg, s, n)
  }

  lemma StepKeepsLeaseInv(cfg: Config, s: State, e: Step)
    requires LeaseInv(cfg, s) && Enabled(cfg, s, e)
    ensures LeaseInv(cfg, Do(cfg, s, e))
  {
    var t := Do(cfg, s, e);
    forall n | n in t.drivers ensures LeaseOk(cfg, t, n) {
      assert LeaseOk(cfg, s, n);
    }
  }

  lemma {:induction false} RunKeepsLeaseInv(cfg: Config, s: State, steps: seq<Step>)
    requires LeaseInv(cfg, s) && Exec(cfg, s, steps).Some?
    ensures LeaseInv(cfg, Exec(cfg, s, steps).value)
  {
    if steps != [] {
      var prefix := steps[..|steps| - 1];
      RunKeepsLeaseInv(cfg, s, prefix);
      StepKeepsLeaseInv(cfg, Exec(cfg, s, prefix).value, steps[|steps| - 1]);
    }
  }

  /** In every state of every interleaving, if two drivers are both between acquiring and
      releasing the same job's lease, at least one of the two leases has passed its expiry. */
  lemma MutualExclusionUntilExpiry(cfg: Config, s: State, steps: seq<Step>, m: string, n: string)
    requires Init(s) && Exec(cfg, s, steps).Some? && m != n
    requires var t := Exec(cfg, s, steps).value;
      m in t.drivers && n in t.drivers && Holding(t.drivers[m]) && Holding(t.drivers[n])
        && HeldJob(t, m) == HeldJob(t, n)
    ensures var t := Exec(cfg, s, steps).value; Expiry(cfg, t, m) <= t.clock || Expiry(cfg, t, n) <= t.clock
  {
    assert LeaseInv(cfg, s);
    RunKeepsLeaseInv(cfg, s, steps);
    var t := Exec(cfg, s, steps).value;
    assert LeaseOk(cfg, t, m) && LeaseOk(cfg, t, n);
  }

  /** A driver whose lease was stolen leaves the thief's row alone when it releases. */
  lemma StolenLeaseSurvivesRelease(cfg: Config, s: State, n: string)
    requires CanAct(cfg, s, n, Release) && HeldJob(s, n) in s.leases && s.leases[HeldJob(s, n)].holder != n
    ensures Act(cfg, s, n, Release).leases == s.leases
  {}

  // ---------------------------------------------------------------------------
  // Windows: each driver fires each window at most once
  // ---------------------------------------------------------------------------

  predicate Past(next: Option<int>, window: int) {
    next.None? || next.value > window
  }

  predicate JobPast(s: State, id: nat, window: int) {
    id in s.jobs && Past(s.jobs[id].next, window)
  }

  predicate ForNode(s: State, id: nat, n: string) {
    id in s.jobs && (s.jobs[id].node.None? || s.jobs[id].node.value == n)
  }

  /** The rows a driver has not fired yet in its tick. */
  function FirstUnfired(d: Driver): nat {
    if d.pc in {Fired, Recorded} then d.at + 1 else d.at
  }

  ghost predicate RowsOk(s: State, n: string)
    requires n in s.drivers
  {
    var d := s.drivers[n];
    (d.pc in {Started, HasRead} ==> d.at == 0) &&
    (d.pc in {HasRead, AtJob, Acquired, Fired, Recorded} ==>
      && (forall k :: 0 <= k < |d.due| ==> ForNode(s, d.due[k].id, n))
      && (forall j, k :: 0 <= j < k < |d.due| ==> d.due[j].id != d.due[k].id)
      && (forall k :: FirstUnfired(d) <= k < |d.due| ==> Fire(n, d.due[k].id, d.due[k].window) !in s.fires)
      && (if d.pc == HasRead
          then forall k :: 0 <= k < |d.due| ==>
                 JobPast(s, d.due[k].id, d.due[k].window)
                 || (Due(s.jobs[d.due[k].id], d.now, n) && s.jobs[d.due[k].id].next.value == d.due[k].window)
          else forall k :: 0 <= k < |d.due| ==> JobPast(s, d.due[k].id, d.due[k].window)))
  }

  ghost predicate FiresOk(s: State) {
    && (forall f :: f in s.fires ==> f.node in s.drivers && JobPast(s, f.id, f.window) && ForNode(s, f.id, f.node))
    && NoRepeats(s.fires)
  }

  ghost predicate WindowInv(s: State) {
    FiresOk(s) && forall n :: n in s.drivers ==> RowsOk(s, n)
  }

  /** The job table only moves forward: no step drops a job, retargets it or pulls its
      `next_run_at` back. */
  ghost predicate JobsMoveOn(jobs: map<nat, Job>, jobs': map<nat, Job>) {
    && jobs.Keys == jobs'.Keys
    && forall id :: id in jobs ==>
         && jobs'[id].node == jobs[id].node && jobs'[id].active == jobs[id].active
         && (jobs'[id].next == jobs[id].next || (jobs[id].next.Some? && Past(jobs'[id].next, jobs[id].next.value)))
  }

  lemma StepMovesJobsOn(cfg: Config, s: State, e: Step)
    requires AdvancesPastNow(cfg) && Enabled(cfg, s, e)
    ensures JobsMoveOn(s.jobs, Do(cfg, s, e).jobs)
  {
    if e.By? && e.act.PreAdvance? {
      var now := s.drivers[e.n].now;
      forall id | id in s.jobs && Due(s.jobs[id], now, e.n)
        ensures Past(Do(cfg, s, e).jobs[id].next, s.jobs[id].next.value)
      {
        var j := s.jobs[id];
        var t := cfg.advance(j.schedule, j.next.value, now, j.catchUp);
        assert t.Some? ==> t.value > now;
      }
    }
  }

  lemma PreAdvancePassesRows(cfg: Config, s: State, n: string)
    requires AdvancesPastNow(cfg) && CanAct(cfg, s, n, PreAdvance) && RowsOk(s, n)
    ensures var t := Act(cfg, s, n, PreAdvance); forall k :: 0 <= k < |t.drivers[n].due| ==>
      JobPast(t, t.drivers[n].due[k].id, t.drivers[n].due[k].window)
  {
    StepMovesJobsOn(cfg, s, By(n, PreAdvance));
    var d, t := s.drivers[n], Act(cfg, s, n, PreAdvance);
    forall k | 0 <= k < |d.due| ensures JobPast(t, d.due[k].id, d.due[k].window) {
      var j := s.jobs[d.due[k].id];
      if !JobPast(s, d.due[k].id, d.due[k].window) {
        var next := cfg.advance(j.schedule, j.next.value, d.now, j.catchUp);
        assert next.Some? ==> next.value > d.now;
      }
    }
  }

  /** What a driver knows about its rows survives whatever the others do. */
  lemma OthersKeepRowsOk(s: State, t: State, n: string)
    requires n in s.drivers && n in t.drivers && t.drivers[n] == s.drivers[n] && RowsOk(s, n)
    requires JobsMoveOn(s.jobs, t.jobs)
    requires forall f :: f in t.fires && f.node == n ==> f in s.fires
    ensures RowsOk(t, n)
  {}

  /** A window just read from the due list has never been fired, by any driver. */
  lemma DueWindowIsUnfired(s: State, n: string, now: int, id: nat, f: Fire)
    requires FiresOk(s) && id in s.jobs && Due(s.jobs[id], now, n) && f in s.fires
    ensures f.id != id || f.window != s.jobs[id].next.value
  {
    assert JobPast(s, f.id, f.window);
  }

  lemma ReadDueMakesRowsOk(cfg: Config, s: State, n: string, due: seq<Entry>)
    requires WindowInv(s) && CanAct(cfg, s, n, ReadDue(due))
    ensures RowsOk(Act(cfg, s, n, ReadDue(due)), n)
  {
    assert RowsOk(s, n);
    var now := s.drivers[n].now;
    forall k | 0 <= k < |due| ensures Fire(n, due[k].id, due[k].window) !in s.fires {
      if Fire(n, due[k].id, due[k].window) in s.fires {
        DueWindowIsUnfired(s, n, now, due[k].id, Fire(n, due[k].id, due[k].window));
      }
    }
  }

  /** A driver that moves along its rows, firing at most the one it leaves behind. */
  lemma MovingOnKeepsRowsOk(s: State, t: State, n: string)
    requires n in s.drivers && n in t.drivers && RowsOk(s, n)
    requires var d, d' := s.drivers[n], t.drivers[n];
      && d.pc in {AtJob, Acquired, Fired, Recorded} && d'.pc in {AtJob, Acquired, Fired, Recorded}
      && d'.due == d.due && FirstUnfired(d) <= FirstUnfired(d')
      && (|| t.fires == s.fires
          || (&& d.at < |d.due| && d.at < FirstUnfired(d')
              && t.fires == s.fires + [Fire(n, d.due[d.at].id, d.due[d.at].window)]))
    requires JobsMoveOn(s.jobs, t.jobs)
    ensures RowsOk(t, n)
  {}

  lemma OwnStepKeepsRowsOk(cfg: Config, s: State, n: string, act: Action)
    requires AdvancesPastNow(cfg) && WindowInv(s) && CanAct(cfg, s, n, act)
    ensures RowsOk(Act(cfg, s, n, act), n)
  {
    hide RowsOk, Advanced, IsDueList;
    StepMovesJobsOn(cfg, s, By(n, act));
    var t := Act(cfg, s, n, act);
    match act {
      case ReadDue(due) => ReadDueMakesRowsOk(cfg, s, n, due);
      case PreAdvance => PreAdvanceKeepsRowsOk(cfg, s, n);
      case Start => NotReadYet(t, n);
      case Finish => NotReadYet(t, n);
      case Crash => NotReadYet(t, n);
      case _ => MovingOnKeepsRowsOk(s, t, n);
    }
  }

  lemma NotReadYet(t: State, n: string)
    requires n in t.drivers && t.drivers[n].pc in {Idle, Started} && t.drivers[n].at == 0
    ensures RowsOk(t, n)
  {}

  lemma PreAdvanceKeepsRowsOk(cfg: Config, s: State, n: string)
    requires AdvancesPastNow(cfg) && CanAct(cfg, s, n, PreAdvance) && RowsOk(s, n)
    ensures RowsOk(Act(cfg, s, n, PreAdvance), n)
  {
    PreAdvancePassesRows(cfg, s, n);
  }

  lemma StepKeepsFiresOk(cfg: Config, s: State, e: Step)
    requires AdvancesPastNow(cfg) && WindowInv(s) && Enabled(cfg, s, e)
    ensures FiresOk(Do(cfg, s, e))
  {
    hide Advanced, JobsMoveOn;
    StepMovesJobsOn(cfg, s, e);
    if e.By? && e.act.RunJob? {
      FiringKeepsFiresOk(cfg, s, e.n);
    } else {
      OldFiresStayOk(s, Do(cfg, s, e));
    }
  }

  lemma OldFiresStayOk(s: State, t: State)
    requires FiresOk(s) && JobsMoveOn(s.jobs, t.jobs) && t.fires == s.fires && s.drivers.Keys <= t.drivers.Keys
    ensures FiresOk(t)
  {}

  lemma FiringKeepsFiresOk(cfg: Config, s: State, n: string)
    requires WindowInv(s) && CanAct(cfg, s, n, RunJob)
    ensures FiresOk(Act(cfg, s, n, RunJob))
  {
    assert RowsOk(s, n);
  }

  lemma StepKeepsWindowInv(cfg: Config, s: State, e: Step)
    requires AdvancesPastNow(cfg) && WindowInv(s) && Enabled(cfg, s, e)
    ensures WindowInv(Do(cfg, s, e))
  {
    StepMovesJobsOn(cfg, s, e);
    var t := Do(cfg, s, e);
    if e.By? { OwnStepKeepsRowsOk(cfg, s, e.n, e.act); }
    forall n | n in t.drivers && (e.Clock? || n != e.n) ensures RowsOk(t, n) {
      assert RowsOk(s, n);
      OthersKeepRowsOk(s, t, n);
    }
    StepKeepsFiresOk(cfg, s, e);
  }

  lemma StepKeepsDrivers(cfg: Config, s: State, e: Step)
    requires Enabled(cfg, s, e)
    ensures Do(cfg, s, e).drivers.Keys == s.drivers.Keys
  {
    hide Advanced, AcquireRow, ReleaseRow, SetStatus, IsDueList;
    if e.By? { assert e.n in s.drivers; }
  }

  lemma {:induction false} RunKeepsWindowInv(cfg: Config, s: State, steps: seq<Step>)
    requires AdvancesPastNow(cfg) && WindowInv(s) && Exec(cfg, s, steps).Some?
    ensures var t := Exec(cfg, s, steps).value;
      WindowInv(t) && JobsMoveOn(s.jobs, t.jobs) && t.drivers.Keys == s.drivers.Keys
  {
    hide Do, WindowInv, AdvancesPastNow;
    if steps != [] {
      var prefix := steps[..|steps| - 1];
      RunKeepsWindowInv(cfg, s, prefix);
      StepKeepsWindowInv(cfg, Exec(cfg, s, prefix).value, steps[|steps| - 1]);
      StepMovesJobsOn(cfg, Exec(cfg, s, prefix).value, steps[|steps| - 1]);
      StepKeepsDrivers(cfg, Exec(cfg, s, prefix).value, steps[|steps| - 1]);
    }
  }

  /** No interleaving of any number of drivers makes one driver execute the same window of a
      job twice, whatever crashes, and no driver executes a job targeted at another node. */
  lemma EachDriverFiresAWindowOnce(cfg: Config, s: State, steps: seq<Step>)
    requires AdvancesPastNow(cfg) && Init(s) && Exec(cfg, s, steps).Some?
    ensures var t := Exec(cfg, s, steps).value;
      && NoRepeats(t.fires)
      && forall f :: f in t.fires ==> ForNode(s, f.id, f.node)
  {
    RunKeepsWindowInv(cfg, s, steps);
    var t := Exec(cfg, s, steps).value;
    forall f | f in t.fires ensures ForNode(s, f.id, f.node) { assert ForNode(t, f.id, f.node); }
  }

  /** With a single driver, a window fires at most once at all. */
  lemma SingleDriverFiresAWindowOnce(cfg: Config, s: State, steps: seq<Step>, n: string)
    requires AdvancesPastNow(cfg) && Init(s) && s.drivers.Keys == {n} && Exec(cfg, s, steps).Some?
    ensures var fires := Exec(cfg, s, steps).value.fires;
      forall i, j :: 0 <= i < j < |fires| ==> fires[i].id != fires[j].id || fires[i].window != fires[j].window
  {
    RunKeepsWindowInv(cfg, s, steps);
    var t := Exec(cfg, s, steps).value;
    forall i, j | 0 <= i < j < |t.fires|
      ensures t.fires[i].id != t.fires[j].id || t.fires[i].window != t.fires[j].window
    {
      assert t.fires[i] in t.fires && t.fires[j] in t.fires;
    }
  }

  /** Once any driver has pre-advanced past a window, or fired it, no later read returns it:
      two drivers can fire one window only if both had read it before either advanced. */
  lemma PassedWindowIsNeverDueAgain(cfg: Config, s: State, mid: seq<Step>, late: seq<Step>, f: Fire, n: string,
      now: int)
    requires AdvancesPastNow(cfg) && Init(s) && Exec(cfg, s, mid).Some?
      && Exec(cfg, Exec(cfg, s, mid).value, late).Some?
    requires var t := Exec(cfg, s, mid).value; f in t.fires || JobPast(t, f.id, f.window)
    ensures var u := Exec(cfg, Exec(cfg, s, mid).value, late).value;
      f.id in u.jobs && !(Due(u.jobs[f.id], now, n) && u.jobs[f.id].next.value == f.window)
  {
    RunKeepsWindowInv(cfg, s, mid);
    var t := Exec(cfg, s, mid).value;
    assert JobPast(t, f.id, f.window);
    RunKeepsWindowInv(cfg, t, late);
  }

  lemma Extend(cfg: Config, s: State, steps: seq<Step>, t: State, e: Step)
    requires Exec(cfg, s, steps) == Some(t) && Enabled(cfg, t, e)
    ensures Exec(cfg, s, steps + [e]) == Some(Do(cfg, t, e))
  {
    assert (steps + [e])[..|steps + [e]| - 1] == steps;
  }
}
