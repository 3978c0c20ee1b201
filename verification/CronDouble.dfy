/** When a window of a job can fire twice
    (crates/ducklink-host/src/cron_cli.rs:949-1146, 1222-1227). */
module CronDouble {
  import opened Wrappers
  import opened CronProtocol
  import CronTick

  /** Some window of job `id` is executed twice. */
  ghost predicate FiresTwice(fires: seq<Fire>, id: nat) {
    exists i, j :: 0 <= i < j < |fires| && fires[i].id == fires[j].id == id && fires[i].window == fires[j].window
  }

  /** The job is scheduled, and two drivers may take it: one of several drivers' global jobs. */
  ghost predicate Shared(s: State, id: nat) {
    Armed(s.jobs, id)
    && exists m, n :: m in s.drivers && n in s.drivers && m != n && ForNode(s, id, m) && ForNode(s, id, n)
  }

  predicate Armed(jobs: map<nat, Job>, id: nat) {
    id in jobs && jobs[id].active && jobs[id].next.Some?
  }

  /** At-most-once holds for a job exactly when no two drivers share it: of the runs from a
      given table, one fires some window of the job twice if and only if the job is scheduled
      and two of the drivers may take it. */
  lemma FiresTwiceExactlyWhen(cfg: Config, s: State, id: nat)
    requires AdvancesPastNow(cfg) && Init(s)
    ensures (exists steps :: Exec(cfg, s, steps).Some? && FiresTwice(Exec(cfg, s, steps).value.fires, id)) <==>
      Shared(s, id)
  {
    hide Exec, Shared, FiresTwice, AdvancesPastNow;
    forall steps | Exec(cfg, s, steps).Some? && FiresTwice(Exec(cfg, s, steps).value.fires, id) ensures Shared(s, id) {
      TwiceMeansShared(cfg, s, steps, id);
    }
    if Shared(s, id) {
      var m, n := Sharers(s, id);
      var steps := TwoDriversCanFireOneWindow(cfg, s, id, m, n);
      assert Exec(cfg, s, steps).Some?;
    }
  }

  lemma Sharers(s: State, id: nat) returns (m: string, n: string)
    requires Shared(s, id)
    ensures Armed(s.jobs, id) && m in s.drivers && n in s.drivers && m != n && ForNode(s, id, m) && ForNode(s, id, n)
  {
    m, n :| m in s.drivers && n in s.drivers && m != n && ForNode(s, id, m) && ForNode(s, id, n);
  }

  // ---------------------------------------------------------------------------
  // Only a scheduled job fires
  // ---------------------------------------------------------------------------

  /** Whatever is fired or listed was scheduled from the start. */
  ghost predicate OnlyArmed(jobs: map<nat, Job>, s: State) {
    && (forall f :: f in s.fires ==> Armed(jobs, f.id))
    && (forall n :: n in s.drivers && s.drivers[n].pc !in {Idle, Started} ==> AllArmed(jobs, s.drivers[n].due))
  }

  ghost predicate AllArmed(jobs: map<nat, Job>, due: seq<Entry>) {
    forall k :: 0 <= k < |due| ==> Armed(jobs, due[k].id)
  }

  lemma StepKeepsOnlyArmed(cfg: Config, jobs: map<nat, Job>, s: State, e: Step)
    requires OnlyArmed(jobs, s) && JobsMoveOn(jobs, s.jobs) && Enabled(cfg, s, e)
    ensures OnlyArmed(jobs, Do(cfg, s, e))
  {
    hide Act, CanAct, JobsMoveOn, IsDueList, AllArmed, Armed;
    if e.By? {
      ActShape(cfg, s, e.n, e.act);
      var d := s.drivers[e.n];
      if e.act.ReadDue? { DueRowsAreArmed(jobs, s, e.n, e.act.due); }
      if e.act.RunJob? { ListedIsArmed(jobs, d.due, d.at); }
    }
  }

  /** What an action does to the acting driver and to the history. */
  lemma ActShape(cfg: Config, s: State, n: string, act: Action)
    requires CanAct(cfg, s, n, act)
    ensures n in s.drivers && n in Act(cfg, s, n, act).drivers
    ensures var (d, d') := (s.drivers[n], Act(cfg, s, n, act).drivers[n]);
      && Act(cfg, s, n, act).drivers == s.drivers[n := d']
      && (act.ReadDue? ==> d'.due == act.due && IsDueList(s.jobs, d.now, n, act.due))
      && (!act.ReadDue? ==> d'.pc in {Idle, Started} || (d'.due == d.due && d.pc !in {Idle, Started}))
      && (if act.RunJob?
          then d.pc !in {Idle, Started} && d.at < |d.due|
            && Act(cfg, s, n, act).fires == s.fires + [Fire(n, d.due[d.at].id, d.due[d.at].window)]
          else Act(cfg, s, n, act).fires == s.fires)
  {
    hide IsDueList, Advanced, AcquireRow, ReleaseRow, SetStatus, CanAcquire;
  }

  lemma ListedIsArmed(jobs: map<nat, Job>, due: seq<Entry>, k: nat)
    requires AllArmed(jobs, due) && k < |due|
    ensures Armed(jobs, due[k].id)
  {}

  lemma DueRowsAreArmed(jobs: map<nat, Job>, s: State, n: string, due: seq<Entry>)
    requires JobsMoveOn(jobs, s.jobs) && n in s.drivers && IsDueList(s.jobs, s.drivers[n].now, n, due)
    ensures AllArmed(jobs, due)
  {
    forall k | 0 <= k < |due| ensures Armed(jobs, due[k].id) {
      assert IsRow(s.jobs, s.drivers[n].now, n, due[k]);
    }
  }

  lemma {:induction false} RunKeepsOnlyArmed(cfg: Config, s: State, steps: seq<Step>)
    requires AdvancesPastNow(cfg) && WindowInv(s) && OnlyArmed(s.jobs, s) && Exec(cfg, s, steps).Some?
    ensures OnlyArmed(s.jobs, Exec(cfg, s, steps).value)
  {
    hide Do, WindowInv, AdvancesPastNow, OnlyArmed;
    if steps != [] {
      var prefix := steps[..|steps| - 1];
      RunKeepsOnlyArmed(cfg, s, prefix);
      RunKeepsWindowInv(cfg, s, prefix);
      StepKeepsOnlyArmed(cfg, s.jobs, Exec(cfg, s, prefix).value, steps[|steps| - 1]);
    }
  }

  lemma TwiceMeansShared(cfg: Config, s: State, steps: seq<Step>, id: nat)
    requires AdvancesPastNow(cfg) && Init(s) && Exec(cfg, s, steps).Some?
    requires FiresTwice(Exec(cfg, s, steps).value.fires, id)
    ensures Shared(s, id)
  {
    hide Exec, AdvancesPastNow, OnlyArmed, JobsMoveOn, FiresOk, RowsOk, ForNode, Armed;
    InitKeepsWindows(s);
    RunKeepsWindowInv(cfg, s, steps);
    RunKeepsOnlyArmed(cfg, s, steps);
    var t := Exec(cfg, s, steps).value;
    var i,
        j :| 0 <= i < j < |t.fires| && t.fires[i].id == t.fires[j].id == id && t.fires[i].window == t.fires[j].window;
    FiredBy(s, t, t.fires[i]);
    FiredBy(s, t, t.fires[j]);
    DifferentFires(t, i, j);
  }

  lemma InitKeepsWindows(s: State)
    requires Init(s)
    ensures WindowInv(s) && OnlyArmed(s.jobs, s)
  {}

  lemma FiredBy(s: State, t: State, f: Fire)
    requires FiresOk(t) && OnlyArmed(s.jobs, t) && JobsMoveOn(s.jobs, t.jobs) && t.drivers.Keys == s.drivers.Keys
      && f in t.fires
    ensures Armed(s.jobs, f.id) && f.node in s.drivers && ForNode(s, f.id, f.node)
  {}

  lemma DifferentFires(t: State, i: nat, j: nat)
    requires FiresOk(t) && i < j < |t.fires|
    ensures t.fires[i] != t.fires[j]
  {}

  // ---------------------------------------------------------------------------
  // A shared job can fire twice
  // ---------------------------------------------------------------------------

  lemma {:induction false} DueListOf(jobs: map<nat, Job>, now: int, n: string, left: set<nat>) returns (due: seq<Entry>)
    requires forall id :: id in left ==> id in jobs && Due(jobs[id], now, n)
    ensures forall k :: 0 <= k < |due| ==> IsRow(jobs, now, n, due[k]) && due[k].id in left
    ensures forall id :: id in left ==> Listed(due, id)
    ensures forall j, k :: 0 <= j < k < |due| ==> due[j].id != due[k].id && due[j].window <= due[k].window
    decreases left
  {
    due := [];
    if left != {} {
      CronTick.EarliestExists(jobs, left);
      var id :| id in left && forall o :: o in left ==> jobs[id].next.value <= jobs[o].next.value;
      var rest := DueListOf(jobs, now, n, left - {id});
      due := [Entry(id, jobs[id].next.value, jobs[id].database)] + rest;
      forall o | o in left ensures Listed(due, o) {
        if o == id {
          assert due[0].id == id;
        } else {
          assert o in left - {id} && Listed(rest, o);
          var k :| 0 <= k < |rest| && rest[k].id == o;
          assert due[k + 1].id == o;
        }
      }
    }
  }

  /** The due query has an answer, and a due job is in it with its window. */
  lemma DueListWith(jobs: map<nat, Job>, now: int, n: string, id: nat) returns (due: seq<Entry>, k: nat)
    requires id in jobs && Due(jobs[id], now, n)
    ensures IsDueList(jobs, now, n, due) && k < |due| && due[k].id == id && due[k].window == jobs[id].next.value
  {
    due := DueListOf(jobs, now, n, set o | o in jobs && Due(jobs[o], now, n));
    assert Listed(due, id);
    k :| 0 <= k < |due| && due[k].id == id;
    assert IsRow(jobs, now, n, due[k]);
  }

  /** A run under way: the steps so far and the state they lead to. */
  datatype Way = Way(steps: seq<Step>, at: State)

  ghost predicate IsWay(cfg: Config, s: State, w: Way) {
    Exec(cfg, s, w.steps) == Some(w.at)
  }

  lemma NothingYet(cfg: Config, s: State)
    ensures IsWay(cfg, s, Way([], s))
  {}

  lemma WayRuns(cfg: Config, s: State, w: Way)
    requires IsWay(cfg, s, w)
    ensures Exec(cfg, s, w.steps) == Some(w.at)
  {}

  lemma Go(cfg: Config, s: State, w: Way, e: Step) returns (v: Way)
    requires IsWay(cfg, s, w) && Enabled(cfg, w.at, e)
    ensures IsWay(cfg, s, v) && v.at == Do(cfg, w.at, e) && v.steps == w.steps + [e]
  {
    Extend(cfg, s, w.steps, w.at, e);
    v := Way(w.steps + [e], Do(cfg, w.at, e));
  }

  ghost predicate At(t: State, n: string, now: int, due: seq<Entry>, k: nat) {
    n in t.drivers && t.drivers[n] == Driver(AtJob, now, due, k)
  }

  /** Nobody but `n` has moved, and no lease but that of the rows `n` worked on has changed. */
  ghost predicate Alone(t: State, u: State, n: string) {
    t.drivers.Keys == u.drivers.Keys && forall m :: m in t.drivers && m != n ==> u.drivers[m] == t.drivers[m]
  }

  /** A driver works through a row whose lease is free: acquire, run, record, release. */
  lemma RunsRow(cfg: Config, s: State, w: Way, n: string, now: int, due: seq<Entry>, k: nat) returns (v: Way)
    requires IsWay(cfg, s, w) && k < |due| && At(w.at, n, now, due, k) && CanAcquire(w.at.leases, due[k].id, now)
    ensures IsWay(cfg, s, v) && At(v.at, n, now, due, k + 1) && Alone(w.at, v.at, n)
    ensures v.at.fires == w.at.fires + [Fire(n, due[k].id, due[k].window)]
    ensures due[k].id in v.at.leases && v.at.leases[due[k].id].expiresAt == 0
    ensures forall id :: id != due[k].id ==> (id in v.at.leases <==> id in w.at.leases)
    ensures forall id :: id != due[k].id && id in w.at.leases ==> v.at.leases[id] == w.at.leases[id]
  {
    hide IsWay;
    v := Go(cfg, s, w, By(n, Acquire));
    v := Go(cfg, s, v, By(n, RunJob));
    v := Go(cfg, s, v, By(n, Record(true, false)));
    v := Go(cfg, s, v, By(n, Release));
  }

  /** A driver gets from one row to a later one, whether the leases between are free or not. */
  lemma {:induction false} PassesRows(cfg: Config, s: State, w: Way, n: string, now: int, due: seq<Entry>, k: nat,
      to: nat) returns (v: Way)
    requires IsWay(cfg, s, w) && k <= to < |due| && At(w.at, n, now, due, k) && CanAcquire(w.at.leases, due[to].id, now)
    requires CronTick.DistinctIds(due)
    ensures IsWay(cfg, s, v) && At(v.at, n, now, due, to) && Alone(w.at, v.at, n)
    ensures w.at.fires <= v.at.fires && CanAcquire(v.at.leases, due[to].id, now)
    decreases |due| - k
  {
    hide IsWay, Do, Enabled;
    v := w;
    if k < to {
      assert due[k].id != due[to].id;
      var u := w;
      if CanAcquire(w.at.leases, due[k].id, now) {
        u := RunsRow(cfg, s, w, n, now, due, k);
      } else {
        u := SkipsRow(cfg, s, w, n, now, due, k);
      }
      v := PassesRows(cfg, s, u, n, now, due, k + 1, to);
    }
  }

  lemma SkipsRow(cfg: Config, s: State, w: Way, n: string, now: int, due: seq<Entry>, k: nat) returns (v: Way)
    requires IsWay(cfg, s, w) && k < |due| && At(w.at, n, now, due, k) && !CanAcquire(w.at.leases, due[k].id, now)
    ensures IsWay(cfg, s, v) && At(v.at, n, now, due, k + 1) && Alone(w.at, v.at, n)
    ensures v.at.fires == w.at.fires && v.at.leases == w.at.leases
  {
    hide IsWay;
    v := Go(cfg, s, w, By(n, Acquire));
  }

  ghost predicate HasList(t: State, n: string, now: int, due: seq<Entry>) {
    n in t.drivers && t.drivers[n] == Driver(HasRead, now, due, 0)
  }

  /** From the answer of the due query to the end of row `k`. */
  lemma FiresRow(cfg: Config, s: State, w: Way, n: string, now: int, due: seq<Entry>, k: nat) returns (v: Way)
    requires IsWay(cfg, s, w) && HasList(w.at, n, now, due) && k < |due| && CanAcquire(w.at.leases, due[k].id, now)
      && now >= 0
    requires CronTick.DistinctIds(due)
    ensures IsWay(cfg, s, v) && Alone(w.at, v.at, n) && CanAcquire(v.at.leases, due[k].id, now)
    ensures w.at.fires <= v.at.fires && v.at.fires != []
      && v.at.fires[|v.at.fires| - 1] == Fire(n, due[k].id, due[k].window)
    ensures |w.at.fires| < |v.at.fires|
  {
    hide IsWay, Do, Enabled;
    var u := Advances(cfg, s, w, n, now, due);
    u := PassesRows(cfg, s, u, n, now, due, 0, k);
    v := RunsRow(cfg, s, u, n, now, due, k);
  }

  lemma Advances(cfg: Config, s: State, w: Way, n: string, now: int, due: seq<Entry>) returns (v: Way)
    requires IsWay(cfg, s, w) && HasList(w.at, n, now, due) && due != []
    ensures IsWay(cfg, s, v) && At(v.at, n, now, due, 0) && Alone(w.at, v.at, n) && v.at.leases == w.at.leases
      && v.at.fires == w.at.fires
  {
    hide IsWay, Advanced;
    v := Go(cfg, s, w, By(n, PreAdvance));
  }

  /** A driver starts its tick and reads its list, the others and the tables untouched. */
  lemma Reads(cfg: Config, s: State, w: Way, n: string, due: seq<Entry>) returns (v: Way)
    requires IsWay(cfg, s, w) && n in w.at.drivers && w.at.drivers[n].pc == Idle
      && IsDueList(w.at.jobs, w.at.clock, n, due)
    ensures IsWay(cfg, s, v) && HasList(v.at, n, w.at.clock, due)
    ensures v.at == w.at.(drivers := v.at.drivers) && Alone(w.at, v.at, n)
  {
    hide IsWay, IsDueList;
    v := Go(cfg, s, w, By(n, Start));
    v := Go(cfg, s, v, By(n, ReadDue(due)));
  }

  /** Both drivers read the job before either advances it, and the second acquires the lease the
      first has released: the window fires twice, without any crash or slow job, whatever else
      the tables hold. */
  lemma TwoDriversCanFireOneWindow(cfg: Config, s: State, id: nat, m: string, n: string) returns (steps: seq<Step>)
    requires Init(s) && Armed(s.jobs, id) && m in s.drivers && n in s.drivers && m != n && ForNode(s, id, m)
      && ForNode(s, id, n)
    ensures Exec(cfg, s, steps).Some? && FiresTwice(Exec(cfg, s, steps).value.fires, id)
  {
    hide IsWay, Exec, Do, IsDueList;
    var next := s.jobs[id].next.value;
    var late := if id in s.leases && s.leases[id].expiresAt > next then s.leases[id].expiresAt else next;
    var now := if s.clock > late then s.clock else late;
    now := if now < 0 then 0 else now;
    var w := Way([], s);
    assert IsWay(cfg, s, w) by { NothingYet(cfg, s); }
    w := Wait(cfg, s, w, now);
    var dueM, i := DueListWith(s.jobs, now, m, id);
    var dueN, j := DueListWith(s.jobs, now, n, id);
    w := Reads(cfg, s, w, m, dueM);
    w := Reads(cfg, s, w, n, dueN);
    assert HasList(w.at, m, now, dueM);
    CronTick.DueListHasDistinctIds(s.jobs, now, m, dueM);
    CronTick.DueListHasDistinctIds(s.jobs, now, n, dueN);
    var u := FiresRow(cfg, s, w, m, now, dueM, i);
    var v := FiresRow(cfg, s, u, n, now, dueN, j);
    steps := v.steps;
    var p, q := |u.at.fires| - 1, |v.at.fires| - 1;
    assert v.at.fires[p] == u.at.fires[p];
    assert FiresTwice(v.at.fires, id);
    WayRuns(cfg, s, v);
  }

  lemma Wait(cfg: Config, s: State, w: Way, now: int) returns (v: Way)
    requires IsWay(cfg, s, w) && w.at.clock <= now
    ensures IsWay(cfg, s, v) && v.at == w.at.(clock := now)
  {
    hide IsWay;
    v := Go(cfg, s, w, Clock(now));
  }
}
