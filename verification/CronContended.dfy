/** Who holds the lease of a contended row
    (crates/ducklink-host/src/cron_cli.rs:1043-1068, 1082-1094, 1131-1140). */
module CronContended {
  import opened Wrappers
  import opened CronProtocol
  import opened CronTick
  import CronDouble

  /** The driver itself holds an unexpired lease on the job, left from an earlier tick. */
  predicate HoldsLive(s: State, n: string, id: nat) {
    id in s.leases && s.leases[id].holder == n && s.leases[id].expiresAt > s.clock
  }

  /** The code takes a contended row for one that another driver holds. In a completed tick that is
      so exactly unless the driver held the lease unexpired when the tick began and nobody has taken
      it over since, which nobody can before it expires. */
  lemma ContendedByAnotherExactlyWhen(cfg: Config, s: State, t: State, n: string, l: TickLog, k: nat)
    requires Completed(cfg, s, t, n, l) && k < |l.due| && l.outcomes[k].Contended?
    ensures var (id, a) := (l.due[k].id, l.asked[k].leases);
      && id in a && a[id].expiresAt > s.clock
      && (a[id].holder != n <==> !(HoldsLive(s, n, id) && a[id] == s.leases[id]))
      && (!HoldsLive(s, n, id) ==> a[id].holder != n)
      && (HoldsLive(s, n, id) && l.asked[k].clock < s.leases[id].expiresAt ==> a[id].holder == n)
  {
    hide FiresBy, TakenAt, Leased, RowSettled, IsDueList;
    assert RowDone(cfg, s, t, l.steps, n, s.clock, l.due, k, l.outcomes[k], l.asked[k]);
  }

  // ---------------------------------------------------------------------------
  // What leaves a lease behind
  // ---------------------------------------------------------------------------

  /** The three ways to leave a row without releasing it. */
  predicate LeavesLease(act: Action) {
    act.UseFails? || act.ReleaseFails? || act.Crash?
  }

  predicate Tidy(acts: seq<Action>) {
    forall a :: a in acts ==> !LeavesLease(a)
  }

  /** A lease of `n` in `t` is free, as it was in `s`, or of the row `n` is working on. */
  ghost predicate NothingLeft(s: State, t: State, n: string) {
    n in t.drivers
    && forall id :: id in t.leases && t.leases[id].holder == n ==>
         || t.leases[id].expiresAt == 0
         || (id in s.leases && t.leases[id] == s.leases[id])
         || (Holding(t.drivers[n]) && HeldJob(t, n) == id)
  }

  lemma OwnActLeavesNothing(cfg: Config, s: State, t: State, n: string, act: Action)
    requires NothingLeft(s, t, n) && CanAct(cfg, t, n, act) && !LeavesLease(act)
    requires Holding(t.drivers[n]) <==> t.drivers[n].pc in {Acquired, Fired, Recorded}
    ensures NothingLeft(s, Act(cfg, t, n, act), n)
  {
    hide SetStatus, Advanced, IsDueList;
  }

  ghost predicate InRow(t: State, n: string) {
    n in t.drivers && (t.drivers[n].pc in {Acquired, Fired, Recorded} ==> t.drivers[n].at < |t.drivers[n].due|)
  }

  lemma ActStaysInRow(cfg: Config, t: State, n: string, act: Action)
    requires InRow(t, n) && CanAct(cfg, t, n, act)
    ensures InRow(Act(cfg, t, n, act), n)
  {
    hide SetStatus, Advanced, IsDueList;
  }

  /** A lease that a driver finds itself holding between two rows, though it held none at the start,
      was left by a failed catalog switch, a failed release or a crash. */
  lemma {:induction false} LeftoversHaveACause(cfg: Config, s: State, steps: seq<Step>, n: string)
    requires LeaseInv(cfg, s) && n in s.drivers && s.drivers[n].pc == Idle
    requires Exec(cfg, s, steps).Some? && Tidy(Own(steps, n))
    ensures var t := Exec(cfg, s, steps).value; LeaseInv(cfg, t) && NothingLeft(s, t, n) && InRow(t, n)
  {
    hide Do, LeaseInv, NothingLeft, InRow, Rely, Act;
    if steps == [] {
      AtTheStart(s, n);
    } else {
      var before, e := steps[..|steps| - 1], steps[|steps| - 1];
      OwnOfLast(steps, n);
      LeftoversHaveACause(cfg, s, before, n);
      var t := Exec(cfg, s, before).value;
      InRowHasDriver(t, n);
      StepKeepsLeaseInv(cfg, t, e);
      if e.By? && e.n == n {
        assert e.act in Own(steps, n);
        OwnStepLeavesNothing(cfg, s, t, n, e.act);
      } else {
        OtherStepRely(cfg, t, e, n);
        OthersLeaveNothing(s, t, Do(cfg, t, e), n);
      }
    }
  }

  lemma AtTheStart(s: State, n: string)
    requires n in s.drivers && s.drivers[n].pc == Idle
    ensures NothingLeft(s, s, n) && InRow(s, n)
  {}

  lemma InRowHasDriver(t: State, n: string)
    requires InRow(t, n)
    ensures n in t.drivers
  {}

  lemma OwnOfLast(steps: seq<Step>, n: string)
    requires steps != []
    ensures var e := steps[|steps| - 1];
      Own(steps, n) == Own(steps[..|steps| - 1], n) + (if e.By? && e.n == n then [e.act] else [])
    ensures Tidy(Own(steps, n)) ==> Tidy(Own(steps[..|steps| - 1], n))
  {}

  lemma OwnStepLeavesNothing(cfg: Config, s: State, t: State, n: string, act: Action)
    requires NothingLeft(s, t, n) && InRow(t, n) && Enabled(cfg, t, By(n, act)) && !LeavesLease(act)
    ensures NothingLeft(s, Do(cfg, t, By(n, act)), n) && InRow(Do(cfg, t, By(n, act)), n)
  {
    OwnActLeavesNothing(cfg, s, t, n, act);
    ActStaysInRow(cfg, t, n, act);
  }

  lemma OthersLeaveNothing(s: State, t: State, u: State, n: string)
    requires NothingLeft(s, t, n) && InRow(t, n) && Rely(t, u, n)
    ensures NothingLeft(s, u, n) && InRow(u, n)
  {
    hide FiresBy;
  }

  /** So a driver that starts without leases, and whose switches and releases never fail, contends
      with other drivers only. */
  lemma TidyDriverContendsWithOthers(cfg: Config, s0: State, steps: seq<Step>, t: State, n: string, l: TickLog, k: nat)
    requires LeaseInv(cfg, s0) && n in s0.drivers && s0.drivers[n].pc == Idle
    requires forall id :: id in s0.leases ==> s0.leases[id].holder != n
    requires Exec(cfg, s0, steps).Some? && Tidy(Own(steps, n))
    requires var s := Exec(cfg, s0,
        steps).value; s.clock >= 0 && n in s.drivers && s.drivers[n].pc == Idle && Completed(cfg, s, t, n, l)
    requires k < |l.due| && l.outcomes[k].Contended?
    ensures l.due[k].id in l.asked[k].leases && l.asked[k].leases[l.due[k].id].holder != n
  {
    hide Exec, LeaseInv, Completed, InRow;
    LeftoversHaveACause(cfg, s0, steps, n);
    WholeLog(cfg, Exec(cfg, s0, steps).value, t, n, l);
    ContendedByAnotherExactlyWhen(cfg, Exec(cfg, s0, steps).value, t, n, l, k);
  }

  lemma WholeLog(cfg: Config, s: State, t: State, n: string, l: TickLog)
    requires Completed(cfg, s, t, n, l)
    ensures |l.outcomes| == |l.asked| == |l.due|
  {}

  // ---------------------------------------------------------------------------
  // A driver contends with itself
  // ---------------------------------------------------------------------------

  const CATALOG := "other"

  ghost function OneDriver(now: int): State {
    var job := Job("* * * * *", "skip", true, Some(now), None, CATALOG, None, Unset);
    State(now, map[0 := job], map[], [], map["n" := Driver(Idle, 0, [], 0)], [])
  }

  predicate IsCause(acts: seq<Action>) {
    acts == [Crash] || acts == [UseFails(false), Finish] || acts == [RunJob, Record(true, false), ReleaseFails, Finish]
  }

  /** One action of the driver. */
  lemma Acts(cfg: Config, s: State, w: CronDouble.Way, act: Action) returns (v: CronDouble.Way)
    requires CronDouble.IsWay(cfg, s, w) && CanAct(cfg, w.at, "n", act)
    ensures CronDouble.IsWay(cfg, s, v) && v.at == Act(cfg, w.at, "n", act)
    ensures Own(v.steps, "n") == Own(w.steps, "n") + [act]
  {
    hide CronDouble.IsWay;
    v := CronDouble.Go(cfg, s, w, By("n", act));
    assert v.steps[..|w.steps|] == w.steps;
  }

  lemma Passes(cfg: Config, s: State, w: CronDouble.Way, now: int) returns (v: CronDouble.Way)
    requires CronDouble.IsWay(cfg, s, w) && w.at.clock <= now
    ensures CronDouble.IsWay(cfg, s, v) && v.at == w.at.(clock := now) && Own(v.steps, "n") == Own(w.steps, "n")
  {
    hide CronDouble.IsWay;
    v := CronDouble.Go(cfg, s, w, Clock(now));
    assert v.steps[..|w.steps|] == w.steps;
  }

  function TickUpTo(window: int): seq<Action> {
    [Start, ReadDue([Entry(0, window, CATALOG)]), PreAdvance, Action.Acquire]
  }

  /** The tick up to the acquire. */
  lemma Acquires(cfg: Config, s: State, w: CronDouble.Way, window: int) returns (v: CronDouble.Way)
    requires CronDouble.IsWay(cfg, s, w) && "n" in w.at.drivers && w.at.drivers["n"].pc == Idle && w.at.clock == window
    requires IsDueList(w.at.jobs, window, "n", [Entry(0, window, CATALOG)])
    ensures CronDouble.IsWay(cfg, s, v) && Own(v.steps, "n") == Own(w.steps, "n") + TickUpTo(window)
    ensures var d := Driver(AtJob, window, [Entry(0, window, CATALOG)], 0);
      && v.at.jobs == Advanced(cfg, w.at.jobs, window, "n") && v.at.clock == window
      && v.at.leases == AcquireRow(cfg, w.at.leases, 0, "n", window)
      && v.at.drivers ==
           w.at.drivers["n" := if CanAcquire(w.at.leases, 0, window) then d.(pc := Acquired) else d.(at := 1)]
  {
    hide CronDouble.IsWay, IsDueList, Advanced, Own;
    v := Acts(cfg, s, w, Start);
    v := Acts(cfg, s, v, ReadDue([Entry(0, window, CATALOG)]));
    v := Acts(cfg, s, v, PreAdvance);
    v := Acts(cfg, s, v, Action.Acquire);
  }

  /** The tick ends without a release. */
  lemma Leaves(cfg: Config, s: State, w: CronDouble.Way, due: seq<Entry>, now: int, cause: seq<Action>)
    returns (v: CronDouble.Way)
    requires CronDouble.IsWay(cfg, s, w) && IsCause(cause) && |due| == 1 && due[0].database != ""
    requires "n" in w.at.drivers && w.at.drivers["n"] == Driver(Acquired, now, due, 0)
    ensures CronDouble.IsWay(cfg, s, v) && Own(v.steps, "n") == Own(w.steps, "n") + cause
    ensures v.at == w.at.(drivers := w.at.drivers["n" := Driver(Idle, 0, [], 0)], fires := v.at.fires)
  {
    hide CronDouble.IsWay, Own, Act, CanAct;
    if cause == [Crash] {
      CrashLeaves(cfg, w.at, due, now);
      v := Acts(cfg, s, w, Crash);
    } else if cause == [UseFails(false), Finish] {
      SwitchLeaves(cfg, w.at, due, now);
      v := Acts(cfg, s, w, UseFails(false));
      v := Acts(cfg, s, v, Finish);
    } else {
      v := LeavesByRelease(cfg, s, w, due, now);
    }
  }

  lemma CrashLeaves(cfg: Config, t: State, due: seq<Entry>, now: int)
    requires "n" in t.drivers && t.drivers["n"] == Driver(Acquired, now, due, 0)
    ensures CanAct(cfg, t, "n", Crash)
      && Act(cfg, t, "n", Crash) == t.(drivers := t.drivers["n" := Driver(Idle, 0, [], 0)])
  {}

  lemma SwitchLeaves(cfg: Config, t: State, due: seq<Entry>, now: int)
    requires |due| == 1 && due[0].database != "" && "n" in t.drivers && t.drivers["n"] == Driver(Acquired, now, due, 0)
    ensures CanAct(cfg, t, "n", UseFails(false))
    ensures var u := Act(cfg, t, "n", UseFails(false));
      && u == t.(drivers := t.drivers["n" := Driver(AtJob, now, due, 1)])
      && CanAct(cfg, u, "n", Finish)
        && Act(cfg, u, "n", Finish) == t.(drivers := t.drivers["n" := Driver(Idle, 0, [], 0)])
  {
    FinishLeaves(cfg, t.(drivers := t.drivers["n" := Driver(AtJob, now, due, 1)]), due, now);
  }

  lemma FinishLeaves(cfg: Config, t: State, due: seq<Entry>, now: int)
    requires |due| == 1 && "n" in t.drivers && t.drivers["n"] == Driver(AtJob, now, due, 1)
    ensures CanAct(cfg, t, "n", Finish)
      && Act(cfg, t, "n", Finish) == t.(drivers := t.drivers["n" := Driver(Idle, 0, [], 0)])
  {}

  lemma LeavesByRelease(cfg: Config, s: State, w: CronDouble.Way, due: seq<Entry>, now: int) returns (v: CronDouble.Way)
    requires CronDouble.IsWay(cfg, s, w) && |due| == 1
    requires "n" in w.at.drivers && w.at.drivers["n"] == Driver(Acquired, now, due, 0)
    ensures CronDouble.IsWay(cfg, s, v)
    ensures Own(v.steps, "n") == Own(w.steps, "n") + [RunJob, Record(true, false), ReleaseFails, Finish]
    ensures v.at == w.at.(drivers := w.at.drivers["n" := Driver(Idle, 0, [], 0)], fires := v.at.fires)
  {
    hide CronDouble.IsWay, Own;
    v := Acts(cfg, s, w, RunJob);
    v := Acts(cfg, s, v, Record(true, false));
    v := Acts(cfg, s, v, ReleaseFails);
    v := Acts(cfg, s, v, Finish);
  }

  lemma OnlyRowIsDue(cfg: Config, now: int, later: int)
    requires cfg.advance("* * * * *", now, now, "skip") == Some(later)
    ensures IsDueList(OneDriver(now).jobs, now, "n", [Entry(0, now, CATALOG)])
    ensures IsDueList(Advanced(cfg, OneDriver(now).jobs, now, "n"), later, "n", [Entry(0, later, CATALOG)])
  {
    assert [Entry(0, now, CATALOG)][0].id == 0 && [Entry(0, later, CATALOG)][0].id == 0;
  }

  /** With a single driver at all, whichever of the three left the lease, its next tick before the
      lease runs out finds the row contended, by itself. */
  lemma DriverContendsWithItself(cfg: Config, now: int, later: int, cause: seq<Action>) returns (w: CronDouble.Way)
    requires IsCause(cause) && now < later < now + cfg.ttl("n")
    requires cfg.advance("* * * * *", now, now, "skip") == Some(later)
    ensures Init(OneDriver(now)) && OneDriver(now).drivers.Keys == {"n"}
    ensures Exec(cfg, OneDriver(now), w.steps) == Some(w.at)
    ensures Own(w.steps, "n") == TickUpTo(now) + cause + TickUpTo(later)
    ensures w.at.drivers == map["n" := Driver(AtJob, later, [Entry(0, later, CATALOG)], 1)]
    ensures w.at.leases == map[0 := Lease("n", now, now + cfg.ttl("n"))]
  {
    hide CronDouble.IsWay, IsDueList, Advanced, Own, Exec;
    var s, due := OneDriver(now), [Entry(0, now, CATALOG)];
    OnlyRowIsDue(cfg, now, later);
    CronDouble.NothingYet(cfg, s);
    NoOwn("n");
    w := Acquires(cfg, s, CronDouble.Way([], s), now);
    w := Leaves(cfg, s, w, due, now, cause);
    w := Passes(cfg, s, w, later);
    w := Acquires(cfg, s, w, later);
    CronDouble.WayRuns(cfg, s, w);
  }
}
