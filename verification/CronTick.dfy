/** `tick_body` as the code runs it: one driver's loop over its due rows, with every other
    driver free to act between any two of its statements
    (crates/ducklink-host/src/cron_cli.rs:949-1146). Each statement is a step of the protocol
    in `CronProtocol`, so what is proved there of every run holds of this loop. */
module CronTick {
  import opened Wrappers
  import opened CronProtocol

  datatype TickOutcome = TickOutcome(fired: nat, contended: nat)

  /** What became of one due row in a tick, and whether its statements were heard of. */
  datatype RowOutcome = Contended | Skipped(saved: bool) | Ran(ok: bool, saved: bool, released: bool)

  ghost predicate OthersOnly(steps: seq<Step>, n: string) {
    forall e :: e in steps && e.By? ==> e.n != n
  }

  /** The executions of one driver, in order. */
  ghost function FiresBy(fires: seq<Fire>, n: string): seq<Fire> {
    if fires == [] then []
    else FiresBy(fires[..|fires| - 1], n) + (if fires[|fires| - 1].node == n then [fires[|fires| - 1]] else [])
  }

  /** What the other drivers and the clock leave driver `n` with. */
  ghost predicate Rely(s: State, t: State, n: string) {
    && n in s.drivers && n in t.drivers && t.drivers[n] == s.drivers[n]
    && s.clock <= t.clock && s.leases.Keys <= t.leases.Keys
    && (forall id :: id in t.leases && t.leases[id].holder == n ==> id in s.leases && s.leases[id] == t.leases[id])
    && (forall id :: id in s.leases && s.leases[id].holder == n ==>
          id in t.leases && (t.leases[id] == s.leases[id] || s.leases[id].expiresAt <= t.clock))
    && FiresBy(t.fires, n) == FiresBy(s.fires, n)
  }

  lemma RelyReflexive(s: State, n: string)
    requires n in s.drivers
    ensures Rely(s, s, n)
  {}

  lemma RelyHasDriver(s: State, t: State, n: string)
    requires Rely(s, t, n)
    ensures n in t.drivers && t.drivers[n] == s.drivers[n]
  {}

  lemma RelyTransitive(s: State, t: State, u: State, n: string)
    requires Rely(s, t, n) && Rely(t, u, n)
    ensures Rely(s, u, n)
  {}

  lemma {:induction false} OthersRely(cfg: Config, s: State, steps: seq<Step>, n: string)
    requires LeaseInv(cfg, s) && n in s.drivers && OthersOnly(steps, n) && Exec(cfg, s, steps).Some?
    ensures Rely(s, Exec(cfg, s, steps).value, n) && LeaseInv(cfg, Exec(cfg, s, steps).value)
  {
    hide Do, LeaseInv, Rely;
    RelyReflexive(s, n);
    if steps != [] {
      var prefix, e := steps[..|steps| - 1], steps[|steps| - 1];
      OthersRely(cfg, s, prefix, n);
      var t := Exec(cfg, s, prefix).value;
      assert n in t.drivers by { RelyHasDriver(s, t, n); }
      assert e in steps;
      OtherStepRely(cfg, t, e, n);
      StepKeepsLeaseInv(cfg, t, e);
      RelyTransitive(s, t, Do(cfg, t, e), n);
    }
  }

  lemma OtherStepRely(cfg: Config, s: State, e: Step, n: string)
    requires LeaseInv(cfg, s) && n in s.drivers && Enabled(cfg, s, e) && (e.By? ==> e.n != n)
    ensures Rely(s, Do(cfg, s, e), n)
  {
    if e.By? {
      match e.act {
        case Acquire => AcquireRely(cfg, s, e.n, n);
        case Release => ReleaseRely(cfg, s, e.n, n);
        case RunJob =>
          var t := Do(cfg, s, e);
          assert t.fires[..|t.fires| - 1] == s.fires;
        case _ =>
      }
    }
  }

  lemma AcquireRely(cfg: Config, s: State, m: string, n: string)
    requires LeaseInv(cfg, s) && n in s.drivers && CanAct(cfg, s, m, Acquire) && m != n
    ensures Rely(s, Act(cfg, s, m, Acquire), n)
  {
    assert LeaseOk(cfg, s, m);
  }

  lemma ReleaseRely(cfg: Config, s: State, m: string, n: string)
    requires LeaseInv(cfg, s) && n in s.drivers && CanAct(cfg, s, m, Release) && m != n
    ensures Rely(s, Act(cfg, s, m, Release), n)
  {}

  lemma {:induction false} ExecConcat(cfg: Config, s: State, steps: seq<Step>, more: seq<Step>)
    requires Exec(cfg, s, steps).Some? && Exec(cfg, Exec(cfg, s, steps).value, more).Some?
    ensures Exec(cfg, s, steps + more) == Exec(cfg, Exec(cfg, s, steps).value, more)
  {
    if more == [] {
      assert steps + more == steps;
    } else {
      ExecConcat(cfg, s, steps, more[..|more| - 1]);
      assert (steps + more)[..|steps + more| - 1] == steps + more[..|more| - 1];
    }
  }

  // ---------------------------------------------------------------------------
  // What a tick leaves behind
  // ---------------------------------------------------------------------------

  /** The driver's lease of a row it took: still its own, or its time is over. */
  ghost predicate HeldRow(cfg: Config, s: State, n: string, now: int, e: Entry) {
    e.id in s.leases && (s.leases[e.id] == Lease(n, now, now + cfg.ttl(n)) || now + cfg.ttl(n) <= s.clock)
  }

  /** A released row is free, or someone else's by now. */
  ghost predicate ReleasedRow(s: State, n: string, e: Entry) {
    e.id in s.leases && (s.leases[e.id].holder != n || s.leases[e.id].expiresAt == 0)
  }

  /** What an outcome leaves of the row this driver took; it took none if the row was contended. */
  ghost predicate RowSettled(cfg: Config, s: State, n: string, now: int, e: Entry, o: RowOutcome) {
    match o
    case Contended => true
    case Skipped(_) => HeldRow(cfg, s, n, now, e)
    case Ran(_, _, released) => if released then ReleasedRow(s, n, e) else HeldRow(cfg, s, n, now, e)
  }

  /** The statements of one row, in order. */
  function RowActions(o: RowOutcome): seq<Action> {
    match o
    case Contended => [Action.Acquire]
    case Skipped(saved) => [Action.Acquire, UseFails(saved)]
    case Ran(ok, saved, released) =>
      [Action.Acquire, RunJob, Record(ok, saved), if released then Release else ReleaseFails]
  }

  function RowsActions(outcomes: seq<RowOutcome>): seq<Action> {
    if outcomes == [] then [] else
    RowsActions(outcomes[..|outcomes| - 1]) + RowActions(outcomes[|outcomes| - 1])
  }

  /** The statements of a whole tick: the due list, the pre-advance, every row in order; for an
      empty list nothing more. */
  function TickActions(due: seq<Entry>, outcomes: seq<RowOutcome>): seq<Action> {
    if due == [] then [Start, ReadDue([]), Finish]
    else [Start, ReadDue(due), PreAdvance] + RowsActions(outcomes) + [Finish]
  }

  /** The actions of driver `n` in a run, in order. */
  function Own(steps: seq<Step>, n: string): seq<Action> {
    if steps == [] then [] else
    var e := steps[|steps| - 1];
    Own(steps[..|steps| - 1], n) + (if e.By? && e.n == n then [e.act] else [])
  }

  lemma {:induction false} OwnConcat(a: seq<Step>, b: seq<Step>, n: string)
    ensures Own(a + b, n) == Own(a, n) + Own(b, n)
  {
    if b == [] {
      assert a + b == a;
    } else {
      assert (a + b)[..|a + b| - 1] == a + b[..|b| - 1];
      OwnConcat(a, b[..|b| - 1], n);
    }
  }

  lemma {:induction false} OwnOfOthers(steps: seq<Step>, n: string)
    requires OthersOnly(steps, n)
    ensures Own(steps, n) == []
  {
    if steps != [] {
      assert steps[|steps| - 1] in steps;
      OwnOfOthers(steps[..|steps| - 1], n);
    }
  }

  /** One own action, after the others have run for a while. */
  lemma OwnTurn(others: seq<Step>, n: string, act: Action)
    requires OthersOnly(others, n)
    ensures Own(others + [By(n, act)], n) == [act]
  {
    OwnOfOthers(others, n);
    assert (others + [By(n, act)])[..|others|] == others;
  }

  /** The run takes action `act` of driver `n` in state `t`. */
  ghost predicate TakenAt(cfg: Config, s: State, steps: seq<Step>, n: string, act: Action, t: State) {
    exists i :: 0 <= i < |steps| && steps[i] == By(n, act) && Exec(cfg, s, steps[..i]) == Some(t)
  }

  lemma TakenLast(cfg: Config, s: State, steps: seq<Step>, n: string, act: Action, t: State)
    requires Exec(cfg, s, steps) == Some(t)
    ensures TakenAt(cfg, s, steps + [By(n, act)], n, act, t)
  {
    var all := steps + [By(n, act)];
    assert all[|steps|] == By(n, act) && all[..|steps|] == steps;
  }

  lemma TakenStays(cfg: Config, s: State, steps: seq<Step>, more: seq<Step>, n: string, act: Action, t: State)
    requires TakenAt(cfg, s, steps, n, act, t)
    ensures TakenAt(cfg, s, steps + more, n, act, t)
  {
    var i :| 0 <= i < |steps| && steps[i] == By(n, act) && Exec(cfg, s, steps[..i]) == Some(t);
    assert (steps + more)[i] == steps[i] && (steps + more)[..i] == steps[..i];
  }

  lemma TakenLater(cfg: Config, s: State, steps: seq<Step>, u: State, more: seq<Step>, n: string, act: Action, t: State)
    requires Exec(cfg, s, steps) == Some(u) && TakenAt(cfg, u, more, n, act, t)
    ensures TakenAt(cfg, s, steps + more, n, act, t)
  {
    var i :| 0 <= i < |more| && more[i] == By(n, act) && Exec(cfg, u, more[..i]) == Some(t);
    var j := |steps| + i;
    assert (steps + more)[j] == more[i] && (steps + more)[..j] == steps + more[..i];
    ExecConcat(cfg, s, steps, more[..i]);
  }

  /** The run takes action `act` of driver `n` from state `u` to state `v`. */
  ghost predicate Passed(cfg: Config, s: State, steps: seq<Step>, n: string, act: Action, u: State, v: State) {
    exists i :: 0 <= i < |steps| && steps[i] == By(n, act)
      && Exec(cfg, s, steps[..i]) == Some(u) && Exec(cfg, s, steps[..i + 1]) == Some(v)
  }

  lemma PassedLast(cfg: Config, s: State, steps: seq<Step>, n: string, act: Action, u: State, v: State)
    requires Exec(cfg, s, steps) == Some(u) && Exec(cfg, s, steps + [By(n, act)]) == Some(v)
    ensures Passed(cfg, s, steps + [By(n, act)], n, act, u, v)
  {
    var all := steps + [By(n, act)];
    assert all[|steps|] == By(n, act) && all[..|steps|] == steps && all[..|steps| + 1] == all;
  }

  lemma PassedStays(cfg: Config, s: State, steps: seq<Step>, more: seq<Step>, n: string, act: Action,
      u: State, v: State)
    requires Passed(cfg, s, steps, n, act, u, v)
    ensures Passed(cfg, s, steps + more, n, act, u, v)
  {
    var i :| 0 <= i < |steps| && steps[i] == By(n, act)
      && Exec(cfg, s, steps[..i]) == Some(u) && Exec(cfg, s, steps[..i + 1]) == Some(v);
    var all := steps + more;
    assert all[i] == steps[i] && all[..i] == steps[..i] && all[..i + 1] == steps[..i + 1];
  }

  lemma PassedLater(cfg: Config, s: State, steps: seq<Step>, t: State, more: seq<Step>, n: string, act: Action,
      u: State, v: State)
    requires Exec(cfg, s, steps) == Some(t) && Passed(cfg, t, more, n, act, u, v)
    ensures Passed(cfg, s, steps + more, n, act, u, v)
  {
    hide Exec;
    var i :| 0 <= i < |more| && more[i] == By(n, act)
      && Exec(cfg, t, more[..i]) == Some(u) && Exec(cfg, t, more[..i + 1]) == Some(v);
    var all, j := steps + more, |steps| + i;
    assert all[j] == more[i] && all[..j] == steps + more[..i] && all[..j + 1] == steps + more[..i + 1];
    ExecConcat(cfg, s, steps, more[..i]);
    ExecConcat(cfg, s, steps, more[..i + 1]);
  }

  /** From `u` to `v` the outcome of job `id` is saved: its last status is `st`, and one run row
      with this time and `ok` is added; nothing is, unless `saved`. */
  ghost predicate Saves(u: State, v: State, id: nat, now: int, st: Status, ok: bool, saved: bool) {
    && v.runs == u.runs + (if saved then [RunRow(id, now, ok)] else [])
    && v.jobs.Keys == u.jobs.Keys
    && (forall j :: j in u.jobs ==>
          v.jobs[j] == if saved && j == id then u.jobs[j].(lastStatus := st) else u.jobs[j])
    && v.leases == u.leases && v.fires == u.fires && v.clock == u.clock
  }

  lemma RecordSaves(cfg: Config, s: State, n: string, ok: bool, saved: bool)
    requires CanAct(cfg, s, n, Record(ok, saved))
    ensures var d := s.drivers[n];
      Saves(s, Act(cfg, s, n, Record(ok, saved)), d.due[d.at].id, d.now, if ok then StatusFired else StatusFailed, ok,
        saved)
  {}

  lemma SkipSaves(cfg: Config, s: State, n: string, saved: bool)
    requires CanAct(cfg, s, n, UseFails(saved))
    ensures var d := s.drivers[n];
      Saves(s, Act(cfg, s, n, UseFails(saved)), d.due[d.at].id, d.now, StatusSkipped, false, saved)
  {}

  /** The record statement of row `k`, with the driver at that row: `fired` and a good run row for
      a job that succeeded, `failed` and a bad one for a job that failed, `skipped` and a bad one
      for a catalog that is missing. */
  ghost predicate OutcomeSaved(cfg: Config, s: State, steps: seq<Step>, n: string, now: int, due: seq<Entry>, k: nat,
      o: RowOutcome)
    requires k < |due|
  {
    match o
    case Contended => true
    case Skipped(saved) =>
      exists u, v :: Passed(cfg, s, steps, n, UseFails(saved), u, v)
        && n in u.drivers && u.drivers[n] == Driver(Acquired, now, due, k)
        && Saves(u, v, due[k].id, now, StatusSkipped, false, saved)
    case Ran(ok, saved, _) =>
      exists u, v :: Passed(cfg, s, steps, n, Record(ok, saved), u, v)
        && n in u.drivers && u.drivers[n] == Driver(Fired, now, due, k)
        && Saves(u, v, due[k].id, now, if ok then StatusFired else StatusFailed, ok, saved)
  }

  lemma ContendedSavesNothing(cfg: Config, s: State, steps: seq<Step>, n: string, now: int, due: seq<Entry>, k: nat)
    requires k < |due|
    ensures OutcomeSaved(cfg, s, steps, n, now, due, k, Contended)
  {}

  lemma SkipIsSaved(cfg: Config, s: State, steps: seq<Step>, t: State, more: seq<Step>, n: string, now: int,
      due: seq<Entry>, k: nat, saved: bool, u: State, v: State)
    requires k < |due| && Exec(cfg, s, steps) == Some(t) && Passed(cfg, t, more, n, UseFails(saved), u, v)
    requires n in u.drivers && u.drivers[n] == Driver(Acquired, now, due, k)
    requires Saves(u, v, due[k].id, now, StatusSkipped, false, saved)
    ensures OutcomeSaved(cfg, s, steps + more, n, now, due, k, Skipped(saved))
  {
    hide Passed, Saves;
    PassedLater(cfg, s, steps, t, more, n, UseFails(saved), u, v);
  }

  lemma OutcomeSavedStays(cfg: Config, s: State, steps: seq<Step>, more: seq<Step>, n: string, now: int,
      due: seq<Entry>, k: nat, o: RowOutcome)
    requires k < |due| && OutcomeSaved(cfg, s, steps, n, now, due, k, o)
    ensures OutcomeSaved(cfg, s, steps + more, n, now, due, k, o)
  {
    hide Passed, Saves;
    forall u, v, act | Passed(cfg, s, steps, n, act, u, v) ensures Passed(cfg, s, steps + more, n, act, u, v) {
      PassedStays(cfg, s, steps, more, n, act, u, v);
    }
  }

  lemma OutcomeSavedLater(cfg: Config, s: State, steps: seq<Step>, t: State, more: seq<Step>, n: string, now: int,
      due: seq<Entry>, k: nat, o: RowOutcome)
    requires k < |due| && Exec(cfg, s, steps) == Some(t) && OutcomeSaved(cfg, t, more, n, now, due, k, o)
    ensures OutcomeSaved(cfg, s, steps + more, n, now, due, k, o)
  {
    hide Passed, Saves;
    forall u, v, act | Passed(cfg, t, more, n, act, u, v) ensures Passed(cfg, s, steps + more, n, act, u, v) {
      PassedLater(cfg, s, steps, t, more, n, act, u, v);
    }
  }

  /** The pre-advance takes `u` to `v`: every row due for this node at `now` gets its next time and
      `now` as its last, computed from the time it was due for; nothing else changes. */
  ghost predicate PreAdvances(cfg: Config, u: State, v: State, n: string, now: int) {
    && v.jobs.Keys == u.jobs.Keys
    && (forall id :: id in u.jobs ==>
          var j := u.jobs[id];
          v.jobs[id] ==
            if j.active && j.next.Some? && j.next.value <= now && (j.node == None || j.node == Some(n))
            then j.(next := cfg.advance(j.schedule, j.next.value, now, j.catchUp), lastRun := Some(now))
            else j)
    && v.runs == u.runs && v.leases == u.leases && v.fires == u.fires && v.clock == u.clock
  }

  ghost predicate PreAdvanced(cfg: Config, s: State, steps: seq<Step>, n: string, now: int) {
    exists u, v :: Passed(cfg, s, steps, n, PreAdvance, u, v) && PreAdvances(cfg, u, v, n, now)
  }

  lemma PreAdvancedLast(cfg: Config, s: State, steps: seq<Step>, n: string, now: int, u: State, v: State)
    requires Exec(cfg, s, steps) == Some(u) && Exec(cfg, s, steps + [By(n, PreAdvance)]) == Some(v)
    requires PreAdvances(cfg, u, v, n, now)
    ensures PreAdvanced(cfg, s, steps + [By(n, PreAdvance)], n, now)
  {
    hide PreAdvances;
    PassedLast(cfg, s, steps, n, PreAdvance, u, v);
  }

  lemma PreAdvancedStays(cfg: Config, s: State, steps: seq<Step>, more: seq<Step>, n: string, now: int)
    requires PreAdvanced(cfg, s, steps, n, now)
    ensures PreAdvanced(cfg, s, steps + more, n, now)
  {
    hide Passed, PreAdvances;
    var u, v :| Passed(cfg, s, steps, n, PreAdvance, u, v) && PreAdvances(cfg, u, v, n, now);
    PassedStays(cfg, s, steps, more, n, PreAdvance, u, v);
  }

  ghost function FiredRow(n: string, e: Entry, o: RowOutcome): seq<Fire> {
    if o.Ran? then [Fire(n, e.id, e.window)] else []
  }

  ghost function FiredRows(n: string, due: seq<Entry>, outcomes: seq<RowOutcome>): seq<Fire>
    requires |outcomes| <= |due|
  {
    if outcomes == [] then [] else
    var k := |outcomes| - 1;
    FiredRows(n, due, outcomes[..k]) + FiredRow(n, due[k], outcomes[k])
  }

  function RanRows(outcomes: seq<RowOutcome>): set<nat> {
    set k: nat | k < |outcomes| && outcomes[k].Ran?
  }

  function ContendedRows(outcomes: seq<RowOutcome>): set<nat> {
    set k: nat | k < |outcomes| && outcomes[k].Contended?
  }

  lemma CountOneMore(outcomes: seq<RowOutcome>, o: RowOutcome)
    ensures |RanRows(outcomes + [o])| == |RanRows(outcomes)| + if o.Ran? then 1 else 0
    ensures |ContendedRows(outcomes + [o])| == |ContendedRows(outcomes)| + if o.Contended? then 1 else 0
  {
    OneMore(RanRows(outcomes), RanRows(outcomes + [o]), |outcomes|, o.Ran?);
    OneMore(ContendedRows(outcomes), ContendedRows(outcomes + [o]), |outcomes|, o.Contended?);
  }

  lemma OneMore(s: set<nat>, t: set<nat>, k: nat, more: bool)
    requires k !in s && (k in t <==> more) && forall j | j != k :: j in t <==> j in s
    ensures |t| == |s| + if more then 1 else 0
  {
    assert t == s + if more then {k} else {};
  }

  /** Driver `n` has the lease it had on job `id` and no other, unless that one ran out and was
      taken over. */
  ghost predicate RowKept(s: State, t: State, n: string, id: nat) {
    && s.clock <= t.clock && (id in s.leases ==> id in t.leases)
    && (id in t.leases && t.leases[id].holder == n ==> id in s.leases && s.leases[id] == t.leases[id])
    && (id in s.leases && s.leases[id].holder == n ==>
          id in t.leases && (t.leases[id] == s.leases[id] || s.leases[id].expiresAt <= t.clock))
  }

  lemma RowKeptTransitive(s: State, t: State, u: State, n: string, id: nat)
    requires RowKept(s, t, n, id) && RowKept(t, u, n, id)
    ensures RowKept(s, u, n, id)
  {}

  /** Neither lease nor execution of any driver has changed. */
  ghost predicate Unmoved(s: State, t: State, n: string) {
    AllKept(s, t, n) && t.fires == s.fires && forall id :: OtherRowsKept(s, t, n, id)
  }

  ghost predicate AllKept(s: State, t: State, n: string) {
    forall id :: RowKept(s, t, n, id)
  }

  lemma AllKeptTransitive(s: State, t: State, u: State, n: string)
    requires AllKept(s, t, n) && AllKept(t, u, n)
    ensures AllKept(s, u, n)
  {
    hide RowKept;
    forall id ensures RowKept(s, u, n, id) { RowKeptTransitive(s, t, u, n, id); }
  }

  lemma OtherRowKept(s: State, t: State, n: string, id: nat, other: nat)
    requires OtherRowsKept(s, t, n, id) && other != id
    ensures RowKept(s, t, n, other)
  {}

  lemma RelyKeepsRow(s: State, t: State, n: string, id: nat)
    requires Rely(s, t, n)
    ensures RowKept(s, t, n, id)
  {
    hide FiresBy;
  }

  /** The tick took a lease on job `id`. */
  predicate Leased(due: seq<Entry>, outcomes: seq<RowOutcome>, id: nat)
    requires |outcomes| <= |due|
  {
    exists k :: 0 <= k < |outcomes| && due[k].id == id && !outcomes[k].Contended?
  }

  /** What happens to the lease table, job `id` apart, while driver `n` works on job `id`. */
  ghost predicate OtherRowsKept(s: State, t: State, n: string, id: nat) {
    && s.clock <= t.clock && s.leases.Keys <= t.leases.Keys
    && (forall j :: j in t.leases && j != id && t.leases[j].holder == n ==> j in s.leases && s.leases[j] == t.leases[j])
    && (forall j :: j in s.leases && j != id && s.leases[j].holder == n ==>
          t.leases[j] == s.leases[j] || s.leases[j].expiresAt <= t.clock)
  }

  lemma OtherRowsKeptTransitive(s: State, t: State, u: State, n: string, id: nat)
    requires OtherRowsKept(s, t, n, id) && OtherRowsKept(t, u, n, id)
    ensures OtherRowsKept(s, u, n, id)
  {}

  lemma LeasedGrows(due: seq<Entry>, outcomes: seq<RowOutcome>, o: RowOutcome, id: nat)
    requires |outcomes| < |due|
    ensures Leased(due, outcomes, id) || (due[|outcomes|].id == id && !o.Contended?) ==> Leased(due, outcomes + [o], id)
  {
    if Leased(due, outcomes, id) {
      var k :| 0 <= k < |outcomes| && due[k].id == id && !outcomes[k].Contended?;
      assert (outcomes + [o])[k] == outcomes[k];
    }
    assert (outcomes + [o])[|outcomes|] == o;
  }

  lemma SettledRowStays(cfg: Config, s: State, t: State, n: string, id: nat, now: int, e: Entry, o: RowOutcome)
    requires OtherRowsKept(s, t, n, id) && e.id != id && RowSettled(cfg, s, n, now, e, o)
    ensures RowSettled(cfg, t, n, now, e, o)
  {}

  /** One statement of driver `n` about row `id`, after the others have run for a while. */
  ghost predicate Turn(cfg: Config, s: State, mid: State, t: State, n: string, act: Action) {
    Rely(s, mid, n) && LeaseInv(cfg, mid) && CanAct(cfg, mid, n, act) && t == Act(cfg, mid, n, act)
  }

  predicate RowAction(act: Action) {
    act.Acquire? || act.UseFails? || act.RunJob? || act.Record? || act.Release? || act.ReleaseFails?
  }

  lemma TurnKeepsOtherRows(cfg: Config, s: State, mid: State, t: State, n: string, act: Action, id: nat)
    requires Turn(cfg, s, mid, t, n, act) && RowAction(act)
    requires s.drivers[n].at < |s.drivers[n].due| && s.drivers[n].due[s.drivers[n].at].id == id
    ensures LeaseInv(cfg, t) && OtherRowsKept(s, t, n, id)
  {
    hide LeaseInv, SetStatus, FiresBy, Act, OtherRowsKept, Rely;
    StepKeepsLeaseInv(cfg, mid, By(n, act));
    RelyKeepsRows(s, mid, n, id);
    RelyHasDriver(s, mid, n);
    ActKeepsOtherRows(cfg, mid, n, act, id);
    OtherRowsKeptTransitive(s, mid, t, n, id);
  }

  lemma RelyKeepsRows(s: State, t: State, n: string, id: nat)
    requires Rely(s, t, n)
    ensures OtherRowsKept(s, t, n, id)
  {
    hide FiresBy;
  }

  lemma ActKeepsOtherRows(cfg: Config, s: State, n: string, act: Action, id: nat)
    requires CanAct(cfg, s, n, act) && RowAction(act)
    requires s.drivers[n].at < |s.drivers[n].due| && s.drivers[n].due[s.drivers[n].at].id == id
    ensures OtherRowsKept(s, Act(cfg, s, n, act), n, id)
  {
    hide SetStatus;
  }

  /** The execution a driver is at. */
  ghost function FiredNow(s: State, n: string): seq<Fire>
    requires n in s.drivers && s.drivers[n].at < |s.drivers[n].due|
  {
    var e := s.drivers[n].due[s.drivers[n].at];
    [Fire(n, e.id, e.window)]
  }

  lemma TurnFires(cfg: Config, s: State, mid: State, t: State, n: string, act: Action)
    requires Turn(cfg, s, mid, t, n, act) && RowAction(act)
    ensures n in s.drivers && n in t.drivers
    ensures act.RunJob? ==> s.drivers[n].at < |s.drivers[n].due|
    ensures FiresBy(t.fires, n) == FiresBy(s.fires, n)
              + if act.RunJob? then FiredNow(s, n) else []
  {
    hide LeaseInv, SetStatus;
    if act.RunJob? { assert t.fires[..|t.fires| - 1] == mid.fires; }
  }

  /** An acquired row stays this driver's until it is released or its time is over. */
  lemma TurnOnOwnRow(cfg: Config, s: State, mid: State, t: State, n: string, act: Action, e: Entry)
    requires Turn(cfg, s, mid, t, n, act) && RowAction(act)
    requires s.drivers[n].at < |s.drivers[n].due| && s.drivers[n].due[s.drivers[n].at] == e
    ensures act.Acquire? && CanAcquire(mid.leases, e.id, s.drivers[n].now) ==> HeldRow(cfg, t, n, s.drivers[n].now, e)
    ensures act.Acquire? && !CanAcquire(mid.leases, e.id, s.drivers[n].now) ==> RowKept(s, t, n, e.id)
    ensures !act.Acquire? && HeldRow(cfg, s, n, s.drivers[n].now, e) ==>
      if act.Release? then ReleasedRow(t, n, e) else HeldRow(cfg, t, n, s.drivers[n].now, e)
  {
    hide LeaseInv, SetStatus, FiresBy;
  }

  lemma TurnDriver(cfg: Config, s: State, mid: State, t: State, n: string, act: Action)
    requires Turn(cfg, s, mid, t, n, act) && RowAction(act)
    ensures n in s.drivers && n in t.drivers
    ensures t.drivers[n] == match act
      case Acquire =>
        if CanAcquire(mid.leases, s.drivers[n].due[s.drivers[n].at].id, s.drivers[n].now)
        then s.drivers[n].(pc := Acquired)
        else s.drivers[n].(at := s.drivers[n].at + 1)
      case RunJob => s.drivers[n].(pc := Fired)
      case Record(_, _) => s.drivers[n].(pc := Recorded)
      case _ => s.drivers[n].(pc := AtJob, at := s.drivers[n].at + 1)
  {
    hide LeaseInv, SetStatus, FiresBy;
  }

  /** Everything a turn on row `e` guarantees, for a caller that looks no further. */
  lemma After(cfg: Config, s: State, mid: State, t: State, n: string, act: Action, e: Entry)
    requires Turn(cfg, s, mid, t, n, act) && RowAction(act)
    requires n in s.drivers && s.drivers[n].at < |s.drivers[n].due| && s.drivers[n].due[s.drivers[n].at] == e
    ensures LeaseInv(cfg, t) && OtherRowsKept(s, t, n, e.id) && n in t.drivers
    ensures FiresBy(t.fires, n) == FiresBy(s.fires, n) + if act.RunJob? then [Fire(n, e.id, e.window)] else []
    ensures var now := s.drivers[n].now;
      && (act.Acquire? && CanAcquire(mid.leases, e.id, now) ==> HeldRow(cfg, t, n, now, e))
      && (act.Acquire? && !CanAcquire(mid.leases, e.id, now) ==> RowKept(s, t, n, e.id))
      && (!act.Acquire? && HeldRow(cfg, s, n, now, e) ==>
            if act.Release? then ReleasedRow(t, n, e) else HeldRow(cfg, t, n, now, e))
    ensures t.drivers[n] == match act
      case Acquire =>
        if CanAcquire(mid.leases, e.id, s.drivers[n].now)
        then s.drivers[n].(pc := Acquired)
        else s.drivers[n].(at := s.drivers[n].at + 1)
      case RunJob => s.drivers[n].(pc := Fired)
      case Record(_, _) => s.drivers[n].(pc := Recorded)
      case _ => s.drivers[n].(pc := AtJob, at := s.drivers[n].at + 1)
  {
    TurnKeepsOtherRows(cfg, s, mid, t, n, act, e.id);
    TurnFires(cfg, s, mid, t, n, act);
    TurnOnOwnRow(cfg, s, mid, t, n, act, e);
    TurnDriver(cfg, s, mid, t, n, act);
  }

  lemma FinishTick(cfg: Config, s0: State, steps: seq<Step>, s: State, n: string)
    requires Exec(cfg, s0, steps) == Some(s) && LeaseInv(cfg, s) && n in s.drivers
    requires s.drivers[n].pc == AtJob && s.drivers[n].at == |s.drivers[n].due|
    ensures var t := s.(drivers := s.drivers[n := Driver(Idle, 0, [], 0)]);
      && Exec(cfg, s0, steps + [By(n, Finish)]) == Some(t) && LeaseInv(cfg, t)
      && Unmoved(s, t, n)
  {
    Extend(cfg, s0, steps, s, By(n, Finish));
    StepKeepsLeaseInv(cfg, s, By(n, Finish));
  }

  predicate DistinctIds(due: seq<Entry>) {
    forall j, k :: 0 <= j < k < |due| ==> due[j].id != due[k].id
  }

  lemma DueListHasDistinctIds(jobs: map<nat, Job>, now: int, n: string, due: seq<Entry>)
    requires IsDueList(jobs, now, n, due)
    ensures DistinctIds(due)
  {}

  /** The due list in plain terms: exactly the active rows of this node, or of none, whose time has
      come, each with that time and its catalog, once, and by time. */
  lemma DueListMeans(jobs: map<nat, Job>, now: int, n: string, due: seq<Entry>)
    ensures IsDueList(jobs, now, n, due) <==>
      && (forall e :: e in due <==>
            && e.id in jobs && jobs[e.id].active && jobs[e.id].next == Some(e.window) && e.window <= now
            && (jobs[e.id].node == None || jobs[e.id].node == Some(n)) && e.database == jobs[e.id].database)
      && (forall j, k :: 0 <= j < k < |due| ==> due[j].id != due[k].id && due[j].window <= due[k].window)
  {
    if IsDueList(jobs, now, n, due) {
      forall e: Entry | e.id in jobs && Due(jobs[e.id], now, n) && e == Entry(e.id, jobs[e.id].next.value, e.database)
        && e.database == jobs[e.id].database
        ensures e in due
      {
        assert Listed(due, e.id);
      }
    }
    if forall e :: e in due <==> IsRow(jobs, now, n, e) {
      forall id | id in jobs && Due(jobs[id], now, n) ensures Listed(due, id) {
        var e := Entry(id, jobs[id].next.value, jobs[id].database);
        assert IsRow(jobs, now, n, e) && e in due;
      }
    }
  }

  /** Before its loop a tick touches no lease and executes nothing. */
  predicate QuietAction(act: Action) {
    act.Start? || act.ReadDue? || act.PreAdvance? || act.Finish?
  }

  lemma OwnStep(cfg: Config, s0: State, steps: seq<Step>, s: State, n: string, act: Action)
    requires (steps == [] && s == s0) || Exec(cfg, s0, steps) == Some(s)
    requires LeaseInv(cfg, s) && CanAct(cfg, s, n, act) && QuietAction(act)
    ensures var t := Act(cfg, s, n, act);
      && Exec(cfg, s0, steps + [By(n, act)]) == Some(t) && LeaseInv(cfg, t)
      && t.leases == s.leases && t.clock == s.clock && t.fires == s.fires && AllKept(s, t, n)
    ensures Own(steps + [By(n, act)], n) == Own(steps, n) + [act]
  {
    Extend(cfg, s0, steps, s, By(n, act));
    StepKeepsLeaseInv(cfg, s, By(n, act));
    assert (steps + [By(n, act)])[..|steps|] == steps;
  }

  lemma OthersStep(cfg: Config, s0: State, steps: seq<Step>, s: State, more: seq<Step>, n: string)
    requires Exec(cfg, s0, steps) == Some(s) && Exec(cfg, s, more).Some? && OthersOnly(more, n)
    requires LeaseInv(cfg, s) && n in s.drivers
    ensures var t := Exec(cfg, s, more).value;
      && Exec(cfg, s0, steps + more) == Some(t) && LeaseInv(cfg, t)
      && n in t.drivers && t.drivers[n] == s.drivers[n] && s.clock <= t.clock
        && FiresBy(t.fires, n) == FiresBy(s.fires, n)
      && AllKept(s, t, n) && Own(steps + more, n) == Own(steps, n)
  {
    OthersRely(cfg, s, more, n);
    ExecConcat(cfg, s0, steps, more);
    OwnConcat(steps, more, n);
    OwnOfOthers(more, n);
    forall id ensures RowKept(s, Exec(cfg, s, more).value, n, id) { RelyKeepsRow(s, Exec(cfg, s, more).value, n, id); }
  }

  // ---------------------------------------------------------------------------
  // What a tick did
  // ---------------------------------------------------------------------------

  /** The history of one tick: its result, its run, the state in which it read its list, and for
      each row what became of it and the state in which its lease was asked for. */
  datatype TickLog = TickLog(
    r: Result<TickOutcome, string>, steps: seq<Step>, seen: State, due: seq<Entry>, outcomes: seq<RowOutcome>,
        asked: seq<State>)

  /** Row `k` was asked for in this state: the list was being worked through, the lease was free
      exactly when the row was not contended, and so far the tick had not touched that lease. */
  ghost predicate AskedIn(cfg: Config, s: State, steps: seq<Step>, n: string, now: int, due: seq<Entry>, k: nat,
      o: RowOutcome, t: State)
    requires k < |due|
  {
    && TakenAt(cfg, s, steps, n, Action.Acquire, t)
    && n in t.drivers && t.drivers[n] == Driver(AtJob, now, due, k)
    && (o.Contended? <==> due[k].id in t.leases && t.leases[due[k].id].expiresAt > now)
    && RowKept(s, t, n, due[k].id)
  }

  ghost predicate RowDone(cfg: Config, s: State, t: State, steps: seq<Step>, n: string, now: int, due: seq<Entry>,
      k: nat, o: RowOutcome, asked: State)
    requires k < |due|
  {
    && AskedIn(cfg, s, steps, n, now, due, k, o, asked)
    && RowSettled(cfg, t, n, now, due[k], o)
    && (o.Skipped? ==> due[k].database != "")
    && OutcomeSaved(cfg, s, steps, n, now, due, k, o)
  }

  /** Every row has its outcome, with what it leaves of the lease table; rows not taken are kept. */
  ghost predicate RowsDone(cfg: Config, s: State, t: State, steps: seq<Step>, n: string, now: int, due: seq<Entry>,
      outcomes: seq<RowOutcome>, asked: seq<State>)
    requires |outcomes| == |asked| <= |due|
  {
    && (forall k :: 0 <= k < |outcomes| ==> RowDone(cfg, s, t, steps, n, now, due, k, outcomes[k], asked[k]))
    && (forall id :: !Leased(due, outcomes, id) ==> RowKept(s, t, n, id))
    && FiresBy(t.fires, n) == FiresBy(s.fires, n) + FiredRows(n, due, outcomes)
  }

  /** A tick from `s` to `t` that succeeded: its own actions are the clock, the due list as it was
      in `seen`, the pre-advance, and those of each row's outcome in order. */
  ghost predicate Completed(cfg: Config, s: State, t: State, n: string, l: TickLog) {
    && |l.outcomes| == |l.asked| == |l.due|
    && l.r == Success(TickOutcome(|RanRows(l.outcomes)|, |ContendedRows(l.outcomes)|))
    && Own(l.steps, n) == TickActions(l.due, l.outcomes)
    && TakenAt(cfg, s, l.steps, n, ReadDue(l.due), l.seen) && IsDueList(l.seen.jobs, s.clock, n, l.due)
    && (l.due != [] ==> PreAdvanced(cfg, s, l.steps, n, s.clock))
    && RowsDone(cfg, s, t, l.steps, n, s.clock, l.due, l.outcomes, l.asked)
  }

  /** A tick from `s` to `t` that ended in an error, or with the driver: before its loop, or at the
      acquire of the row after those in `outcomes`, which are done as in a whole tick. */
  ghost predicate Interrupted(cfg: Config, s: State, t: State, n: string, l: TickLog) {
    && l.r.Failure?
    && (|| BrokenOff(Own(l.steps, n), l.due)
        || (&& |l.outcomes| == |l.asked| < |l.due|
            && Own(l.steps, n) == [Start, ReadDue(l.due), PreAdvance] + RowsActions(l.outcomes) + [Crash]
            && TakenAt(cfg, s, l.steps, n, ReadDue(l.due), l.seen) && IsDueList(l.seen.jobs, s.clock, n, l.due)
            && PreAdvanced(cfg, s, l.steps, n, s.clock)
            && RowsDone(cfg, s, t, l.steps, n, s.clock, l.due, l.outcomes, l.asked)))
  }

  /** How a tick can end before its loop. */
  predicate BrokenOff(own: seq<Action>, due: seq<Entry>) {
    || own == [Start, Crash]
    || (due != [] && (own == [Start, ReadDue(due), Crash] || own == [Start, ReadDue(due), PreAdvance, Crash]))
  }

  lemma RowDoneStays(cfg: Config, s: State, t: State, steps: seq<Step>, u: State, more: seq<Step>, n: string,
      now: int, due: seq<Entry>, k: nat, o: RowOutcome, asked: State, id: nat)
    requires k < |due| && RowDone(cfg, s, t, steps, n, now, due, k, o, asked)
    requires OtherRowsKept(t, u, n, id) && id != due[k].id
    ensures RowDone(cfg, s, u, steps + more, n, now, due, k, o, asked)
  {
    hide RowSettled, TakenAt, OtherRowsKept, OutcomeSaved;
    TakenStays(cfg, s, steps, more, n, Action.Acquire, asked);
    OutcomeSavedStays(cfg, s, steps, more, n, now, due, k, o);
    SettledRowStays(cfg, t, u, n, id, now, due[k], o);
  }

  /** What a row did after the rest of the run in front of it. */
  lemma RowDoneLater(cfg: Config, s: State, steps: seq<Step>, t: State, u: State, more: seq<Step>, n: string,
      now: int, due: seq<Entry>, k: nat, o: RowOutcome, asked: State)
    requires k < |due| && Exec(cfg, s, steps) == Some(t) && RowKept(s, t, n, due[k].id)
    requires RowDone(cfg, t, u, more, n, now, due, k, o, asked)
    ensures RowDone(cfg, s, u, steps + more, n, now, due, k, o, asked)
  {
    hide RowSettled, TakenAt, RowKept, OutcomeSaved;
    TakenLater(cfg, s, steps, t, more, n, Action.Acquire, asked);
    OutcomeSavedLater(cfg, s, steps, t, more, n, now, due, k, o);
    RowKeptTransitive(s, t, asked, n, due[k].id);
  }

  /** One more row. */
  lemma RowsGrow(cfg: Config, s: State, steps: seq<Step>, t: State, u: State, more: seq<Step>, n: string, now: int,
      due: seq<Entry>, outcomes: seq<RowOutcome>, asked: seq<State>, o: RowOutcome, a: State)
    requires |outcomes| == |asked| < |due| && DistinctIds(due) && Exec(cfg, s, steps) == Some(t)
    requires RowsDone(cfg, s, t, steps, n, now, due, outcomes, asked)
    requires var k := |outcomes|;
      && RowDone(cfg, t, u, more, n, now, due, k, o, a) && OtherRowsKept(t, u, n, due[k].id)
      && (o.Contended? ==> RowKept(t, u, n, due[k].id))
      && FiresBy(u.fires, n) == FiresBy(t.fires, n) + FiredRow(n, due[k], o)
    ensures RowsDone(cfg, s, u, steps + more, n, now, due, outcomes + [o], asked + [a])
  {
    hide RowDone, RowKept, OtherRowsKept, FiresBy, Exec, Leased;
    var k := |outcomes|;
    var os, as_ := outcomes + [o], asked + [a];
    NotLeasedYet(due, outcomes);
    RowDoneLater(cfg, s, steps, t, u, more, n, now, due, k, o, a);
    forall j | 0 <= j < k ensures RowDone(cfg, s, u, steps + more, n, now, due, j, os[j], as_[j]) {
      RowDoneStays(cfg, s, t, steps, u, more, n, now, due, j, outcomes[j], asked[j], due[k].id);
    }
    forall id | !Leased(due, os, id) ensures RowKept(s, u, n, id) {
      LeasedGrows(due, outcomes, o, id);
      if id != due[k].id { OtherRowKept(t, u, n, due[k].id, id); }
      RowKeptTransitive(s, t, u, n, id);
    }
    assert os[..k] == outcomes;
  }

  lemma NotLeasedYet(due: seq<Entry>, outcomes: seq<RowOutcome>)
    requires |outcomes| < |due| && DistinctIds(due)
    ensures !Leased(due, outcomes, due[|outcomes|].id)
  {}

  lemma RowsActionsGrow(outcomes: seq<RowOutcome>, o: RowOutcome)
    ensures RowsActions(outcomes + [o]) == RowsActions(outcomes) + RowActions(o)
  {
    assert (outcomes + [o])[..|outcomes|] == outcomes;
  }

  /** The end of a tick leaves its rows as they are. */
  lemma RowsStay(cfg: Config, s: State, rows: seq<Step>, u: State, last: seq<Step>, v: State, n: string, now: int,
      due: seq<Entry>, outcomes: seq<RowOutcome>, asked: seq<State>)
    requires |outcomes| == |asked| <= |due|
    requires RowsDone(cfg, s, u, rows, n, now, due, outcomes, asked) && Unmoved(u, v, n)
    ensures RowsDone(cfg, s, v, rows + last, n, now, due, outcomes, asked)
  {
    hide RowDone, RowKept, OtherRowsKept, FiresBy, Exec, Leased, FiredRows;
    forall k | 0 <= k < |outcomes| ensures RowDone(cfg, s, v, rows + last, n, now, due, k, outcomes[k], asked[k]) {
      RowDoneStays(cfg, s, u, rows, v, last, n, now, due, k, outcomes[k], asked[k], due[k].id + 1);
    }
    forall id | !Leased(due, outcomes, id) ensures RowKept(s, v, n, id) { RowKeptTransitive(s, u, v, n, id); }
  }

  /** What came before the loop leaves its rows as they are. */
  lemma RowsLater(cfg: Config, s: State, first: seq<Step>, t: State, rows: seq<Step>, u: State, n: string, now: int,
      due: seq<Entry>, outcomes: seq<RowOutcome>, asked: seq<State>)
    requires |outcomes| == |asked| <= |due| && Exec(cfg, s, first) == Some(t)
    requires RowsDone(cfg, t, u, rows, n, now, due, outcomes, asked)
    requires AllKept(s, t, n) && FiresBy(t.fires, n) == FiresBy(s.fires, n)
    ensures RowsDone(cfg, s, u, first + rows, n, now, due, outcomes, asked)
  {
    hide RowDone, RowKept, OtherRowsKept, FiresBy, Exec, Leased, FiredRows;
    forall k | 0 <= k < |outcomes| ensures RowDone(cfg, s, u, first + rows, n, now, due, k, outcomes[k], asked[k]) {
      RowDoneLater(cfg, s, first, t, u, rows, n, now, due, k, outcomes[k], asked[k]);
    }
    forall id | !Leased(due, outcomes, id) ensures RowKept(s, u, n, id) { RowKeptTransitive(s, t, u, n, id); }
  }

  lemma NoRows(cfg: Config, s: State, n: string, now: int, due: seq<Entry>)
    ensures RowsDone(cfg, s, s, [], n, now, due, [], []) && RowsActions([]) == [] && Own([], n) == []
  {}

  lemma NoOwn(n: string)
    ensures Own([], n) == []
  {}

  lemma OwnFinish(steps: seq<Step>, n: string)
    ensures Own(steps + [By(n, Finish)], n) == Own(steps, n) + [Finish]
  {
    assert (steps + [By(n, Finish)])[..|steps|] == steps;
  }

  /** The state in which a lease is asked for. */
  lemma TurnAsked(cfg: Config, s: State, mid: State, t: State, n: string, act: Action, id: nat)
    requires Turn(cfg, s, mid, t, n, act)
    ensures n in s.drivers && n in mid.drivers && mid.drivers[n] == s.drivers[n] && RowKept(s, mid, n, id)
  {
    RelyKeepsRow(s, mid, n, id);
  }

  lemma NothingDone(cfg: Config, s: State, t: State, steps: seq<Step>, n: string, now: int)
    requires AllKept(s, t, n) && FiresBy(t.fires, n) == FiresBy(s.fires, n)
    ensures RowsDone(cfg, s, t, steps, n, now, [], [], []) && |RanRows([])| == 0 && |ContendedRows([])| == 0
  {}

  // ---------------------------------------------------------------------------
  // The store and the tick
  // ---------------------------------------------------------------------------

  class CronStore {
    const cfg: Config
    var clock: int
    var jobs: map<nat, Job>
    var leases: map<nat, Lease>
    var runs: seq<RunRow>
    ghost var drivers: map<string, Driver>
    ghost var fires: seq<Fire>

    ghost function St(): State
      reads this
    {
      State(clock, jobs, leases, runs, drivers, fires)
    }

    constructor (cfg: Config, s: State)
      ensures this.cfg == cfg && St() == s
    {
      this.cfg := cfg;
      clock, jobs, leases, runs, drivers, fires := s.clock, s.jobs, s.leases, s.runs, s.drivers, s.fires;
    }

    /** The other drivers and the clock run for a while. Nothing happens here; the contract
        says only what a caller may count on. */
    method Interfere(ghost n: string) returns (ghost steps: seq<Step>)
      modifies this
      ensures OthersOnly(steps, n) && Exec(cfg, old(St()), steps) == Some(St())
    {
      steps := [];
    }

    /** The due-list SELECT. */
    method QueryDue(now: int, n: string) returns (due: seq<Entry>)
      requires n in drivers && drivers[n].pc == Started && drivers[n].now == now
      modifies this`drivers
      ensures CanAct(cfg, old(St()), n, ReadDue(due)) && St() == Act(cfg, old(St()), n, ReadDue(due))
    {
      due := SelectDue(jobs, now, n);
      drivers := drivers[n := drivers[n].(pc := HasRead, due := due)];
    }

    ghost predicate AtPc(n: string, pc: Pc, now: int, id: nat)
      reads this
    {
      n in drivers && var d := drivers[n]; d.pc == pc && d.now == now && d.at < |d.due| && d.due[d.at].id == id
    }

    /** The acquire UPSERT. */
    method TryAcquire(n: string, now: int, id: nat)
      returns (held: bool, ghost act: Action, ghost mid: State, ghost steps: seq<Step>)
      requires LeaseInv(cfg, St()) && AtPc(n, AtJob, now, id)
      modifies this
      ensures Turn(cfg, old(St()), mid, St(), n, act) && Exec(cfg, old(St()), steps) == Some(St())
      ensures act == Action.Acquire && held == CanAcquire(mid.leases, id, now)
      ensures Own(steps, n) == [act] && TakenAt(cfg, old(St()), steps, n, act, mid)
    {
      ghost var s0 := St();
      steps := Interfere(n);
      mid := St();
      OthersRely(cfg, s0, steps, n);
      var d := drivers[n];
      held := id !in leases || leases[id].expiresAt <= now;
      if held {
        leases := leases[id := Lease(n, now, now + cfg.ttl(n))];
        drivers := drivers[n := d.(pc := Acquired)];
      } else {
        drivers := drivers[n := d.(at := d.at + 1)];
      }
      act := Action.Acquire;
      Extend(cfg, s0, steps, mid, By(n, act));
      OwnTurn(steps, n, act);
      TakenLast(cfg, s0, steps, n, act, mid);
      steps := steps + [By(n, act)];
    }

    /** The target catalog is not attached: the skip is recorded, the lease is not released. */
    method SkipJob(n: string, now: int, id: nat)
      returns (saved: bool, ghost act: Action, ghost mid: State, ghost steps: seq<Step>)
      requires LeaseInv(cfg, St()) && AtPc(n, Acquired, now, id)
      modifies this
      ensures Turn(cfg, old(St()), mid, St(), n, act) && Exec(cfg, old(St()), steps) == Some(St())
      requires drivers[n].due[drivers[n].at].database != ""
      ensures act == UseFails(saved) && Own(steps, n) == [act]
      ensures Passed(cfg, old(St()), steps, n, act, mid, St())
      ensures Saves(mid, St(), id, now, StatusSkipped, false, saved)
    {
      hide Saves;
      ghost var s0 := St();
      steps := Interfere(n);
      mid := St();
      OthersRely(cfg, s0, steps, n);
      var d := drivers[n];
      saved := *;
      if saved {
        if id in jobs { jobs := jobs[id := jobs[id].(lastStatus := StatusSkipped)]; }
        runs := runs + [RunRow(id, now, false)];
      }
      drivers := drivers[n := d.(pc := AtJob, at := d.at + 1)];
      act := UseFails(saved);
      Extend(cfg, s0, steps, mid, By(n, act));
      PassedLast(cfg, s0, steps, n, act, mid, St());
      SkipSaves(cfg, mid, n, saved);
      OwnTurn(steps, n, act);
      steps := steps + [By(n, act)];
    }

    /** The job's own SQL. */
    method ExecuteJob(n: string, now: int, id: nat)
      returns (ok: bool, ghost act: Action, ghost mid: State, ghost steps: seq<Step>)
      requires LeaseInv(cfg, St()) && AtPc(n, Acquired, now, id)
      modifies this
      ensures Turn(cfg, old(St()), mid, St(), n, act) && Exec(cfg, old(St()), steps) == Some(St())
      ensures act == RunJob && Own(steps, n) == [act]
    {
      ghost var s0 := St();
      steps := Interfere(n);
      mid := St();
      OthersRely(cfg, s0, steps, n);
      var d := drivers[n];
      ok := *;
      fires := fires + [Fire(n, d.due[d.at].id, d.due[d.at].window)];
      drivers := drivers[n := d.(pc := Fired)];
      act := RunJob;
      Extend(cfg, s0, steps, mid, By(n, act));
      OwnTurn(steps, n, act);
      steps := steps + [By(n, act)];
    }

    /** The outcome UPDATE and INSERT; a failure is only logged. */
    method SaveOutcome(n: string, now: int, id: nat, ok: bool)
      returns (saved: bool, ghost act: Action, ghost mid: State, ghost steps: seq<Step>)
      requires LeaseInv(cfg, St()) && AtPc(n, Fired, now, id)
      modifies this
      ensures Turn(cfg, old(St()), mid, St(), n, act) && Exec(cfg, old(St()), steps) == Some(St())
      ensures act == Record(ok, saved) && Own(steps, n) == [act]
      ensures Passed(cfg, old(St()), steps, n, act, mid, St())
      ensures Saves(mid, St(), id, now, if ok then StatusFired else StatusFailed, ok, saved)
    {
      hide Saves;
      ghost var s0 := St();
      steps := Interfere(n);
      mid := St();
      OthersRely(cfg, s0, steps, n);
      var d := drivers[n];
      saved := *;
      if saved {
        if id in jobs { jobs := jobs[id := jobs[id].(lastStatus := if ok then StatusFired else StatusFailed)]; }
        runs := runs + [RunRow(id, now, ok)];
      }
      drivers := drivers[n := d.(pc := Recorded)];
      act := Record(ok, saved);
      Extend(cfg, s0, steps, mid, By(n, act));
      PassedLast(cfg, s0, steps, n, act, mid, St());
      RecordSaves(cfg, mid, n, ok, saved);
      OwnTurn(steps, n, act);
      steps := steps + [By(n, act)];
    }

    /** The release UPDATE; a failure is only logged. */
    method TryRelease(n: string, now: int, id: nat)
      returns (released: bool, ghost act: Action, ghost mid: State, ghost steps: seq<Step>)
      requires LeaseInv(cfg, St()) && AtPc(n, Recorded, now, id)
      modifies this
      ensures Turn(cfg, old(St()), mid, St(), n, act) && Exec(cfg, old(St()), steps) == Some(St())
      ensures act == (if released then Release else ReleaseFails) && Own(steps, n) == [act]
    {
      ghost var s0 := St();
      steps := Interfere(n);
      mid := St();
      OthersRely(cfg, s0, steps, n);
      var d := drivers[n];
      released := *;
      if released && id in leases && leases[id].holder == n {
        leases := leases[id := leases[id].(expiresAt := 0)];
      }
      drivers := drivers[n := d.(pc := AtJob, at := d.at + 1)];
      act := if released then Release else ReleaseFails;
      Extend(cfg, s0, steps, mid, By(n, act));
      OwnTurn(steps, n, act);
      steps := steps + [By(n, act)];
    }

    /** A leased row run to its end: the job, its outcome, the release. */
    method FinishRow(n: string, now: int, e: Entry, ghost due: seq<Entry>, ghost k: nat)
      returns (o: RowOutcome, ghost steps: seq<Step>)
      requires LeaseInv(cfg, St()) && k < |due| && due[k] == e
      requires n in drivers && drivers[n] == Driver(Acquired, now, due, k) && HeldRow(cfg, St(), n, now, e)
      modifies this
      ensures LeaseInv(cfg, St()) && Exec(cfg, old(St()), steps) == Some(St()) && n in drivers
      ensures drivers[n] == Driver(AtJob, now, due, k + 1) && OtherRowsKept(old(St()), St(), n, e.id)
      ensures o.Ran? && [Action.Acquire] + Own(steps, n) == RowActions(o) && RowSettled(cfg, St(), n, now, e, o)
      ensures FiresBy(fires, n) == FiresBy(old(fires), n) + [Fire(n, e.id, e.window)]
      ensures OutcomeSaved(cfg, old(St()), steps, n, now, due, k, o)
    {
      hide Exec, LeaseInv, Turn, OtherRowsKept, HeldRow, ReleasedRow, FiresBy, Act, CanAct, Rely, OthersOnly, Own,
          Passed, Saves;
      ghost var s1 := St();
      var ok, act1, mid1, steps1 := ExecuteJob(n, now, e.id);
      ghost var s2 := St();
      After(cfg, s1, mid1, s2, n, act1, e);
      var saved, act2, mid2, steps2 := SaveOutcome(n, now, e.id, ok);
      ghost var s3 := St();
      After(cfg, s2, mid2, s3, n, act2, e);
      TurnAsked(cfg, s2, mid2, s3, n, act2, e.id);
      PassedLater(cfg, s1, steps1, s2, steps2, n, act2, mid2, s3);
      var released, act3, mid3, steps3 := TryRelease(n, now, e.id);
      ghost var s4 := St();
      After(cfg, s3, mid3, s4, n, act3, e);
      OtherRowsKeptTransitive(s1, s2, s3, n, e.id);
      OtherRowsKeptTransitive(s1, s3, s4, n, e.id);
      ExecConcat(cfg, s1, steps1, steps2);
      ExecConcat(cfg, s1, steps1 + steps2, steps3);
      PassedStays(cfg, s1, steps1 + steps2, steps3, n, act2, mid2, s3);
      OwnConcat(steps1, steps2, n);
      OwnConcat(steps1 + steps2, steps3, n);
      o, steps := Ran(ok, saved, released), steps1 + steps2 + steps3;
    }

    /** One turn of the loop over the due rows; `None` is a tick that ends in an error. */
    method TickRow(n: string, now: int, e: Entry, ghost due: seq<Entry>, ghost k: nat)
      returns (o: Option<RowOutcome>, ghost asked: State, ghost steps: seq<Step>)
      requires LeaseInv(cfg, St()) && k < |due| && due[k] == e
      requires n in drivers && drivers[n] == Driver(AtJob, now, due, k)
      modifies this
      ensures LeaseInv(cfg, St()) && Exec(cfg, old(St()), steps) == Some(St()) && n in drivers
      ensures o.None? ==> drivers[n].pc == Idle && Own(steps, n) == [Crash] && Unmoved(old(St()), St(), n)
      ensures o.Some? ==> drivers[n] == Driver(AtJob, now, due, k + 1) && OtherRowsKept(old(St()), St(), n, e.id)
      ensures o.Some? ==> Own(steps, n) == RowActions(o.value)
      ensures o.Some? ==> RowDone(cfg, old(St()), St(), steps, n, now, due, k, o.value, asked)
      ensures o == Some(Contended) ==> RowKept(old(St()), St(), n, e.id)
      ensures o.Some? ==> FiresBy(fires, n) == FiresBy(old(fires), n) + FiredRow(n, e, o.value)
    {
      hide Exec, LeaseInv, Turn, OtherRowsKept, HeldRow, ReleasedRow, FiresBy, Act, CanAct, Rely, OthersOnly, Own,
          TakenAt, RowKept, Unmoved, Passed, Saves, OutcomeSaved;
      ghost var s0 := St();
      asked := s0;
      var broken: bool := *;
      if broken {
        steps := EndTick(n);
        return None, asked, steps;
      }
      var held, act0, mid0, steps0 := TryAcquire(n, now, e.id);
      ghost var s1 := St();
      After(cfg, s0, mid0, s1, n, act0, e);
      TurnAsked(cfg, s0, mid0, s1, n, act0, e.id);
      asked, steps := mid0, steps0;
      if !held {
        ContendedSavesNothing(cfg, s0, steps, n, now, due, k);
        return Some(Contended), asked, steps;
      }
      if e.database != "" {
        var missing: bool := *;
        if missing {
          var saved, act1, mid1, steps1 := SkipJob(n, now, e.id);
          ghost var s2 := St();
          After(cfg, s1, mid1, s2, n, act1, e);
          TurnAsked(cfg, s1, mid1, s2, n, act1, e.id);
          SkipIsSaved(cfg, s0, steps, s1, steps1, n, now, due, k, saved, mid1, s2);
          OtherRowsKeptTransitive(s0, s1, s2, n, e.id);
          ExecConcat(cfg, s0, steps, steps1);
          OwnConcat(steps, steps1, n);
          TakenStays(cfg, s0, steps, steps1, n, Action.Acquire, asked);
          return Some(Skipped(saved)), asked, steps + steps1;
        }
      }
      var ran, steps1 := FinishRow(n, now, e, due, k);
      OutcomeSavedLater(cfg, s0, steps, s1, steps1, n, now, due, k, ran);
      OtherRowsKeptTransitive(s0, s1, St(), n, e.id);
      ExecConcat(cfg, s0, steps, steps1);
      OwnConcat(steps, steps1, n);
      TakenStays(cfg, s0, steps, steps1, n, Action.Acquire, asked);
      o, steps := Some(ran), steps + steps1;
    }

    /** A statement that fails with an error, or a crash. */
    method EndTickAfter(n: string, ghost s0: State, ghost steps: seq<Step>) returns (ghost all: seq<Step>)
      requires LeaseInv(cfg, St()) && n in drivers && Exec(cfg, s0, steps) == Some(St())
      modifies this
      ensures LeaseInv(cfg, St()) && Exec(cfg, s0, all) == Some(St()) && n in drivers && drivers[n].pc == Idle
      ensures Own(all, n) == Own(steps, n) + [Crash]
    {
      hide LeaseInv, Exec, Own;
      all := EndTick(n);
      ExecConcat(cfg, s0, steps, all);
      OwnConcat(steps, all, n);
      all := steps + all;
    }

    method EndTick(n: string) returns (ghost steps: seq<Step>)
      requires LeaseInv(cfg, St()) && n in drivers
      modifies this
      ensures LeaseInv(cfg, St()) && Exec(cfg, old(St()), steps) == Some(St()) && n in drivers && drivers[n].pc == Idle
      ensures Own(steps, n) == [Crash] && Unmoved(old(St()), St(), n)
    {
      drivers := drivers[n := Driver(Idle, 0, [], 0)];
      steps := [By(n, Crash)];
      assert steps[..0] == [];
      StepKeepsLeaseInv(cfg, old(St()), By(n, Crash));
    }

    /** The loop over the due rows. */
    method TickRows(n: string, now: int, due: seq<Entry>)
      returns (r: Result<TickOutcome, string>, ghost steps: seq<Step>, ghost outcomes: seq<RowOutcome>,
          ghost asked: seq<State>)
      requires LeaseInv(cfg, St()) && n in drivers && drivers[n] == Driver(AtJob, now, due, 0) && DistinctIds(due)
      modifies this
      ensures LeaseInv(cfg, St()) && Exec(cfg, old(St()), steps) == Some(St()) && n in drivers
      ensures |outcomes| == |asked| <= |due|
      ensures r.Failure? ==>
        drivers[n].pc == Idle && Own(steps, n) == RowsActions(outcomes) + [Crash] && |outcomes| < |due|
      ensures r.Success? ==> drivers[n] == Driver(AtJob, now, due, |due|) && |outcomes| == |due|
      ensures r.Success? ==> r.value == TickOutcome(|RanRows(outcomes)|, |ContendedRows(outcomes)|)
      ensures r.Success? ==> Own(steps, n) == RowsActions(outcomes)
      ensures RowsDone(cfg, old(St()), St(), steps, n, now, due, outcomes, asked)
    {
      hide LeaseInv, RowsDone, RowDone, FiresBy, OthersOnly, Act, CanAct, Do, Enabled, Own, RowsActions, RowActions,
          OtherRowsKept, RowKept, Unmoved;
      ghost var s0 := St();
      var k, fired, contended := 0, 0, 0;
      steps, outcomes, asked := [], [], [];
      NoRows(cfg, s0, n, now, due);
      while k < |due|
        invariant 0 <= k <= |due| && |outcomes| == |asked| == k
        invariant LeaseInv(cfg, St()) && Exec(cfg, s0, steps) == Some(St())
        invariant n in drivers && drivers[n] == Driver(AtJob, now, due, k)
        invariant fired == |RanRows(outcomes)| && contended == |ContendedRows(outcomes)|
        invariant Own(steps, n) == RowsActions(outcomes)
        invariant RowsDone(cfg, s0, St(), steps, n, now, due, outcomes, asked)
      {
        ghost var s1 := St();
        var o, a, more := TickRow(n, now, due[k], due, k);
        ExecConcat(cfg, s0, steps, more);
        OwnConcat(steps, more, n);
        if o.None? {
          RowsStay(cfg, s0, steps, s1, more, St(), n, now, due, outcomes, asked);
          return Failure("cron: tick error"), steps + more, outcomes, asked;
        }
        RowsGrow(cfg, s0, steps, s1, St(), more, n, now, due, outcomes, asked, o.value, a);
        RowsActionsGrow(outcomes, o.value);
        CountOneMore(outcomes, o.value);
        steps, outcomes, asked := steps + more, outcomes + [o.value], asked + [a];
        match o.value {
          case Ran(_, _, _) => fired := fired + 1;
          case Contended => contended := contended + 1;
          case Skipped(_) =>
        }
        k := k + 1;
      }
      r := Success(TickOutcome(fired, contended));
    }

    /** One tick. If it succeeds, its own statements are exactly the due list, the pre-advance and
        those of every row's outcome in order: contended rows had a lease that was not free when
        asked for, skipped rows name a catalog, the executions added are the rows that ran, each
        released unless that failed, and a skipped row keeps its lease until the time is over. */
    method Tick(n: string) returns (r: Result<TickOutcome, string>, ghost l: TickLog)
      requires LeaseInv(cfg, St()) && n in drivers && drivers[n].pc == Idle
      modifies this
      ensures LeaseInv(cfg, St()) && Exec(cfg, old(St()), l.steps) == Some(St()) && n in drivers
        && drivers[n].pc == Idle
      ensures l.r == r
      ensures r.Success? ==> Completed(cfg, old(St()), St(), n, l)
      ensures r.Failure? ==> Interrupted(cfg, old(St()), St(), n, l)
    {
      hide LeaseInv, RowsDone, FiresBy, OthersOnly, Act, CanAct, Do, Enabled, Exec, IsDueList, DistinctIds, Own,
          RowsActions, TakenAt, OtherRowsKept, AllKept, Unmoved, PreAdvanced;
      ghost var s0 := St();
      var rows, now, broken, first, seen := BeginTick(n);
      if broken {
        r := Failure("cron: tick error");
        l := TickLog(r, first, seen, rows, [], []);
        NoRows(cfg, s0, n, now, rows);
        return;
      }
      if rows == [] {
        r := Success(TickOutcome(0, 0));
        l := TickLog(r, first, seen, rows, [], []);
        NothingDone(cfg, s0, St(), first, n, now);
        return;
      }
      ghost var s1 := St();
      ghost var more, outcomes, asked;
      r, more, outcomes, asked := TickRows(n, now, rows);
      ExecConcat(cfg, s0, first, more);
      OwnConcat(first, more, n);
      TakenStays(cfg, s0, first, more, n, ReadDue(rows), seen);
      PreAdvancedStays(cfg, s0, first, more, n, now);
      RowsLater(cfg, s0, first, s1, more, St(), n, now, rows, outcomes, asked);
      l := TickLog(r, first + more, seen, rows, outcomes, asked);
      if r.Success? {
        ghost var s2, last := St(), [By(n, Finish)];
        drivers := drivers[n := Driver(Idle, 0, [], 0)];
        FinishTick(cfg, s0, first + more, s2, n);
        OwnFinish(first + more, n);
        RowsStay(cfg, s0, first + more, s2, last, St(), n, now, rows, outcomes, asked);
        TakenStays(cfg, s0, first + more, last, n, ReadDue(rows), seen);
        PreAdvancedStays(cfg, s0, first + more, last, n, now);
        l := TickLog(r, first + more + last, seen, rows, outcomes, asked);
      }
    }

    /** Capture the clock and read the due rows. */
    method ReadList(n: string)
      returns (due: seq<Entry>, now: int, broken: bool, ghost steps: seq<Step>, ghost seen: State)
      requires LeaseInv(cfg, St()) && n in drivers && drivers[n].pc == Idle
      modifies this
      ensures LeaseInv(cfg, St()) && Exec(cfg, old(St()), steps) == Some(St()) && n in drivers
      ensures broken ==> drivers[n].pc == Idle && due == [] && Own(steps, n) == [Start, Crash]
      ensures !broken ==> drivers[n] == Driver(HasRead, now, due, 0) && Own(steps, n) == [Start, ReadDue(due)]
      ensures !broken ==> old(clock) == now && IsDueList(seen.jobs, now, n, due) && DistinctIds(due)
      ensures !broken ==> TakenAt(cfg, old(St()), steps, n, ReadDue(due), seen)
      ensures !broken ==> AllKept(old(St()), St(), n) && FiresBy(fires, n) == FiresBy(old(fires), n)
    {
      hide LeaseInv, FiresBy, OthersOnly, Exec, IsDueList, Rely, DistinctIds, Own, TakenAt, AllKept;
      ghost var s0, more := St(), [];
      now, due := clock, [];
      drivers := drivers[n := Driver(Started, now, [], 0)];
      ghost var s1 := St();
      OwnStep(cfg, s0, [], s0, n, Start);
      steps := [] + [By(n, Start)];
      NoOwn(n);
      more := Interfere(n);
      seen := St();
      OthersStep(cfg, s0, steps, s1, more, n);
      AllKeptTransitive(s0, s1, seen, n);
      steps := steps + more;
      broken := *;
      if broken { steps := EndTickAfter(n, s0, steps); return; }
      due := QueryDue(now, n);
      DueListHasDistinctIds(jobs, now, n, due);
      OwnStep(cfg, s0, steps, seen, n, ReadDue(due));
      AllKeptTransitive(s0, seen, St(), n);
      TakenLast(cfg, s0, steps, n, ReadDue(due), seen);
      steps := steps + [By(n, ReadDue(due))];
    }

    /** The part of a tick before its loop: capture the clock, read the due rows, and
        pre-advance them unless there are none. */
    method BeginTick(n: string)
      returns (due: seq<Entry>, now: int, broken: bool, ghost steps: seq<Step>, ghost seen: State)
      requires LeaseInv(cfg, St()) && n in drivers && drivers[n].pc == Idle
      modifies this
      ensures LeaseInv(cfg, St()) && Exec(cfg, old(St()), steps) == Some(St()) && n in drivers
      ensures broken ==> drivers[n].pc == Idle && BrokenOff(Own(steps, n), due)
      ensures !broken ==> Own(steps, n) == [Start, ReadDue(due), if due == [] then Finish else PreAdvance]
      ensures !broken ==> old(clock) == now && IsDueList(seen.jobs, now, n, due) && DistinctIds(due)
      ensures !broken ==> TakenAt(cfg, old(St()), steps, n, ReadDue(due), seen)
      ensures !broken ==> FiresBy(fires, n) == FiresBy(old(fires), n)
      ensures !broken ==> drivers[n] == if due == [] then Driver(Idle, 0, [], 0) else Driver(AtJob, now, due, 0)
      ensures !broken ==> AllKept(old(St()), St(), n)
      ensures !broken && due != [] ==> PreAdvanced(cfg, old(St()), steps, n, now)
    {
      hide LeaseInv, FiresBy, OthersOnly, Exec, IsDueList, Rely, DistinctIds, Own, TakenAt, AllKept, PreAdvanced;
      ghost var s0, more := St(), [];
      due, now, broken, steps, seen := ReadList(n);
      if broken { return; }
      ghost var s2 := St();
      if due == [] {
        drivers := drivers[n := Driver(Idle, 0, [], 0)];
        OwnStep(cfg, s0, steps, s2, n, Finish);
        AllKeptTransitive(s0, s2, St(), n);
        TakenStays(cfg, s0, steps, [By(n, Finish)], n, ReadDue(due), seen);
        steps := steps + [By(n, Finish)];
        return;
      }
      // the pre-advance UPDATE
      more := Interfere(n);
      ghost var s3 := St();
      OthersStep(cfg, s0, steps, s2, more, n);
      AllKeptTransitive(s0, s2, s3, n);
      TakenStays(cfg, s0, steps, more, n, ReadDue(due), seen);
      steps := steps + more;
      broken := *;
      if broken { steps := EndTickAfter(n, s0, steps); return; }
      jobs := Advanced(cfg, jobs, now, n);
      drivers := drivers[n := drivers[n].(pc := AtJob)];
      OwnStep(cfg, s0, steps, s3, n, PreAdvance);
      AllKeptTransitive(s0, s3, St(), n);
      TakenStays(cfg, s0, steps, [By(n, PreAdvance)], n, ReadDue(due), seen);
      PreAdvancedLast(cfg, s0, steps, n, now, s3, St());
      steps := steps + [By(n, PreAdvance)];
      // reading the current catalog
      broken := *;
      if broken { steps := EndTickAfter(n, s0, steps); }
    }

    /** `cron run`: tick after tick, a failed tick being no reason to stop; between them the driver
        sleeps and the others go on. */
    method Run(n: string, rounds: nat) returns (ghost log: seq<Round>)
      requires LeaseInv(cfg, St()) && n in drivers && drivers[n].pc == Idle
      modifies this
      ensures LeaseInv(cfg, St()) && |log| == rounds
      ensures RoundsFrom(cfg, old(St()), n, log) && St() == EndOf(old(St()), log)
      ensures Exec(cfg, old(St()), AllSteps(log)) == Some(St())
    {
      hide LeaseInv, Exec, OthersOnly, Rely, RoundsFrom, EndOf, AllSteps, Completed, Interrupted;
      ghost var s0 := St();
      NoRounds(cfg, s0, n);
      log := [];
      for k := 0 to rounds
        invariant LeaseInv(cfg, St()) && n in drivers && drivers[n].pc == Idle && |log| == k
        invariant RoundsFrom(cfg, s0, n, log) && St() == EndOf(s0, log)
        invariant Exec(cfg, s0, AllSteps(log)) == Some(St())
      {
        ghost var s1 := St();
        var wait := Interfere(n);
        ghost var s2 := St();
        OthersRely(cfg, s1, wait, n);
        RelyHasDriver(s1, s2, n);
        var _, l := Tick(n);
        ghost var round := Round(wait, s2, l, St());
        RoundsGrow(cfg, s0, n, log, round);
        log := log + [round];
      }
    }
  }

  /** One round of `cron run`: the others while the driver waits, then its tick. */
  datatype Round = Round(wait: seq<Step>, start: State, tick: TickLog, end: State)

  function EndOf(s: State, log: seq<Round>): State {
    if log == [] then s else log[|log| - 1].end
  }

  function AllSteps(log: seq<Round>): seq<Step> {
    if log == [] then [] else AllSteps(log[..|log| - 1]) + log[|log| - 1].wait + log[|log| - 1].tick.steps
  }

  ghost predicate TickEnds(cfg: Config, s: State, t: State, n: string, l: TickLog) {
    if l.r.Success? then Completed(cfg, s, t, n, l) else Interrupted(cfg, s, t, n, l)
  }

  ghost predicate IsRound(cfg: Config, s: State, n: string, r: Round) {
    && OthersOnly(r.wait, n) && Exec(cfg, s, r.wait) == Some(r.start)
    && Exec(cfg, r.start, r.tick.steps) == Some(r.end)
    && TickEnds(cfg, r.start, r.end, n, r.tick)
  }

  /** Each round is a wait and a whole tick, completed or interrupted, from where the last ended. */
  ghost predicate RoundsFrom(cfg: Config, s: State, n: string, log: seq<Round>) {
    forall k :: 0 <= k < |log| ==> IsRound(cfg, EndOf(s, log[..k]), n, log[k])
  }

  lemma NoRounds(cfg: Config, s: State, n: string)
    ensures RoundsFrom(cfg, s, n, []) && EndOf(s, []) == s && Exec(cfg, s, AllSteps([])) == Some(s)
  {}

  lemma RoundsGrow(cfg: Config, s: State, n: string, log: seq<Round>, r: Round)
    requires RoundsFrom(cfg, s, n, log) && Exec(cfg, s, AllSteps(log)) == Some(EndOf(s, log))
    requires OthersOnly(r.wait, n) && Exec(cfg, EndOf(s, log), r.wait) == Some(r.start)
    requires Exec(cfg, r.start, r.tick.steps) == Some(r.end)
    requires TickEnds(cfg, r.start, r.end, n, r.tick)
    ensures RoundsFrom(cfg, s, n, log + [r]) && EndOf(s, log + [r]) == r.end
    ensures Exec(cfg, s, AllSteps(log + [r])) == Some(r.end)
  {
    hide Exec, Completed, Interrupted, OthersOnly;
    var all := log + [r];
    assert all[..|log|] == log;
    forall k | 0 <= k < |all| ensures IsRound(cfg, EndOf(s, all[..k]), n, all[k]) {
      if k < |log| { assert all[..k] == log[..k]; }
    }
    ExecConcat(cfg, s, AllSteps(log), r.wait);
    ExecConcat(cfg, s, AllSteps(log) + r.wait, r.tick.steps);
  }

  /** `cron_due_for`: the due rows by `next_run_at`. */
  method SelectDue(jobs: map<nat, Job>, now: int, n: string) returns (due: seq<Entry>)
    ensures IsDueList(jobs, now, n, due)
  {
    var left := set id | id in jobs && Due(jobs[id], now, n);
    due := [];
    while left != {}
      invariant forall id :: id in left ==> id in jobs && Due(jobs[id], now, n)
      invariant forall k :: 0 <= k < |due| ==> IsRow(jobs, now, n, due[k]) && due[k].id !in left
      invariant forall id :: id in jobs && Due(jobs[id], now, n) && id !in left ==> Listed(due, id)
      invariant forall j, k :: 0 <= j < k < |due| ==> due[j].id != due[k].id && due[j].window <= due[k].window
      invariant forall k, id :: 0 <= k < |due| && id in left ==> due[k].window <= jobs[id].next.value
      decreases left
    {
      EarliestExists(jobs, left);
      var id :| id in left && forall o :: o in left ==> jobs[id].next.value <= jobs[o].next.value;
      ghost var before := due;
      due := due + [Entry(id, jobs[id].next.value, jobs[id].database)];
      left := left - {id};
      forall o | Listed(before, o) || o == id ensures Listed(due, o) {
        if o == id {
          assert due[|before|].id == id;
        } else {
          var k :| 0 <= k < |before| && before[k].id == o;
          assert due[k].id == o;
        }
      }
    }
  }

  lemma EarliestExists(jobs: map<nat, Job>, ids: set<nat>)
    requires ids != {} && forall id :: id in ids ==> id in jobs && jobs[id].next.Some?
    ensures exists id :: id in ids && forall o :: o in ids ==> jobs[id].next.value <= jobs[o].next.value
    decreases ids
  {
    var x :| x in ids;
    if ids != {x} {
      EarliestExists(jobs, ids - {x});
      var y :| y in ids - {x} && forall o :: o in ids - {x} ==> jobs[y].next.value <= jobs[o].next.value;
      var z := if jobs[x].next.value <= jobs[y].next.value then x else y;
      assert forall o :: o in ids ==> o == x || o in ids - {x};
      assert z in ids && forall o :: o in ids ==> jobs[z].next.value <= jobs[o].next.value;
    }
  }
}
