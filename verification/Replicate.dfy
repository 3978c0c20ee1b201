/** Snapshot replication of a database file to an object store, and restore
    (crates/ducklink-host/src/replicate.rs:216-232, 317-468). Every upload is one step; it may be lost, or
    take effect with its reply lost, and the process may stop between any two steps. */
module Replicate {
  import opened Wrappers
  import opened Chars
  import opened Decimal
  import Utf8

  datatype ReplicaState =
    ReplicaState(generation: nat, snapshotTs: nat, snapshotKey: string, dbSize: nat, compressedSize: nat,
        dbName: string)

  const DEFAULT_STATE := ReplicaState(0, 0, "", 0, 0, "")

  /** The libraries the code calls: lz4 with a length prefix, JSON, UTF-8 decoding. */
  datatype Codec = Codec(
    compress: Bytes -> Bytes,
    decompress: Bytes -> Option<Bytes>,
    printState: ReplicaState -> Bytes,
    parseState: Bytes -> Option<ReplicaState>,
    text: Bytes -> Option<string>)

  datatype Env = Env(prefix: string, codec: Codec)

  ghost predicate Faithful(c: Codec) {
    && (forall raw :: c.decompress(c.compress(raw)) == Some(raw))
    && (forall st :: c.parseState(c.printState(st)) == Some(st))
    && (forall s | Utf8.AllAscii(s) :: c.text(AsciiBytes(s)) == Some(s))
  }

  function AsciiBytes(s: string): (b: Bytes)
    requires Utf8.AllAscii(s)
    ensures |b| == |s|
  {
    if s == [] then [] else [s[0] as int] + AsciiBytes(s[1..])
  }

  // ---------------------------------------------------------------------------
  // Object keys
  // ---------------------------------------------------------------------------

  const LATEST := "latest"
  const STATE_JSON := "state.json"

  function SnapSub(ts: nat): string {
    "snapshots/" + Digits(ts) + ".duckdb.lz4"
  }

  /** `S3Target::key`. */
  function Key(e: Env, sub: string): string {
    if e.prefix == "" then sub else e.prefix + "/" + sub
  }

  lemma KeyInjective(e: Env, a: string, b: string)
    requires Key(e, a) == Key(e, b)
    ensures a == b
  {
    if e.prefix != "" {
      var n := |e.prefix| + 1;
      assert Key(e, a)[n..] == a && Key(e, b)[n..] == b;
    }
  }

  lemma SnapSubShape(ts: nat)
    ensures Utf8.AllAscii(SnapSub(ts)) && |SnapSub(ts)| > 20
    ensures SnapSub(ts)[0] == 's' && SnapSub(ts)[1] == 'n' && SnapSub(ts)[|SnapSub(ts)| - 1] == '4'
  {}

  /** Different snapshots have different objects, none of them a pointer or a state file. */
  lemma SnapshotKeysDistinct(e: Env, ts: nat, other: nat)
    ensures Key(e, SnapSub(ts)) == Key(e, SnapSub(other)) ==> ts == other
    ensures Key(e, SnapSub(ts)) != Key(e, LATEST) && Key(e, SnapSub(ts)) != Key(e, STATE_JSON)
    ensures Key(e, LATEST) != Key(e, STATE_JSON)
  {
    SnapSubShape(ts);
    if Key(e, SnapSub(ts)) == Key(e, SnapSub(other)) {
      KeyInjective(e, SnapSub(ts), SnapSub(other));
      assert SnapSub(ts)[10..|SnapSub(ts)| - 11] == Digits(ts);
      assert SnapSub(other)[10..|SnapSub(other)| - 11] == Digits(other);
      DigitsInjective(ts, other);
    }
    if Key(e, SnapSub(ts)) == Key(e, LATEST) { KeyInjective(e, SnapSub(ts), LATEST); }
    if Key(e, SnapSub(ts)) == Key(e, STATE_JSON) { KeyInjective(e, SnapSub(ts), STATE_JSON); }
    if Key(e, LATEST) == Key(e, STATE_JSON) { KeyInjective(e, LATEST, STATE_JSON); }
  }

  // ---------------------------------------------------------------------------
  // The bucket as a step system
  // ---------------------------------------------------------------------------

  datatype Upload = SnapshotUp(ts: nat, raw: Bytes) | LatestUp(ts: nat) | StateUp(state: ReplicaState)

  /** A PUT that reports success, one that does nothing, one whose success is never heard. */
  datatype Fate = Stored | Lost | Unheard

  datatype Step = Step(upload: Upload, fate: Fate)

  /** The bucket, and what was put into it: the database behind every stored snapshot, the
      snapshot `latest` was last moved to, and the last stored state. `clock` is the last
      timestamp handed out. */
  datatype World = World(
    objects: map<string, Bytes>,
    taken: map<nat, Bytes>,
    published: Option<nat>,
    lastState: Option<ReplicaState>,
    clock: nat)

  function SubOf(u: Upload): string {
    match u
    case SnapshotUp(ts, _) => SnapSub(ts)
    case LatestUp(_) => LATEST
    case StateUp(_) => STATE_JSON
  }

  function BodyOf(e: Env, u: Upload): Bytes {
    match u
    case SnapshotUp(_, raw) => e.codec.compress(raw)
    case LatestUp(ts) => SnapSubShape(ts); AsciiBytes(SnapSub(ts))
    case StateUp(st) => e.codec.printState(st)
  }

  /** Timestamps strictly increase, and `latest` is moved only to a stored snapshot. */
  predicate Enabled(w: World, u: Upload) {
    match u
    case SnapshotUp(ts, _) => ts > w.clock
    case LatestUp(ts) => ts in w.taken
    case StateUp(_) => true
  }

  function Stamp(w: World, u: Upload): World {
    if u.SnapshotUp? then w.(clock := u.ts) else w
  }

  function Store(e: Env, w: World, u: Upload): World {
    var v := Stamp(w, u).(objects := w.objects[Key(e, SubOf(u)) := BodyOf(e, u)]);
    match u
    case SnapshotUp(ts, raw) => v.(taken := w.taken[ts := raw])
    case LatestUp(ts) => v.(published := Some(ts))
    case StateUp(st) => v.(lastState := Some(st))
  }

  function Do(e: Env, w: World, s: Step): World {
    if s.fate.Lost? then Stamp(w, s.upload) else Store(e, w, s.upload)
  }

  function Exec(e: Env, w: World, steps: seq<Step>): Option<World> {
    if steps == [] then Some(w) else
    match Exec(e, w, steps[..|steps| - 1])
    case None => None
    case Some(v) =>
      var s := steps[|steps| - 1];
      if Enabled(v, s.upload) then Some(Do(e, v, s)) else None
  }

  ghost predicate SnapshotsStored(e: Env, w: World) {
    forall ts | ts in w.taken ::
      ts <= w.clock && Key(e, SnapSub(ts)) in w.objects
        && w.objects[Key(e, SnapSub(ts))] == e.codec.compress(w.taken[ts])
  }

  /** `latest` is absent, or names a fully uploaded snapshot. */
  ghost predicate LatestOk(e: Env, w: World) {
    match w.published
    case None => Key(e, LATEST) !in w.objects
    case Some(ts) =>
      && ts in w.taken
      && Key(e, LATEST) in w.objects
      && w.objects[Key(e, LATEST)] == BodyOf(e, LatestUp(ts))
  }

  ghost predicate StateOk(e: Env, w: World) {
    match w.lastState
    case None => Key(e, STATE_JSON) !in w.objects
    case Some(st) => Key(e, STATE_JSON) in w.objects && w.objects[Key(e, STATE_JSON)] == e.codec.printState(st)
  }

  ghost predicate Inv(e: Env, w: World) {
    SnapshotsStored(e, w) && LatestOk(e, w) && StateOk(e, w)
  }

  /** What a reader may rely on while a backup goes on: a stored snapshot stays as it was. */
  predicate Extends(v: World, w: World) {
    v.clock <= w.clock && forall ts | ts in v.taken :: ts in w.taken && w.taken[ts] == v.taken[ts]
  }

  lemma EmptyBucketIsSound(e: Env, clock: nat)
    ensures Inv(e, World(map[], map[], None, None, clock))
  {}

  /** An upload touches the object of snapshot `ts` only if it is that snapshot's own. */
  lemma TouchesOwnObject(e: Env, ts: nat, u: Upload)
    requires Key(e, SubOf(u)) == Key(e, SnapSub(ts))
    ensures u.SnapshotUp? && u.ts == ts
  {
    SnapshotKeysDistinct(e, ts, if u.SnapshotUp? then u.ts else 0);
  }

  lemma StepKeepsInv(e: Env, w: World, s: Step)
    requires Inv(e, w) && Enabled(w, s.upload)
    ensures Inv(e, Do(e, w, s)) && Extends(w, Do(e, w, s))
  {
    hide SnapSub, Key;
    var u, v := s.upload, Do(e, w, s);
    forall ts | ts in v.taken
      ensures ts <= v.clock && Key(e, SnapSub(ts)) in v.objects
        && v.objects[Key(e, SnapSub(ts))] == e.codec.compress(v.taken[ts])
    {
      if !s.fate.Lost? && Key(e, SubOf(u)) == Key(e, SnapSub(ts)) { TouchesOwnObject(e, ts, u); }
    }
    SnapshotKeysDistinct(e, if u.SnapshotUp? then u.ts else 0, 0);
  }

  lemma SnapshotBody(e: Env, ts: nat, raw: Bytes)
    ensures BodyOf(e, SnapshotUp(ts, raw)) == e.codec.compress(raw)
  {}

  lemma LatestBody(e: Env, ts: nat)
    ensures Utf8.AllAscii(SnapSub(ts)) && BodyOf(e, LatestUp(ts)) == AsciiBytes(SnapSub(ts))
  {
    SnapSubShape(ts);
  }

  lemma StateBody(e: Env, st: ReplicaState)
    ensures BodyOf(e, StateUp(st)) == e.codec.printState(st)
  {}

  lemma DoSnapshot(e: Env, w: World, s: Step)
    requires s.upload.SnapshotUp? && s.fate.Stored?
    ensures s.upload.ts in Do(e, w, s).taken
  {}

  lemma ExecNothing(e: Env, w: World)
    ensures Exec(e, w, []) == Some(w)
  {}

  /** At every point of every run, whatever uploads fail. */
  lemma {:induction false} RunKeepsInv(e: Env, w: World, steps: seq<Step>)
    requires Inv(e, w) && Exec(e, w, steps).Some?
    ensures Inv(e, Exec(e, w, steps).value) && Extends(w, Exec(e, w, steps).value)
  {
    hide Do, Inv;
    if steps != [] {
      var k := |steps| - 1;
      RunKeepsInv(e, w, steps[..k]);
      StepKeepsInv(e, Exec(e, w, steps[..k]).value, steps[k]);
    }
  }

  lemma {:induction false} ExecConcat(e: Env, w: World, steps: seq<Step>, more: seq<Step>)
    requires Exec(e, w, steps).Some?
    ensures Exec(e, w, steps + more) == Exec(e, Exec(e, w, steps).value, more)
  {
    if more == [] {
      assert steps + more == steps;
    } else {
      var k := |more| - 1;
      ExecConcat(e, w, steps, more[..k]);
      assert (steps + more)[..|steps + more| - 1] == steps + more[..k];
    }
  }

  // ---------------------------------------------------------------------------
  // Restore as a function of the bucket
  // ---------------------------------------------------------------------------

  function SnapshotNamed(e: Env, w: World): Option<string> {
    if Key(e, LATEST) !in w.objects then None else
    var s := e.codec.text(w.objects[Key(e, LATEST)]);
    if s.None? then None else Some(Trim(s.value))
  }

  function Fetch(e: Env, w: World, sub: string): Option<Bytes> {
    if Key(e, sub) !in w.objects then None else e.codec.decompress(w.objects[Key(e, sub)])
  }

  lemma TrimOfSnapSub(ts: nat)
    ensures Trim(SnapSub(ts)) == SnapSub(ts)
  {
    SnapSubShape(ts);
  }

  lemma LatestReads(e: Env, w: World)
    requires Inv(e, w) && Faithful(e.codec)
    ensures w.published.Some? <==> Key(e, LATEST) in w.objects
    ensures w.published.None? ==> SnapshotNamed(e, w) == None
    ensures w.published.Some? ==> SnapshotNamed(e, w) == Some(SnapSub(w.published.value))
  {
    if w.published.Some? {
      var ts := w.published.value;
      SnapSubShape(ts);
      TrimOfSnapSub(ts);
      var sub := SnapSub(ts);
      assert w.objects[Key(e, LATEST)] == AsciiBytes(sub);
      assert e.codec.text(AsciiBytes(sub)) == Some(sub);
    }
  }

  /** A restore that reads `latest` now and the snapshot any number of upload steps later gets
      exactly the database that was published when it read `latest`. */
  lemma RestoreDuringBackup(e: Env, w: World, steps: seq<Step>)
    requires Inv(e, w) && Faithful(e.codec) && Exec(e, w, steps).Some?
    ensures SnapshotNamed(e, w).Some? <==> w.published.Some?
    ensures w.published.Some? ==>
      Fetch(e, Exec(e, w, steps).value, SnapshotNamed(e, w).value) == Some(w.taken[w.published.value])
  {
    LatestReads(e, w);
    RunKeepsInv(e, w, steps);
    if w.published.Some? {
      var v := Exec(e, w, steps).value;
      var ts := w.published.value;
      assert ts in v.taken;
      assert e.codec.decompress(e.codec.compress(v.taken[ts])) == Some(v.taken[ts]);
    }
  }

  /** The database the last effective move of `latest` published. */
  function LastPublished(steps: seq<Step>, before: Option<nat>): Option<nat> {
    if steps == [] then before else
    var s := steps[|steps| - 1];
    if s.upload.LatestUp? && !s.fate.Lost? then Some(s.upload.ts) else LastPublished(steps[..|steps| - 1], before)
  }

  /** Which snapshot a restore gets: the last whose `latest` upload took effect. */
  lemma {:induction false} PublishedIsLast(e: Env, w: World, steps: seq<Step>)
    requires Exec(e, w, steps).Some?
    ensures Exec(e, w, steps).value.published == LastPublished(steps, w.published)
  {
    if steps != [] { PublishedIsLast(e, w, steps[..|steps| - 1]); }
  }

  function LastHeard(steps: seq<Step>, before: Option<nat>): Option<nat> {
    if steps == [] then before else
    var s := steps[|steps| - 1];
    if s.upload.LatestUp? && s.fate.Stored? then Some(s.upload.ts) else LastHeard(steps[..|steps| - 1], before)
  }

  /** The last move of `latest` that took effect, if any, also reported success. */
  predicate LastMoveHeard(steps: seq<Step>) {
    steps == []
    || var s := steps[|steps| - 1];
       if s.upload.LatestUp? && !s.fate.Lost? then s.fate.Stored? else LastMoveHeard(steps[..|steps| - 1])
  }

  ghost predicate MovesOnce(steps: seq<Step>, before: Option<nat>) {
    && (forall j, k | 0 <= j < k < |steps| && steps[j].upload.LatestUp? && steps[k].upload.LatestUp? ::
          steps[j].upload.ts != steps[k].upload.ts)
    && (forall k | 0 <= k < |steps| && steps[k].upload.LatestUp? :: before != Some(steps[k].upload.ts))
  }

  /** The published snapshot is the last one whose `latest` upload reported success exactly when
      the reply to the last effective one was not lost. */
  lemma {:induction false} PublishedIsLastHeard(steps: seq<Step>, before: Option<nat>)
    requires MovesOnce(steps, before)
    ensures LastPublished(steps, before) == LastHeard(steps, before) <==> LastMoveHeard(steps)
  {
    if steps != [] {
      var k := |steps| - 1;
      var s := steps[k];
      PublishedIsLastHeard(steps[..k], before);
      if s.upload.LatestUp? && s.fate.Unheard? { HeardEarlier(steps[..k], before); }
    }
  }

  lemma {:induction false} HeardEarlier(steps: seq<Step>, before: Option<nat>)
    ensures LastHeard(steps, before) == before
      || exists k :: 0 <= k < |steps| && steps[k].upload.LatestUp? && LastHeard(steps,
          before) == Some(steps[k].upload.ts)
  {
    if steps != [] {
      var k := |steps| - 1;
      HeardEarlier(steps[..k], before);
      if LastHeard(steps, before) != before && !(steps[k].upload.LatestUp? && steps[k].fate.Stored?) {
        var j :| 0 <= j < k && steps[..k][j].upload.LatestUp? && LastHeard(steps[..k],
            before) == Some(steps[..k][j].upload.ts);
        assert steps[j] == steps[..k][j];
      }
    }
  }

  lemma ExecSnoc(e: Env, w: World, steps: seq<Step>, s: Step)
    requires Exec(e, w, steps).Some?
    ensures Exec(e, w, steps + [s]) ==
      if Enabled(Exec(e, w, steps).value, s.upload) then Some(Do(e, Exec(e, w, steps).value, s)) else None
  {
    assert (steps + [s])[..|steps|] == steps;
  }

  /** The bucket after one fully reported snapshot. */
  function AfterFirst(e: Env, ts: nat, raw: Bytes): World {
    Store(e, Store(e, World(map[], map[], None, None, 0), SnapshotUp(ts, raw)), LatestUp(ts))
  }

  /** Strictly increasing timestamps matter: with a repeated one, a second snapshot that never
      reached `latest` replaces the published one. */
  lemma RepeatedTimestampReplaces(e: Env, ts: nat, a: Bytes, b: Bytes)
    requires Faithful(e.codec) && ts > 0
    ensures var w := AfterFirst(e, ts, a);
            var v := Store(e, w, SnapshotUp(ts, b));
            && Inv(e, w)
            && SnapshotNamed(e, v) == SnapshotNamed(e, w) == Some(SnapSub(ts))
            && Fetch(e, w, SnapSub(ts)) == Some(a) && Fetch(e, v, SnapSub(ts)) == Some(b)
  {
    hide Inv, SnapSub, Key;
    var w0 := World(map[], map[], None, None, 0);
    EmptyBucketIsSound(e, 0);
    StepKeepsInv(e, w0, Step(SnapshotUp(ts, a), Stored));
    var w1 := Store(e, w0, SnapshotUp(ts, a));
    StepKeepsInv(e, w1, Step(LatestUp(ts), Stored));
    LatestReads(e, AfterFirst(e, ts, a));
    SnapshotKeysDistinct(e, ts, ts);
    assert e.codec.decompress(e.codec.compress(a)) == Some(a) && e.codec.decompress(e.codec.compress(b)) == Some(b);
  }

  // ---------------------------------------------------------------------------
  // The code
  // ---------------------------------------------------------------------------

  datatype BackupError = CheckpointFailed | ReadFailed | SnapshotUploadFailed | LatestUploadFailed | StateUploadFailed

  datatype RestoreError = LatestUnreadable | LatestNotUtf8 | SnapshotUnreadable | DecompressFailed

  /** What a snapshot attempt did to the bucket, by how it ended. */
  ghost predicate AttemptSteps(r: Result<ReplicaState, BackupError>, ts: nat, raw: Bytes, st: ReplicaState,
      steps: seq<Step>) {
    if r.Success? then
      && r.value == st
      && steps == [Step(SnapshotUp(ts, raw), Stored), Step(LatestUp(ts), Stored), Step(StateUp(st), Stored)]
    else match r.error
      case CheckpointFailed => steps == []
      case ReadFailed => steps == []
      case SnapshotUploadFailed =>
        |steps| == 1 && steps[0].upload == SnapshotUp(ts, raw) && !steps[0].fate.Stored?
      case LatestUploadFailed =>
        |steps| == 2 && steps[0] == Step(SnapshotUp(ts, raw), Stored) && steps[1].upload == LatestUp(ts)
          && !steps[1].fate.Stored?
      case StateUploadFailed =>
        && |steps| == 3 && steps[..2] == [Step(SnapshotUp(ts, raw), Stored), Step(LatestUp(ts), Stored)]
        && steps[2].upload == StateUp(st) && !steps[2].fate.Stored?
  }

  ghost function StateFor(e: Env, prev: ReplicaState, ts: nat, raw: Bytes, dbName: string): ReplicaState {
    ReplicaState(prev.generation + 1, ts, SnapSub(ts), |raw|, |e.codec.compress(raw)|, dbName)
  }

  ghost predicate AttemptFrom(e: Env, prev: ReplicaState, clock: nat, db: Bytes, dbName: string,
      r: Result<ReplicaState, BackupError>, steps: seq<Step>) {
    exists ts: nat :: ts > clock && AttemptSteps(r, ts, db, StateFor(e, prev, ts, db, dbName), steps)
  }

  /** One snapshot attempt of a run, from the state it was given to how it ended. */
  datatype Attempt = Attempt(prev: ReplicaState, ts: nat, raw: Bytes, dbName: string, r: Result<ReplicaState,
      BackupError>, steps: seq<Step>)

  ghost predicate IsAttempt(e: Env, a: Attempt) {
    AttemptSteps(a.r, a.ts, a.raw, StateFor(e, a.prev, a.ts, a.raw, a.dbName), a.steps)
  }

  /** The state the next attempt is given: the last reported success's. */
  function Carried(log: seq<Attempt>): ReplicaState {
    if log == [] then DEFAULT_STATE else
    var a := log[|log| - 1];
    if a.r.Success? then a.r.value else Carried(log[..|log| - 1])
  }

  /** The attempts of one run: each is given what the earlier ones carry over, and a failure of the
      first is the last. */
  ghost predicate IsRun(e: Env, log: seq<Attempt>) {
    && (forall k :: 0 <= k < |log| ==> IsAttempt(e, log[k]) && log[k].prev == Carried(log[..k]))
    && (|log| > 1 ==> log[0].r.Success?)
  }

  function AllSteps(log: seq<Attempt>): seq<Step> {
    if log == [] then [] else AllSteps(log[..|log| - 1]) + log[|log| - 1].steps
  }

  lemma RunGrows(e: Env, log: seq<Attempt>, a: Attempt)
    requires IsRun(e, log) && IsAttempt(e, a) && a.prev == Carried(log) && (log == [] || log[0].r.Success?)
    ensures IsRun(e, log + [a]) && AllSteps(log + [a]) == AllSteps(log) + a.steps
    ensures Carried(log + [a]) == if a.r.Success? then a.r.value else Carried(log)
  {
    hide IsAttempt, Carried;
    var all := log + [a];
    assert all[..|log|] == log;
    assert Carried(all) == (if a.r.Success? then a.r.value else Carried(log)) by { CarriedStep(log, a); }
    forall k | 0 <= k < |all| ensures IsAttempt(e, all[k]) && all[k].prev == Carried(all[..k]) {
      if k < |log| { assert all[..k] == log[..k]; }
    }
  }

  lemma CarriedStep(log: seq<Attempt>, a: Attempt)
    ensures Carried(log + [a]) == if a.r.Success? then a.r.value else Carried(log)
  {
    assert (log + [a])[..|log|] == log;
  }

  lemma NoRun(e: Env)
    ensures IsRun(e, []) && AllSteps([]) == [] && Carried([]) == DEFAULT_STATE
  {}

  lemma AttemptIntro(e: Env, prev: ReplicaState, clock: nat, ts: nat, db: Bytes, dbName: string,
      r: Result<ReplicaState, BackupError>, steps: seq<Step>)
    requires ts > clock && AttemptSteps(r, ts, db, StateFor(e, prev, ts, db, dbName), steps)
    ensures AttemptFrom(e, prev, clock, db, dbName, r, steps)
  {}

  function After(e: Env, w: World, steps: seq<Step>): World {
    if steps == [] then w else Do(e, After(e, w, steps[..|steps| - 1]), steps[|steps| - 1])
  }

  lemma {:induction false} ExecIsAfter(e: Env, w: World, steps: seq<Step>)
    requires Exec(e, w, steps).Some?
    ensures Exec(e, w, steps).value == After(e, w, steps)
  {
    if steps != [] { ExecIsAfter(e, w, steps[..|steps| - 1]); }
  }

  lemma AfterThree(e: Env, w: World, steps: seq<Step>)
    requires |steps| <= 3
    ensures After(e, w, steps) ==
      if |steps| == 0 then w
      else if |steps| == 1 then Do(e, w, steps[0])
      else if |steps| == 2 then Do(e, Do(e, w, steps[0]), steps[1])
      else Do(e, Do(e, Do(e, w, steps[0]), steps[1]), steps[2])
  {
    hide Do;
    if |steps| >= 2 { assert steps[..|steps| - 1][..|steps| - 2] == steps[..|steps| - 2]; }
    if |steps| == 3 { assert steps[..2][..1] == steps[..1]; }
  }

  /** How one snapshot attempt moves `latest`: to this database when the pointer upload took
      effect, whatever the attempt reported, and not at all otherwise. */
  lemma AttemptPublishes(e: Env, w: World, ts: nat, raw: Bytes, st: ReplicaState, r: Result<ReplicaState,
      BackupError>, steps: seq<Step>)
    requires AttemptSteps(r, ts, raw, st, steps) && Exec(e, w, steps).Some?
    ensures var v := Exec(e, w, steps).value;
            var moved := r.Success? || r.error.StateUploadFailed?
              || (r.error.LatestUploadFailed? && !steps[1].fate.Lost?);
            && v.published == (if moved then Some(ts) else w.published)
            && (moved ==> v.taken == w.taken[ts := raw])
            && (r.Success? ==> v.lastState == Some(st))
            && (r.Failure? && !r.error.StateUploadFailed? ==> v.lastState == w.lastState)
  {
    hide Key, SnapSub, BodyOf, Exec, After, Enabled;
    ExecIsAfter(e, w, steps);
    AfterThree(e, w, steps);
    if |steps| == 3 { assert steps[..2][0] == steps[0] && steps[..2][1] == steps[1]; }
  }

  /** What lies in the bucket under the prefix: the snapshot compressed under its name, its name in
      `latest`, and the state, whose fields describe this very snapshot, in `state.json`. */
  ghost predicate Deposited(e: Env, objects: map<string, Bytes>, st: ReplicaState, raw: Bytes, dbName: string) {
    var under := if e.prefix == "" then "" else e.prefix + "/";
    var name := "snapshots/" + Digits(st.snapshotTs) + ".duckdb.lz4";
    && under + name in objects && under + "latest" in objects && under + "state.json" in objects
    && objects[under + name] == e.codec.compress(raw)
    && e.codec.text(objects[under + "latest"]) == Some(name)
    && e.codec.parseState(objects[under + "state.json"]) == Some(st)
    && st.snapshotKey == name && st.dbSize == |raw| && st.compressedSize == |e.codec.compress(raw)|
    && st.dbName == dbName
  }

  lemma SuccessDeposits(e: Env, w: World, prev: ReplicaState, ts: nat, raw: Bytes, dbName: string)
    requires Inv(e, w) && Faithful(e.codec) && w.published == Some(ts) && ts in w.taken && w.taken[ts] == raw
    requires w.lastState == Some(StateFor(e, prev, ts, raw, dbName))
    ensures Deposited(e, w.objects, StateFor(e, prev, ts, raw, dbName), raw, dbName)
  {
    LatestBody(e, ts);
    KeyIsUnderPrefix(e, SnapSub(ts));
    KeyIsUnderPrefix(e, LATEST);
    KeyIsUnderPrefix(e, STATE_JSON);
  }

  lemma KeyIsUnderPrefix(e: Env, sub: string)
    ensures Key(e, sub) == (if e.prefix == "" then "" else e.prefix + "/") + sub
  {}

  class Replica {
    const env: Env
    const dbName: string
    var db: Bytes
    var objects: map<string, Bytes>
    var millis: nat
    ghost var taken: map<nat, Bytes>
    ghost var published: Option<nat>
    ghost var lastState: Option<ReplicaState>
    ghost var stamp: nat

    constructor (env: Env, dbName: string, db: Bytes)
      requires Faithful(env.codec)
      ensures Valid() && this.env == env && this.dbName == dbName && this.db == db
      ensures Now() == World(map[], map[], None, None, 0)
    {
      this.env, this.dbName, this.db := env, dbName, db;
      objects, millis, taken, published, lastState, stamp := map[], 0, map[], None, None, 0;
      new;
      EmptyBucketIsSound(env, 0);
    }

    ghost function Now(): World
      reads this
    {
      World(objects, taken, published, lastState, stamp)
    }

    ghost predicate Valid()
      reads this
    {
      Faithful(env.codec) && Inv(env, Now()) && stamp <= millis
    }

    method Checkpoint() returns (ok: bool)
    {
      ok := *;
    }

    /** `fs::read` of the checkpointed file. */
    method ReadDatabase() returns (raw: Option<Bytes>)
      ensures raw.Some? ==> raw.value == db
    {
      var readable: bool := *;
      raw := if readable then Some(db) else None;
    }

    /** The host clock, taken never to give the same time twice or an earlier one. */
    method NowMillis() returns (ts: nat)
      requires Valid()
      modifies this`millis
      ensures Valid() && ts == millis && ts > old(millis)
    {
      var passed: int := *;
      millis := millis + 1 + (if passed < 0 then -passed else passed);
      ts := millis;
    }

    /** A PUT: reports success, or fails with or without having taken effect. */
    method PutObject(ghost u: Upload, key: string, body: Bytes) returns (ok: bool, ghost step: Step)
      requires Valid() && Enabled(Now(), u) && key == Key(env, SubOf(u)) && body == BodyOf(env, u)
      requires u.SnapshotUp? ==> u.ts <= millis
      modifies this
      ensures Valid() && db == old(db) && millis == old(millis)
      ensures step.upload == u && ok == step.fate.Stored?
      ensures Now() == Do(env, old(Now()), step)
    {
      hide Inv, BodyOf, SnapSub, Key, Enabled, SubOf;
      var applied: bool := *;
      var heard: bool := *;
      ok := applied && heard;
      step := Step(u, if ok then Stored else if applied then Unheard else Lost);
      StepKeepsInv(env, Now(), step);
      if u.SnapshotUp? { stamp := u.ts; }
      if applied {
        objects := objects[key := body];
        match u
        case SnapshotUp(ts, raw) => taken := taken[ts := raw];
        case LatestUp(ts) => published := Some(ts);
        case StateUp(st) => lastState := Some(st);
      }
    }

    /** One snapshot: the pointer moves only after the snapshot is stored, the state file last. */
    method SnapshotOnce(prev: ReplicaState)
      returns (r: Result<ReplicaState, BackupError>, ghost steps: seq<Step>, ghost attempt: Attempt)
      requires Valid()
      modifies this
      ensures Valid() && db == old(db) && old(millis) <= millis
      ensures IsAttempt(env, attempt) && attempt.prev == prev && attempt.raw == db && attempt.r == r
        && attempt.steps == steps
      ensures Exec(env, old(Now()), steps) == Some(Now())
      ensures AttemptFrom(env, prev, old(millis), db, dbName, r, steps)
      ensures r.Success? ==> old(millis) < r.value.snapshotTs <= millis && r.value.generation == prev.generation + 1
      ensures r.Success? ==> published == Some(r.value.snapshotTs) && lastState == Some(r.value)
      ensures r.Success? ==> Deposited(env, objects, r.value, db, dbName)
      ensures r.Success? || r.error.StateUploadFailed? ==>
        published.Some? && published.value in taken && taken[published.value] == db
      ensures r.Failure? && !r.error.LatestUploadFailed? && !r.error.StateUploadFailed? ==> published == old(published)
    {
      hide Inv, Key, SnapSub, Do, Exec, AttemptFrom, BodyOf, Deposited;
      ghost var w, from := Now(), millis;
      ghost var step: Step;
      var ts: nat := millis + 1;
      steps := [];
      ExecNothing(env, w);
      r := Failure(CheckpointFailed);
      var ok := Checkpoint();
      if ok {
        r := Failure(ReadFailed);
        var raw := ReadDatabase();
        if raw.Some? {
          var compressed := env.codec.compress(raw.value);
          ts := NowMillis();
          var snapSub := SnapSub(ts);
          r := Failure(SnapshotUploadFailed);
          SnapshotBody(env, ts, raw.value);
          ok, step := PutObject(SnapshotUp(ts, raw.value), Key(env, snapSub), compressed);
          ExecSnoc(env, w, steps, step);
          steps := steps + [step];
          if ok {
            var state := ReplicaState(prev.generation + 1, ts, snapSub, |raw.value|, |compressed|, dbName);
            r := Failure(LatestUploadFailed);
            SnapSubShape(ts);
            LatestBody(env, ts);
            DoSnapshot(env, After(env, w, []), step);
            ok, step := PutObject(LatestUp(ts), Key(env, LATEST), AsciiBytes(snapSub));
            ExecSnoc(env, w, steps, step);
            steps := steps + [step];
            if ok {
              r := Failure(StateUploadFailed);
              StateBody(env, state);
              ok, step := PutObject(StateUp(state), Key(env, STATE_JSON), env.codec.printState(state));
              ExecSnoc(env, w, steps, step);
              steps := steps + [step];
              if ok { r := Success(state); }
            }
          }
        }
      }
      AttemptIntro(env, prev, from, ts, db, dbName, r, steps);
      attempt := Attempt(prev, ts, db, dbName, r, steps);
      AttemptPublishes(env, w, ts, db, StateFor(env, prev, ts, db, dbName), r, steps);
      if r.Success? { SuccessDeposits(env, Now(), prev, ts, db, dbName); }
    }

    /** The wait between rounds, in which the database changes. */
    method Sleep()
      requires Valid()
      modifies this`db
      ensures Valid()
    {
      db := *;
    }

    /** `run_backup`, stopped after `rounds` waits in continuous mode. The generations of the
        snapshots it reports are 1, 2, 3, ..., whatever failed in between; only an error of the
        first snapshot ends the run. */
    method RunBackup(continuous: bool, rounds: nat)
      returns (r: Result<seq<ReplicaState>, BackupError>, ghost steps: seq<Step>, ghost log: seq<Attempt>)
      requires Valid()
      modifies this
      ensures Valid() && old(millis) <= millis
      ensures Exec(env, old(Now()), steps) == Some(Now()) && IsRun(env, log) && AllSteps(log) == steps
      ensures r.Success? ==> r.value != [] && Numbered(r.value) && AllStored(r.value, Now(), old(millis), millis)
      ensures r.Success? && !continuous ==> |r.value| == 1 && published == Some(r.value[0].snapshotTs)
      ensures r.Success? && !continuous ==> taken[r.value[0].snapshotTs] == db
      ensures r.Failure? ==> AttemptFrom(env, DEFAULT_STATE, old(millis), old(db), dbName, Failure(r.error), steps)
    {
      hide Inv, Exec, AttemptFrom, AllStored, Numbered, Extends, IsRun, IsAttempt, AllSteps, Carried;
      var first: Result<ReplicaState, BackupError>;
      ghost var w, from, more := Now(), millis, [];
      ghost var attempt: Attempt;
      NoStates(w, from);
      NoRun(env);
      first, steps, attempt := SnapshotOnce(DEFAULT_STATE);
      RunGrows(env, [], attempt);
      log := [] + [attempt];
      assert [] + steps == steps;
      if first.Failure? {
        return Failure(first.error), steps, log;
      }
      var state := first.value;
      RunKeepsInv(env, w, steps);
      AddState([], state, w, Now(), from, from, millis);
      var reported := [state];
      assert reported == [] + [state];
      if continuous {
        var round := 0;
        while round < rounds
          invariant Valid() && from <= millis && Exec(env, w, steps) == Some(Now())
          invariant reported != [] && state.generation == |reported|
          invariant IsRun(env, log) && AllSteps(log) == steps && log != [] && log[0].r.Success? && Carried(log) == state
          invariant Numbered(reported) && AllStored(reported, Now(), from, millis)
        {
          Sleep();
          ghost var v, mid := Now(), millis;
          var next: Result<ReplicaState, BackupError>;
          next, more, attempt := SnapshotOnce(state);
          ExecConcat(env, w, steps, more);
          RunGrows(env, log, attempt);
          log := log + [attempt];
          RunKeepsInv(env, v, more);
          steps := steps + more;
          if next.Success? {
            AddState(reported, next.value, v, Now(), from, mid, millis);
            state := next.value;
            reported := reported + [state];
          } else {
            KeepStates(reported, v, Now(), from, mid, millis);
          }
          round := round + 1;
        }
      }
      r := Success(reported);
    }

    /** What a backup running elsewhere does to the bucket in the meantime. */
    method Elsewhere() returns (ghost steps: seq<Step>)
      requires Valid()
      modifies this
      ensures Valid() && Exec(env, old(Now()), steps) == Some(Now())
    {
      steps := [];
    }

    /** A GET; it can fail on the way unless `online`. */
    method GetObject(key: string, online: bool) returns (body: Option<Bytes>)
      ensures body.Some? ==> key in objects && body.value == objects[key]
      ensures online && key in objects ==> body.Some?
    {
      var answered: bool := *;
      body := if key in objects && (online || answered) then Some(objects[key]) else None;
    }

    /** `run_restore`, with a backup free to upload between any two of its reads: it gives exactly
        the database that was published at the moment it read `latest`. */
    method RunRestore(dest: Option<string>, online: bool)
      returns (r: Result<(string, Bytes), RestoreError>, ghost before: seq<Step>, ghost seen: World,
          ghost after: seq<Step>)
      requires Valid()
      modifies this
      ensures Exec(env, old(Now()), before) == Some(seen) && Exec(env, seen, after) == Some(Now())
      ensures r.Success? ==>
        seen.published.Some? && seen.published.value in seen.taken && r.value.1 == seen.taken[seen.published.value]
      ensures r.Success? && dest.Some? ==> r.value.0 == dest.value
      ensures r.Success? && dest.None? ==>
        var st := old(lastState);
        if st.None? || st.value.dbName == "" then r.value.0 == "restored.duckdb"
        else r.value.0 == st.value.dbName || (!online && r.value.0 == "restored.duckdb")
      ensures r.Failure? ==> r.error.LatestUnreadable? || (r.error.SnapshotUnreadable? && seen.published.Some?)
      ensures online ==> (r.Success? <==> seen.published.Some?)
    {
      hide Inv, Exec, Key, SnapSub, Extends;
      ghost var w := Now();
      ReadsState(env, w);
      var stateBytes := GetObject(Key(env, STATE_JSON), online);
      var state := if stateBytes.Some? then env.codec.parseState(stateBytes.value) else None;
      before := Elsewhere();
      seen, after := Now(), [];
      ExecNothing(env, seen);
      LatestReads(env, seen);
      var latest := GetObject(Key(env, LATEST), online);
      if latest.None? { return Failure(LatestUnreadable), before, seen, after; }
      var name := env.codec.text(latest.value);
      if name.None? { return Failure(LatestNotUtf8), before, seen, after; }
      var snapKey := Trim(name.value);
      var target := RestoreName(dest, state);
      after := Elsewhere();
      RestoreDuringBackup(env, seen, after);
      PublishedTaken(env, seen);
      SnapshotStays(env, seen, Now(), after);
      var compressed := GetObject(Key(env, snapKey), online);
      if compressed.None? { return Failure(SnapshotUnreadable), before, seen, after; }
      var raw := env.codec.decompress(compressed.value);
      if raw.None? { return Failure(DecompressFailed), before, seen, after; }
      r := Success((target, raw.value));
    }
  }

  // ---------------------------------------------------------------------------
  // Generations over many runs
  // ---------------------------------------------------------------------------

  /** A state file that took effect: in which run, with which generation, and whether the attempt
      was told so. */
  datatype Posted = Posted(run: nat, generation: nat, heard: bool)

  function PostsOf(steps: seq<Step>, run: nat): seq<Posted> {
    if steps == [] then [] else
    var s := steps[|steps| - 1];
    PostsOf(steps[..|steps| - 1], run) +
    (if s.upload.StateUp? && !s.fate.Lost? then [Posted(run, s.upload.state.generation, s.fate.Stored?)] else [])
  }

  function RunPosts(log: seq<Attempt>, run: nat): seq<Posted> {
    if log == [] then [] else RunPosts(log[..|log| - 1], run) + PostsOf(log[|log| - 1].steps, run)
  }

  /** Every state file the runs left in the bucket, in order. */
  function AllPosts(runs: seq<seq<Attempt>>): seq<Posted> {
    if runs == [] then [] else AllPosts(runs[..|runs| - 1]) + RunPosts(runs[|runs| - 1], |runs| - 1)
  }

  lemma {:induction false} PostsConcat(a: seq<Step>, b: seq<Step>, run: nat)
    ensures PostsOf(a + b, run) == PostsOf(a, run) + PostsOf(b, run)
  {
    if b == [] {
      assert a + b == a;
    } else {
      assert (a + b)[..|a + b| - 1] == a + b[..|b| - 1];
      PostsConcat(a, b[..|b| - 1], run);
    }
  }

  /** The posts of a run are those of its steps. */
  lemma {:induction false} RunPostsAreOfSteps(log: seq<Attempt>, run: nat)
    ensures RunPosts(log, run) == PostsOf(AllSteps(log), run)
  {
    if log != [] {
      var n := |log| - 1;
      RunPostsAreOfSteps(log[..n], run);
      PostsConcat(AllSteps(log[..n]), log[n].steps, run);
    }
  }

  /** The last post is the state file a restore finds. */
  lemma {:induction false} LastPostIsState(e: Env, w: World, steps: seq<Step>, run: nat)
    requires Exec(e, w, steps).Some?
    ensures var (v, posts) := (Exec(e, w, steps).value, PostsOf(steps, run));
      if posts == [] then v.lastState == w.lastState
      else v.lastState.Some? && v.lastState.value.generation == posts[|posts| - 1].generation
  {
    if steps != [] { LastPostIsState(e, w, steps[..|steps| - 1], run); }
  }

  /** An attempt posts at most once, with the generation after the one it was given. */
  lemma AttemptPosts(e: Env, a: Attempt, run: nat)
    requires IsAttempt(e, a)
    ensures var posts := PostsOf(a.steps, run);
      && (a.r.Success? ==>
            posts == [Posted(run, a.prev.generation + 1, true)] && a.r.value.generation == a.prev.generation + 1)
      && (a.r.Failure? ==> posts == [] || posts == [Posted(run, a.prev.generation + 1, false)])
  {
    hide StateFor, SnapSub;
    NextGeneration(e, a.prev, a.ts, a.raw, a.dbName);
    var s := a.steps;
    if |s| >= 1 { assert s[..1][..0] == []; }
    if |s| == 2 { assert s[..2][..1] == s[..1]; }
    if |s| == 3 {
      assert s[..2][..1] == s[..1] && s[..2][0] == s[0] && s[..2][1] == s[1];
      assert PostsOf(s[..1], run) == PostsOf(s[..2], run) == [];
    }
  }

  lemma NextGeneration(e: Env, prev: ReplicaState, ts: nat, raw: Bytes, dbName: string)
    ensures StateFor(e, prev, ts, raw, dbName).generation == prev.generation + 1
  {}

  /** Of consecutive posts, the later has the larger generation exactly when both are of one run
      and the earlier was reported. */
  ghost predicate RiseWhenReported(posts: seq<Posted>) {
    forall k :: 0 <= k < |posts| - 1 ==>
      (posts[k].generation < posts[k + 1].generation <==> posts[k].run == posts[k + 1].run && posts[k].heard)
  }

  ghost predicate OfRun(posts: seq<Posted>, run: nat) {
    forall p :: p in posts ==> p.run == run && p.generation >= 1
  }

  /** The generation carried after the posts: that of the last, if it was reported. */
  predicate CarriesAfter(posts: seq<Posted>, generation: nat) {
    if posts == [] then generation == 0
    else generation + (if posts[|posts| - 1].heard then 0 else 1) == posts[|posts| - 1].generation
  }

  lemma {:induction false} RunRises(e: Env, log: seq<Attempt>, run: nat)
    requires IsRun(e, log)
    ensures var posts := RunPosts(log, run);
      && RiseWhenReported(posts) && OfRun(posts, run) && CarriesAfter(posts, Carried(log).generation)
      && (posts != [] ==> posts[0].generation == 1)
  {
    hide IsRun, IsAttempt, RiseWhenReported, OfRun, CarriesAfter, PostsOf;
    if log == [] {
      NoPosts(run);
    } else {
      var n := |log| - 1;
      var a := log[n];
      RunTail(e, log);
      RunRises(e, log[..n], run);
      AttemptPosts(e, a, run);
      AddPost(RunPosts(log[..n], run), PostsOf(a.steps, run), run, a.prev.generation, Carried(log).generation);
    }
  }

  lemma RunTail(e: Env, log: seq<Attempt>)
    requires IsRun(e, log) && log != []
    ensures var n := |log| - 1; IsRun(e, log[..n]) && IsAttempt(e, log[n]) && log[n].prev == Carried(log[..n])
  {
    hide IsAttempt, Carried;
    var n := |log| - 1;
    assert forall k | 0 <= k < n :: log[..n][k] == log[k] && log[..n][..k] == log[..k];
  }

  lemma NoPosts(run: nat)
    ensures RiseWhenReported([]) && OfRun([], run) && CarriesAfter([], 0)
  {}

  lemma AddPost(posts: seq<Posted>, more: seq<Posted>, run: nat, g: nat, g': nat)
    requires RiseWhenReported(posts) && OfRun(posts, run) && CarriesAfter(posts, g)
      && (posts != [] ==> posts[0].generation == 1)
    requires (more == [] && g' == g) || (more == [Posted(run, g + 1, true)] && g' == g + 1) || (more == [Posted(run,
        g + 1, false)] && g' == g)
    ensures RiseWhenReported(posts + more) && OfRun(posts + more, run) && CarriesAfter(posts + more, g')
    ensures posts + more != [] ==> (posts + more)[0].generation == 1
  {
    if posts != [] { assert posts[|posts| - 1] in posts; }
    JoinPosts(posts, more);
    if more == [] { assert posts + more == posts; }
  }

  /** Two stretches of posts, the second of at most one post or of a later run. */
  lemma JoinPosts(a: seq<Posted>, b: seq<Posted>)
    requires RiseWhenReported(a) && RiseWhenReported(b)
    requires a != [] && b != [] ==>
      (a[|a| - 1].generation < b[0].generation <==> a[|a| - 1].run == b[0].run && a[|a| - 1].heard)
    ensures RiseWhenReported(a + b)
  {
    var all := a + b;
    forall k | 0 <= k < |all| - 1
      ensures all[k].generation < all[k + 1].generation <==> all[k].run == all[k + 1].run && all[k].heard
    {
      if k < |a| - 1 {
        assert all[k] == a[k] && all[k + 1] == a[k + 1];
      } else if k >= |a| {
        assert all[k] == b[k - |a|] && all[k + 1] == b[k - |a| + 1];
      }
    }
  }

  lemma {:induction false} PostsBelow(e: Env, runs: seq<seq<Attempt>>)
    requires forall k :: 0 <= k < |runs| ==> IsRun(e, runs[k])
    ensures forall p :: p in AllPosts(runs) ==> p.run < |runs| && p.generation >= 1
  {
    hide IsRun;
    if runs != [] {
      var n := |runs| - 1;
      PostsBelow(e, runs[..n]);
      RunRises(e, runs[n], n);
    }
  }

  /** Over any runs on one bucket, whatever failed: of two consecutive state files that took
      effect, the later has the larger generation exactly when both are of one run and the earlier
      attempt reported success. */
  lemma {:induction false} GenerationRisesExactlyWhen(e: Env, runs: seq<seq<Attempt>>)
    requires forall k :: 0 <= k < |runs| ==> IsRun(e, runs[k])
    ensures RiseWhenReported(AllPosts(runs))
  {
    hide IsRun;
    if runs != [] {
      var n := |runs| - 1;
      var before, now := AllPosts(runs[..n]), RunPosts(runs[n], n);
      GenerationRisesExactlyWhen(e, runs[..n]);
      PostsBelow(e, runs[..n]);
      RunRises(e, runs[n], n);
      if before != [] && now != [] {
        assert before[|before| - 1] in before && now[0] in now;
      }
      JoinPosts(before, now);
    }
  }

  /** Every attempt with a later timestamp can happen. */
  lemma AttemptRuns(e: Env, w: World, a: Attempt)
    requires IsAttempt(e, a) && a.ts > w.clock
    ensures Exec(e, w, a.steps).Some? && Exec(e, w, a.steps).value.clock <= a.ts
  {
    hide Exec, StateFor, Key, SnapSub, BodyOf;
    var s := a.steps;
    ExecNothing(e, w);
    if |s| >= 1 {
      var one := Do(e, w, s[0]);
      ExecSnoc(e, w, [], s[0]);
      assert [] + [s[0]] == [s[0]];
      if |s| == 1 { assert s == [s[0]]; }
      if |s| >= 2 {
        if |s| == 3 { assert s[..2][0] == s[0] && s[..2][1] == s[1]; }
        DoSnapshot(e, w, s[0]);
        ExecSnoc(e, w, [s[0]], s[1]);
        assert [s[0]] + [s[1]] == [s[0], s[1]];
        if |s| == 2 { assert s == [s[0], s[1]]; }
        if |s| == 3 {
          ExecSnoc(e, w, [s[0], s[1]], s[2]);
          assert s == [s[0], s[1]] + [s[2]];
        }
      }
    }
  }

  ghost function Reported(e: Env, prev: ReplicaState, ts: nat, raw: Bytes): Attempt {
    var st := StateFor(e, prev, ts, raw, "db");
    Attempt(prev, ts, raw, "db", Success(st), 
      [Step(SnapshotUp(ts, raw), Stored), Step(LatestUp(ts), Stored), Step(StateUp(st), Stored)])
  }

  /** The state file is stored but the reply is lost. */
  ghost function Unreported(e: Env, prev: ReplicaState, ts: nat, raw: Bytes): Attempt {
    var st := StateFor(e, prev, ts, raw, "db");
    Attempt(prev, ts, raw, "db", Failure(StateUploadFailed), 
      [Step(SnapshotUp(ts, raw), Stored), Step(LatestUp(ts), Stored), Step(StateUp(st), Unheard)])
  }

  const EMPTY := World(map[], map[], None, None, 0)

  /** Two runs, each of one reported snapshot, leave generation 1 twice. */
  lemma SecondRunStartsAgain(e: Env, raw: Bytes)
    ensures var runs := [[Reported(e, DEFAULT_STATE, 1, raw)], [Reported(e, DEFAULT_STATE, 2, raw)]];
      && (forall k :: 0 <= k < |runs| ==> IsRun(e, runs[k]))
      && Exec(e, EMPTY, AllSteps(runs[0]) + AllSteps(runs[1])).Some?
      && AllPosts(runs) == [Posted(0, 1, true), Posted(1, 1, true)]
  {
    hide StateFor, IsAttempt, Carried, Exec, AllSteps;
    var a, b := Reported(e, DEFAULT_STATE, 1, raw), Reported(e, DEFAULT_STATE, 2, raw);
    ReportedIsAttempt(e, DEFAULT_STATE, 1, raw);
    ReportedIsAttempt(e, DEFAULT_STATE, 2, raw);
    OneAttempt(e, a, 0);
    OneAttempt(e, b, 1);
    OneAttemptSteps(a);
    OneAttemptSteps(b);
    AttemptRuns(e, EMPTY, a);
    AttemptRuns(e, Exec(e, EMPTY, a.steps).value, b);
    ExecConcat(e, EMPTY, a.steps, b.steps);
    var runs := [[a], [b]];
    assert runs[..1] == [[a]] && [[a]][..0] == [];
    assert AllPosts([[a]]) == RunPosts([a], 0);
  }

  lemma ReportedIsAttempt(e: Env, prev: ReplicaState, ts: nat, raw: Bytes)
    ensures IsAttempt(e, Reported(e, prev, ts, raw))
    ensures IsAttempt(e, Unreported(e, prev, ts, raw))
  {
    hide StateFor;
    var s := Unreported(e, prev, ts, raw).steps;
    assert s[..2] == [Step(SnapshotUp(ts, raw), Stored), Step(LatestUp(ts), Stored)];
  }

  lemma OneAttemptSteps(a: Attempt)
    ensures AllSteps([a]) == a.steps
  {
    assert [a][..0] == [] && [] + a.steps == a.steps;
  }

  lemma OneAttempt(e: Env, a: Attempt, run: nat)
    requires IsAttempt(e, a) && a.prev == DEFAULT_STATE
    ensures IsRun(e, [a]) && RunPosts([a], run) == PostsOf(a.steps, run)
    ensures a.r.Success? ==> PostsOf(a.steps, run) == [Posted(run, 1, true)] && Carried([a]) == a.r.value
  {
    hide IsAttempt;
    NoRun(e);
    RunGrows(e, [], a);
    assert [] + [a] == [a] && [a][..0] == [];
    AttemptPosts(e, a, run);
  }

  /** A state file whose reply was lost has its generation used again by the next success. */
  lemma LostReplyRepeatsGeneration(e: Env, raw: Bytes)
    ensures var a := Reported(e, DEFAULT_STATE, 1, raw);
      var log := [a, Unreported(e, a.r.value, 2, raw), Reported(e, a.r.value, 3, raw)];
      && IsRun(e, log) && Exec(e, EMPTY, AllSteps(log)).Some?
      && RunPosts(log, 0) == [Posted(0, 1, true), Posted(0, 2, false), Posted(0, 2, true)]
  {
    hide StateFor, IsAttempt, Carried, IsRun, PostsOf, Exec, AllSteps;
    var a := Reported(e, DEFAULT_STATE, 1, raw);
    var b, c := Unreported(e, a.r.value, 2, raw), Reported(e, a.r.value, 3, raw);
    ReportedIsAttempt(e, DEFAULT_STATE, 1, raw);
    ReportedIsAttempt(e, a.r.value, 2, raw);
    ReportedIsAttempt(e, a.r.value, 3, raw);
    OneAttempt(e, a, 0);
    RunGrows(e, [a], b);
    RunGrows(e, [a] + [b], c);
    OneAttemptSteps(a);
    AttemptRuns(e, EMPTY, a);
    AttemptRuns(e, Exec(e, EMPTY, a.steps).value, b);
    ExecConcat(e, EMPTY, a.steps, b.steps);
    AttemptRuns(e, Exec(e, EMPTY, a.steps + b.steps).value, c);
    ExecConcat(e, EMPTY, a.steps + b.steps, c.steps);
    NextGeneration(e, DEFAULT_STATE, 1, raw, "db");
    UnreportedPosts(e, a.r.value, 2, raw);
    AttemptPosts(e, c, 0);
    assert a.r.value.generation == 1;
    var log := [a, b, c];
    assert log == [a] + [b] + [c] && log[..2] == [a] + [b] && ([a] + [b])[..1] == [a];
    assert RunPosts([a] + [b], 0) == RunPosts([a], 0) + PostsOf(b.steps, 0);
  }

  lemma UnreportedPosts(e: Env, prev: ReplicaState, ts: nat, raw: Bytes)
    ensures PostsOf(Unreported(e, prev, ts, raw).steps, 0) == [Posted(0, prev.generation + 1, false)]
  {
    hide StateFor;
    NextGeneration(e, prev, ts, raw, "db");
    var s := Unreported(e, prev, ts, raw).steps;
    assert s[..2][..1] == s[..1] && s[..1][..0] == [] && s[..2][1] == s[1] && s[..1][0] == s[0];
    assert PostsOf(s[..1], 0) == [] && PostsOf(s[..2], 0) == [];
  }

  /** Where a restore goes without a destination: the name in `state.json`, if it gives one. */
  function RestoreName(dest: Option<string>, state: Option<ReplicaState>): string {
    if dest.Some? then dest.value
    else if state.Some? && state.value.dbName != "" then state.value.dbName
    else "restored.duckdb"
  }

  lemma ReadsState(e: Env, w: World)
    requires Inv(e, w) && Faithful(e.codec)
    ensures w.lastState.Some? <==> Key(e, STATE_JSON) in w.objects
    ensures w.lastState.Some? ==> e.codec.parseState(w.objects[Key(e, STATE_JSON)]) == w.lastState
  {}

  lemma PublishedTaken(e: Env, w: World)
    requires Inv(e, w) && w.published.Some?
    ensures w.published.value in w.taken
  {}

  lemma SnapshotStays(e: Env, v: World, w: World, steps: seq<Step>)
    requires Inv(e, v) && v.published.Some? && Exec(e, v, steps) == Some(w)
    ensures Key(e, SnapSub(v.published.value)) in w.objects
  {
    RunKeepsInv(e, v, steps);
  }

  /** The generations of a run: 1, 2, 3, ... */
  ghost predicate Numbered(states: seq<ReplicaState>) {
    forall k | 0 <= k < |states| :: states[k].generation == k + 1
  }

  /** Every reported snapshot is stored, under ever later timestamps. */
  ghost predicate AllStored(states: seq<ReplicaState>, w: World, since: nat, until: nat) {
    && (forall k | 0 <= k < |states| :: since < states[k].snapshotTs <= until && states[k].snapshotTs in w.taken)
    && (forall j, k | 0 <= j < k < |states| :: states[j].snapshotTs < states[k].snapshotTs)
  }

  lemma NoStates(w: World, since: nat)
    ensures Numbered([]) && AllStored([], w, since, since)
  {}

  lemma KeepStates(states: seq<ReplicaState>, v: World, w: World, since: nat, mid: nat, until: nat)
    requires AllStored(states, v, since, mid) && Extends(v, w) && mid <= until
    ensures AllStored(states, w, since, until)
  {}

  lemma AddState(states: seq<ReplicaState>, st: ReplicaState, v: World, w: World, since: nat, mid: nat, until: nat)
    requires Numbered(states) && AllStored(states, v, since, mid) && Extends(v, w) && since <= mid
    requires st.generation == |states| + 1 && mid < st.snapshotTs <= until && st.snapshotTs in w.taken
    ensures Numbered(states + [st]) && AllStored(states + [st], w, since, until)
  {}
}
