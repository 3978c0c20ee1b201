/** Choosing one provider of a logical extension
    (crates/ducklink-host/src/resolver.rs:242-254, 279-344, 404-558). */
module Resolver {
  import opened Wrappers
  import Sorting

  datatype ContentRef = Local(path: string) | Oci(reference: string) | Url(url: string)

  datatype ProviderKind =
    | Wasm(abi: string, artifact: ContentRef, contentDigest: Option<string>, browserSafe: bool)
    | Native(os: string, arch: string, artifact: ContentRef)
    | Remote(endpoint: string)

  datatype Conformance = Conformance(suite: string, suiteDigest: string, contractDigest: string, passed: bool)

  datatype Provider = Provider(id: string, kind: ProviderKind, reference: bool, conformance: Option<Conformance>)

  datatype Entry = Entry(name: string, witContract: string, providers: seq<Provider>, requiresComponents: seq<string>)

  datatype Env = Env(wasmRuntime: bool, allowNative: bool, availableComponents: seq<string>)

  datatype Policy = Policy(forced: Option<string>, denied: seq<string>)

  /** How the conformance gate certified a provider. */
  datatype Note = VerifiedAgainstSuite(suite: string) | ReferenceBaseline | RecordWithoutSuite

  datatype Reason =
    | NoRecord
    | NotPassed
    | OtherContract(certifiedAt: string)
    | OtherSuite(suiteDigest: string)
    | NoWasmRuntime
    | NativeDisabled
    | NativeNotImplemented
    | RemoteNotImplemented
    | Untrusted
    | UserExcluded
    | NotForced(forced: string)
    | LostOnPrecedence
    | MissingComponent(dep: string)

  datatype Outcome = Chosen(note: Note) | Rejected(why: Reason)

  datatype Candidate = Candidate(id: string, tag: string, outcome: Outcome)

  datatype Resolution = Resolution(extension: string, chosenId: string, chosenTag: string, artifact: ContentRef,
      reasoning: seq<Candidate>)

  datatype ResolveError = ResolveError(extension: string, reasoning: seq<Candidate>)

  /** Everything a verdict on one provider depends on besides the provider. */
  datatype Setting = Setting(witContract: string, canon: Option<string>, env: Env, policy: Policy)

  function Tag(kind: ProviderKind): string {
    match kind
    case Wasm(_, _, _, _) => "wasm"
    case Native(_, _, _) => "native"
    case Remote(_) => "remote"
  }

  /** Lower is preferred. */
  function Rank(kind: ProviderKind): nat {
    match kind
    case Native(_, _, _) => 0
    case Wasm(_, _, _, false) => 1
    case Wasm(_, _, _, true) => 2
    case Remote(_) => 3
  }

  function Artifact(kind: ProviderKind): ContentRef {
    match kind
    case Wasm(_, artifact, _, _) => artifact
    case Native(_, _, artifact) => artifact
    case Remote(endpoint) => Oci(endpoint)
  }

  // ---------------------------------------------------------------------------
  // The gates, in the order the code asks them
  // ---------------------------------------------------------------------------

  function ConformanceOk(p: Provider, q: Setting): Result<Note, Reason> {
    match q.canon
    case Some(canon) => (
      match p.conformance
      case None => Failure(NoRecord)
      case Some(c) =>
        if !c.passed then Failure(NotPassed)
        else if c.contractDigest != q.witContract then Failure(OtherContract(c.contractDigest))
        else if c.suiteDigest != canon then Failure(OtherSuite(c.suiteDigest))
        else Success(VerifiedAgainstSuite(c.suite))
    )
    case None =>
      if p.reference && p.kind.Wasm? then Success(ReferenceBaseline)
      else match p.conformance
        case None => Failure(NoRecord)
        case Some(c) =>
          if !c.passed then Failure(NotPassed)
          else if c.contractDigest != q.witContract then Failure(OtherContract(c.contractDigest))
          else Success(RecordWithoutSuite)
  }

  function SubstrateRefuses(kind: ProviderKind, env: Env): Option<Reason> {
    match kind
    case Wasm(_, _, _, _) => if env.wasmRuntime then None else Some(NoWasmRuntime)
    case Native(_, _, _) => Some(if env.allowNative then NativeNotImplemented else NativeDisabled)
    case Remote(_) => Some(RemoteNotImplemented)
  }

  function TrustRefuses(kind: ProviderKind): Option<Reason> {
    if kind.Wasm? then None else Some(Untrusted)
  }

  function Gate(p: Provider, q: Setting): Result<Note, Reason> {
    var cert := ConformanceOk(p, q);
    if cert.Failure? then cert
    else if SubstrateRefuses(p.kind, q.env).Some? then Failure(SubstrateRefuses(p.kind, q.env).value)
    else if TrustRefuses(p.kind).Some? then Failure(TrustRefuses(p.kind).value)
    else if p.id in q.policy.denied then Failure(UserExcluded)
    else if q.policy.forced.Some? && q.policy.forced.value != p.id then Failure(NotForced(q.policy.forced.value))
    else cert
  }

  /** Certified: by a record that passed at the live contract against the very suite held, or,
      with no suite held, by such a record or by being the wasm reference. */
  predicate Certified(p: Provider, q: Setting) {
    || (q.canon.None? && p.reference && p.kind.Wasm?)
    || (p.conformance.Some? && p.conformance.value.passed && p.conformance.value.contractDigest == q.witContract
        && (q.canon.Some? ==> p.conformance.value.suiteDigest == q.canon.value))
  }

  /** What a provider must be to be picked at all, gate order aside. */
  predicate Admissible(p: Provider, q: Setting) {
    && Certified(p, q)
    && p.kind.Wasm? && q.env.wasmRuntime
    && p.id !in q.policy.denied
    && (q.policy.forced.Some? ==> q.policy.forced.value == p.id)
  }

  lemma GateMeansAdmissible(p: Provider, q: Setting)
    ensures Gate(p, q).Success? <==> Admissible(p, q)
    ensures ConformanceOk(p, q).Success? <==> Certified(p, q)
    ensures Gate(p, q).Success? ==> Gate(p, q) == ConformanceOk(p, q)
  {}

  /** Which gate refuses: the conformance record first, then the runtime, then the deny list, then
      the forced id; the trust gate never has a word, since what it refuses has been refused. */
  lemma GateReason(p: Provider, q: Setting)
    ensures var why := Gate(p, q); var c := p.conformance;
      && (why == Failure(NoRecord) <==> !Certified(p, q) && c.None?)
      && (why == Failure(NotPassed) <==> !Certified(p, q) && c.Some? && !c.value.passed)
      && (forall at :: why == Failure(OtherContract(at)) <==>
            !Certified(p, q) && c.Some? && c.value.passed && at == c.value.contractDigest != q.witContract)
      && (forall d :: why == Failure(OtherSuite(d)) <==>
            !Certified(p, q) && c.Some? && c.value.passed && c.value.contractDigest == q.witContract
            && d == c.value.suiteDigest)
      && (why == Failure(NoWasmRuntime) <==> Certified(p, q) && p.kind.Wasm? && !q.env.wasmRuntime)
      && (why == Failure(NativeDisabled) <==> Certified(p, q) && p.kind.Native? && !q.env.allowNative)
      && (why == Failure(NativeNotImplemented) <==> Certified(p, q) && p.kind.Native? && q.env.allowNative)
      && (why == Failure(RemoteNotImplemented) <==> Certified(p, q) && p.kind.Remote?)
      && (why == Failure(UserExcluded) <==>
            Certified(p, q) && p.kind.Wasm? && q.env.wasmRuntime && p.id in q.policy.denied)
      && (forall f :: why == Failure(NotForced(f)) <==>
            Certified(p, q) && p.kind.Wasm? && q.env.wasmRuntime && p.id !in q.policy.denied
            && q.policy.forced == Some(f) && f != p.id)
    ensures Gate(p, q).Success? ==>
      Gate(p, q).value == if q.canon.Some? then VerifiedAgainstSuite(p.conformance.value.suite)
                          else if p.reference then ReferenceBaseline else RecordWithoutSuite
  {}

  // ---------------------------------------------------------------------------
  // The choice
  // ---------------------------------------------------------------------------

  /** The admissible provider preferred to all others: every admissible one is wasm, those that
      need not be safe for a browser come first, and among equals the manifest order decides. */
  ghost predicate IsChoice(ps: seq<Provider>, q: Setting, k: nat) {
    && k < |ps| && Admissible(ps[k], q)
    && forall j | 0 <= j < |ps| && Admissible(ps[j], q) ::
         if ps[j].kind.browserSafe == ps[k].kind.browserSafe then k <= j else ps[j].kind.browserSafe
  }

  /** The ranks say the same of wasm providers. */
  lemma RankPrefers(a: ProviderKind, b: ProviderKind)
    requires a.Wasm? && b.Wasm?
    ensures Rank(a) < Rank(b) <==> !a.browserSafe && b.browserSafe
    ensures Rank(a) == Rank(b) <==> a.browserSafe == b.browserSafe
  {}

  lemma AdmissibleIsWasm(p: Provider, q: Setting)
    requires Admissible(p, q)
    ensures p.kind.Wasm?
  {}

  lemma ChoiceIsUnique(ps: seq<Provider>, q: Setting, j: nat, k: nat)
    requires IsChoice(ps, q, j) && IsChoice(ps, q, k)
    ensures j == k
  {}

  type Entrant = (Provider, Note)

  predicate RankLeq(a: Entrant, b: Entrant) {
    Rank(a.0.kind) <= Rank(b.0.kind)
  }

  function Reject(p: Provider, why: Reason): Candidate {
    Candidate(p.id, Tag(p.kind), Rejected(why))
  }

  function Lost(a: Entrant): Candidate {
    Reject(a.0, LostOnPrecedence)
  }

  function Win(a: Entrant): Candidate {
    Candidate(a.0.id, Tag(a.0.kind), Chosen(a.1))
  }

  /** A verdict carries the provider's id and the name of its kind. */
  lemma VerdictNames(p: Provider, why: Reason, note: Note)
    ensures Reject(p, why).id == Win((p, note)).id == p.id && Reject(p, why).tag == Win((p, note)).tag
    ensures Reject(p, why).tag == if p.kind.Wasm? then "wasm" else if p.kind.Native? then "native" else "remote"
  {}

  /** Those that pass every gate, in manifest order. */
  function Admitted(ps: seq<Provider>, q: Setting): seq<Entrant> {
    if ps == [] then [] else
    var p := ps[|ps| - 1];
    Admitted(ps[..|ps| - 1], q) + (if Gate(p, q).Success? then [(p, Gate(p, q).value)] else [])
  }

  /** Those that do not, each with the first gate it fails. */
  function Refused(ps: seq<Provider>, q: Setting): seq<Candidate> {
    if ps == [] then [] else
    var p := ps[|ps| - 1];
    Refused(ps[..|ps| - 1], q) + (if Gate(p, q).Success? then [] else [Reject(p, Gate(p, q).error)])
  }

  lemma RankIsPreorder()
    ensures Sorting.TotalPreorder(RankLeq)
  {}

  /** The place of each entrant among the providers. */
  function Places(ps: seq<Provider>, q: Setting): seq<nat> {
    if ps == [] then [] else
    Places(ps[..|ps| - 1], q) + (if Gate(ps[|ps| - 1], q).Success? then [|ps| - 1] else [])
  }

  /** `places` lists the admissible providers in order. */
  ghost predicate Lists(places: seq<nat>, ps: seq<Provider>, q: Setting) {
    && (forall k | 0 <= k < |places| :: places[k] < |ps| && Admissible(ps[places[k]], q))
    && (forall j, k | 0 <= j < k < |places| :: places[j] < places[k])
    && (forall j: nat | j < |ps| && Admissible(ps[j], q) :: j in places)
  }

  lemma {:induction false} PlacesList(ps: seq<Provider>, q: Setting)
    ensures Lists(Places(ps, q), ps, q) && |Places(ps, q)| == |Admitted(ps, q)|
    ensures forall k | 0 <= k < |Places(ps, q)| ::
              Admitted(ps, q)[k] == (ps[Places(ps, q)[k]], Gate(ps[Places(ps, q)[k]], q).value)
  {
    hide Gate, Admissible;
    if ps != [] {
      var n := |ps| - 1;
      PlacesList(ps[..n], q);
      GateMeansAdmissible(ps[n], q);
      assert forall j: nat | j < n :: ps[..n][j] == ps[j];
      forall j: nat | j < |ps| && Admissible(ps[j], q) ensures j in Places(ps, q) {
        if j < n { assert Admissible(ps[..n][j], q); }
      }
    }
  }

  lemma NobodyAdmitted(ps: seq<Provider>, q: Setting)
    ensures Admitted(ps, q) == [] <==> forall p :: p in ps ==> !Admissible(p, q)
  {
    hide Gate, Admissible, Admitted, Places;
    PlacesList(ps, q);
    var places := Places(ps, q);
    if Admitted(ps, q) == [] {
      forall p | p in ps ensures !Admissible(p, q) {
        var j :| 0 <= j < |ps| && ps[j] == p;
        assert j !in places;
      }
    } else {
      assert ps[places[0]] in ps;
    }
  }

  /** The entrant stable sorting puts first is the choice. */
  lemma HeadIsChoice(ps: seq<Provider>, q: Setting) returns (k: nat)
    requires Admitted(ps, q) != []
    ensures IsChoice(ps, q, k) && Gate(ps[k], q).Success?
    ensures Sorting.Sort(Admitted(ps, q), RankLeq) != []
      && Sorting.Sort(Admitted(ps, q), RankLeq)[0] == (ps[k], Gate(ps[k], q).value)
  {
    hide Gate, Admissible, Admitted, Places;
    PlacesList(ps, q);
    var places, admitted := Places(ps, q), Admitted(ps, q);
    RankIsPreorder();
    var m := Sorting.SortHead(admitted, RankLeq);
    k := places[m];
    GateMeansAdmissible(ps[k], q);
    forall j | 0 <= j < |ps| && Admissible(ps[j], q)
      ensures ps[j].kind.Wasm? && ps[k].kind.Wasm?
      ensures if ps[j].kind.browserSafe == ps[k].kind.browserSafe then k <= j else ps[j].kind.browserSafe
    {
      AdmissibleIsWasm(ps[j], q);
      AdmissibleIsWasm(ps[k], q);
      RankPrefers(ps[k].kind, ps[j].kind);
      var i :| 0 <= i < |places| && places[i] == j;
      assert RankLeq(admitted[m], admitted[i]);
      assert i < m ==> !RankLeq(admitted[i], admitted[m]);
    }
  }

  // ---------------------------------------------------------------------------
  // The answer
  // ---------------------------------------------------------------------------

  function Missing(required: seq<string>, available: seq<string>): (missing: seq<string>)
    ensures forall dep :: dep in missing <==> dep in required && dep !in available
  {
    if required == [] then [] else
    (if required[0] in available then [] else [required[0]]) + Missing(required[1..], available)
  }

  function MissingDep(dep: string): Candidate {
    Candidate("requires:" + dep, "dep", Rejected(MissingComponent(dep)))
  }

  function SettingOf(entry: Entry, env: Env, policy: Policy, canon: Option<string>): Setting {
    Setting(entry.witContract, canon, env, policy)
  }

  function Reasoning(ps: seq<Provider>, q: Setting): seq<Candidate> {
    var sorted := Sorting.Sort(Admitted(ps, q), RankLeq);
    if sorted == [] then Refused(ps, q)
    else [Win(sorted[0])] + Refused(ps, q) + Sorting.Map(sorted[1..], Lost)
  }

  function Resolved(entry: Entry, env: Env, policy: Policy, canon: Option<string>): Result<Resolution, ResolveError> {
    var missing := Missing(entry.requiresComponents, env.availableComponents);
    if missing != [] then Failure(ResolveError(entry.name, Sorting.Map(missing, MissingDep))) else
    var q := SettingOf(entry, env, policy, canon);
    var sorted := Sorting.Sort(Admitted(entry.providers, q), RankLeq);
    if sorted == [] then Failure(ResolveError(entry.name, Reasoning(entry.providers, q))) else
    var p := sorted[0].0;
    Success(Resolution(entry.name, p.id, Tag(p.kind), Artifact(p.kind), Reasoning(entry.providers, q)))
  }

  method Resolve(entry: Entry, env: Env, policy: Policy, canon: Option<string>)
    returns (r: Result<Resolution, ResolveError>)
    ensures r == Resolved(entry, env, policy, canon)
  {
    hide ConformanceOk, SubstrateRefuses, TrustRefuses, Sorting.Sort, Missing;
    var missing := Missing(entry.requiresComponents, env.availableComponents);
    if missing != [] {
      return Failure(ResolveError(entry.name, Sorting.Map(missing, MissingDep)));
    }
    var q := SettingOf(entry, env, policy, canon);
    var ps := entry.providers;
    var reasoning: seq<Candidate> := [];
    var admitted: seq<Entrant> := [];
    for i := 0 to |ps|
      invariant reasoning == Refused(ps[..i], q) && admitted == Admitted(ps[..i], q)
    {
      var p := ps[i];
      assert ps[..i + 1][..i] == ps[..i];
      var cert := ConformanceOk(p, q);
      if cert.Failure? {
        reasoning := reasoning + [Reject(p, cert.error)];
        continue;
      }
      var substrate := SubstrateRefuses(p.kind, env);
      if substrate.Some? {
        reasoning := reasoning + [Reject(p, substrate.value)];
        continue;
      }
      var trust := TrustRefuses(p.kind);
      if trust.Some? {
        reasoning := reasoning + [Reject(p, trust.value)];
        continue;
      }
      if p.id in policy.denied {
        reasoning := reasoning + [Reject(p, UserExcluded)];
        continue;
      }
      if policy.forced.Some? {
        if policy.forced.value != p.id {
          reasoning := reasoning + [Reject(p, NotForced(policy.forced.value))];
          continue;
        }
      }
      admitted := admitted + [(p, cert.value)];
    }
    assert ps[..|ps|] == ps;
    admitted := Sorting.Sort(admitted, RankLeq);
    if admitted == [] {
      return Failure(ResolveError(entry.name, reasoning));
    }
    var chosen := admitted[0].0;
    reasoning := [Win(admitted[0])] + reasoning;
    ghost var base, losers := reasoning, Sorting.Map(admitted[1..], Lost);
    for i := 1 to |admitted|
      invariant reasoning == base + losers[..i - 1]
    {
      assert admitted[1..][i - 1] == admitted[i];
      reasoning := reasoning + [Lost(admitted[i])];
    }
    assert losers[..|admitted| - 1] == losers;
    r := Success(Resolution(entry.name, chosen.id, Tag(chosen.kind), Artifact(chosen.kind), reasoning));
  }

  /** The resolution names provider `k` and hands out its artifact. */
  ghost predicate Names(r: Resolution, entry: Entry, q: Setting, k: nat)
    requires k < |entry.providers|
  {
    var p := entry.providers[k];
    p.kind.Wasm? && r.extension == entry.name && r.chosenId == p.id && r.artifact == p.kind.artifact
      && r.chosenTag == "wasm" && r.reasoning == Reasoning(entry.providers, q)
  }

  ghost predicate DepsPresent(entry: Entry, env: Env) {
    forall dep :: dep in entry.requiresComponents ==> dep in env.availableComponents
  }

  /** The error names exactly the required components that are not there. */
  ghost predicate LacksDeps(entry: Entry, env: Env, e: ResolveError) {
    && e.extension == entry.name
    && forall c :: c in e.reasoning <==>
         exists dep :: dep in entry.requiresComponents && dep !in env.availableComponents
           && c == Candidate("requires:" + dep, "dep", Rejected(MissingComponent(dep)))
  }

  lemma MissingIsListed(entry: Entry, env: Env)
    ensures LacksDeps(entry, env,
      ResolveError(entry.name, Sorting.Map(Missing(entry.requiresComponents, env.availableComponents), MissingDep)))
  {
    hide Missing;
    var missing := Missing(entry.requiresComponents, env.availableComponents);
    var out := Sorting.Map(missing, MissingDep);
    forall dep | dep in missing ensures MissingDep(dep) in out {
      var k :| 0 <= k < |missing| && missing[k] == dep;
      assert out[k] == MissingDep(dep);
    }
  }

  /** Which provider is picked, and when there is none. */
  lemma PicksTheChoice(entry: Entry, env: Env, policy: Policy, canon: Option<string>)
    ensures var q := SettingOf(entry, env, policy, canon);
            Resolved(entry, env, policy, canon).Success? <==>
              DepsPresent(entry, env) && exists p :: p in entry.providers && Admissible(p, q)
    ensures var q := SettingOf(entry, env, policy, canon);
            Resolved(entry, env, policy, canon).Success? ==>
              exists k: nat :: IsChoice(entry.providers, q, k) && Names(Resolved(entry, env, policy, canon).value,
                  entry, q, k)
    ensures var q := SettingOf(entry, env, policy, canon);
            DepsPresent(entry, env) && Resolved(entry, env, policy, canon).Failure? ==>
              Resolved(entry, env, policy, canon).error == ResolveError(entry.name, Reasoning(entry.providers, q))
    ensures !DepsPresent(entry, env) ==> LacksDeps(entry, env, Resolved(entry, env, policy, canon).error)
  {
    hide Admissible, Gate, Admitted, Reasoning, IsChoice, Missing, DepsPresent, Sorting.Sort, LacksDeps;
    MissingIsListed(entry, env);
    var q := SettingOf(entry, env, policy, canon);
    NobodyAdmitted(entry.providers, q);
    Sorting.SortPermutes(Admitted(entry.providers, q), RankLeq);
    MissingNone(entry, env);
    if Resolved(entry, env, policy, canon).Success? {
      var k := HeadIsChoice(entry.providers, q);
      ChoiceIsWasm(entry.providers, q, k);
      assert Names(Resolved(entry, env, policy, canon).value, entry, q, k);
    }
  }

  lemma MissingNone(entry: Entry, env: Env)
    ensures Missing(entry.requiresComponents, env.availableComponents) == [] <==> DepsPresent(entry, env)
  {
    var missing := Missing(entry.requiresComponents, env.availableComponents);
    if missing != [] { assert missing[0] in missing; }
  }

  lemma ChoiceIsWasm(ps: seq<Provider>, q: Setting, k: nat)
    requires IsChoice(ps, q, k)
    ensures k < |ps| && ps[k] in ps && Admissible(ps[k], q) && Tag(ps[k].kind) == "wasm"
  {}

  // ---------------------------------------------------------------------------
  // The reasoning
  // ---------------------------------------------------------------------------

  function Standing(p: Provider, q: Setting): Candidate {
    if Gate(p, q).Success? then Reject(p, LostOnPrecedence) else Reject(p, Gate(p, q).error)
  }

  function Standings(ps: seq<Provider>, q: Setting): (out: seq<Candidate>)
    ensures |out| == |ps| && forall k :: 0 <= k < |ps| ==> out[k] == Standing(ps[k], q)
  {
    if ps == [] then [] else Standings(ps[..|ps| - 1], q) + [Standing(ps[|ps| - 1], q)]
  }

  /** Each provider's own verdict: the choice wins, the others fail a gate or lose. */
  function Verdicts(ps: seq<Provider>, q: Setting, k: nat): (out: seq<Candidate>)
    requires k < |ps| && Gate(ps[k], q).Success?
    ensures |out| == |ps| && out[k] == Win((ps[k], Gate(ps[k], q).value))
    ensures forall j :: 0 <= j < |ps| && j != k ==> out[j] == Standing(ps[j], q)
  {
    Standings(ps, q)[k := Win((ps[k], Gate(ps[k], q).value))]
  }

  lemma {:induction false} StandingsSplit(ps: seq<Provider>, q: Setting)
    ensures multiset(Standings(ps, q)) == multiset(Refused(ps, q)) + multiset(Sorting.Map(Admitted(ps, q), Lost))
  {
    hide Gate, Sorting.Map, Standing;
    if ps == [] {
      NothingStands(q);
    } else {
      var n := |ps| - 1;
      StandingsSplit(ps[..n], q);
      var now := Standing(ps[n], q);
      if Gate(ps[n], q).Success? {
        var a := (ps[n], Gate(ps[n], q).value);
        Sorting.MapConcat(Admitted(ps[..n], q), [a], Lost);
        StandingOf(ps[n], q);
        assert Sorting.Map([a], Lost) == [now];
        assert Refused(ps, q) == Refused(ps[..n], q);
      } else {
        StandingOf(ps[n], q);
        assert Admitted(ps, q) == Admitted(ps[..n], q);
      }
    }
  }

  lemma NothingStands(q: Setting)
    ensures Standings([], q) == [] && Sorting.Map(Admitted([], q), Lost) == []
  {}

  lemma StandingOf(p: Provider, q: Setting)
    ensures Gate(p, q).Success? ==> Standing(p, q) == Lost((p, Gate(p, q).value))
    ensures Gate(p, q).Failure? ==> Standing(p, q) == Reject(p, Gate(p, q).error)
  {}

  /** With an admissible provider: the winner stands first, and the reasoning is a rearrangement
      of one verdict for each provider. */
  lemma OneVerdictEach(ps: seq<Provider>, q: Setting, k: nat)
    requires IsChoice(ps, q, k)
    ensures Gate(ps[k], q).Success? && multiset(Reasoning(ps, q)) == multiset(Verdicts(ps, q, k))
    ensures |Reasoning(ps, q)| == |ps| && Reasoning(ps, q)[0] == Win((ps[k], Gate(ps[k], q).value))
    ensures forall j :: 0 < j < |ps| ==> Reasoning(ps, q)[j].outcome.Rejected?
  {
    hide Gate, Admissible, IsChoice, Admitted, Refused, Sorting.Map, Sorting.Sort, Standing;
    var admitted := Admitted(ps, q);
    var sorted := Sorting.Sort(admitted, RankLeq);
    ChoiceIsWasm(ps, q, k);
    GateMeansAdmissible(ps[k], q);
    NobodyAdmitted(ps, q);
    var m := HeadIsChoice(ps, q);
    ChoiceIsUnique(ps, q, m, k);
    Sorting.SortPermutes(admitted, RankLeq);
    RefusedAreRejected(ps, q);
    var win := Win(sorted[0]);
    assert Reasoning(ps, q) == [win] + Refused(ps, q) + Sorting.Map(sorted[1..], Lost);
    VerdictsRearranged(ps, q, k, sorted);
    assert multiset([win]) == multiset{win};
    assert multiset(Reasoning(ps, q)) == multiset(Verdicts(ps, q, k));
    assert |multiset(Reasoning(ps, q))| == |multiset(Verdicts(ps, q, k))|;
  }

  lemma VerdictsRearranged(ps: seq<Provider>, q: Setting, k: nat, sorted: seq<Entrant>)
    requires k < |ps| && Gate(ps[k], q).Success? && sorted != [] && sorted[0] == (ps[k], Gate(ps[k], q).value)
    requires sorted == Sorting.Sort(Admitted(ps, q), RankLeq)
    ensures multiset(Verdicts(ps, q, k)) ==
      multiset{Win(sorted[0])} + multiset(Refused(ps, q)) + multiset(Sorting.Map(sorted[1..], Lost))
  {
    hide Gate, Admitted, Refused, Sorting.Map, Sorting.Sort, Standing, Standings, Verdicts;
    StandingsSplit(ps, q);
    Sorting.SortPermutesMapped(Admitted(ps, q), RankLeq, Lost);
    assert sorted == [sorted[0]] + sorted[1..];
    Sorting.MapConcat([sorted[0]], sorted[1..], Lost);
    var lost := Lost(sorted[0]);
    assert Sorting.Map([sorted[0]], Lost) == [lost];
    assert multiset(Sorting.Map(sorted, Lost)) == multiset{lost} + multiset(Sorting.Map(sorted[1..], Lost));
    VerdictsReplaceOne(ps, q, k);
    Rearrange(multiset(Standings(ps, q)), multiset(Refused(ps, q)), multiset(Sorting.Map(sorted[1..], Lost)), lost,
        Win(sorted[0]));
  }

  lemma VerdictsReplaceOne(ps: seq<Provider>, q: Setting, k: nat)
    requires k < |ps| && Gate(ps[k], q).Success?
    ensures var a := (ps[k], Gate(ps[k], q).value);
            multiset(Verdicts(ps, q, k)) == multiset(Standings(ps, q)) - multiset{Lost(a)} + multiset{Win(a)}
  {
    hide Standing;
    StandingOf(ps[k], q);
    assert Standings(ps, q)[k] == Lost((ps[k], Gate(ps[k], q).value));
  }

  lemma Rearrange(all: multiset<Candidate>, refused: multiset<Candidate>, rest: multiset<Candidate>, lost: Candidate,
      win: Candidate)
    requires all == refused + (multiset{lost} + rest)
    ensures all - multiset{lost} + multiset{win} == multiset{win} + refused + rest
  {}

  /** Without one: each provider with the gate it fails, in manifest order. */
  lemma {:induction false} NoneAdmissible(ps: seq<Provider>, q: Setting)
    requires forall k :: 0 <= k < |ps| ==> !Admissible(ps[k], q)
    ensures Admitted(ps, q) == [] && Reasoning(ps, q) == Refused(ps, q) == Standings(ps, q)
  {
    hide Gate, Admissible;
    if ps != [] {
      var n := |ps| - 1;
      assert forall k :: 0 <= k < n ==> ps[..n][k] == ps[k];
      NoneAdmissible(ps[..n], q);
      GateMeansAdmissible(ps[n], q);
    }
  }

  lemma {:induction false} RefusedAreRejected(ps: seq<Provider>, q: Setting)
    ensures forall j :: 0 <= j < |Refused(ps, q)| ==> Refused(ps, q)[j].outcome.Rejected?
  {
    if ps != [] { RefusedAreRejected(ps[..|ps| - 1], q); }
  }

  // ---------------------------------------------------------------------------
  // Policy
  // ---------------------------------------------------------------------------

  /** Denying an id keeps the choice exactly when it is not the chosen one's. */
  lemma DenyingAnother(ps: seq<Provider>, q: Setting, k: nat, id: string)
    requires IsChoice(ps, q, k)
    ensures IsChoice(ps, q.(policy := q.policy.(denied := q.policy.denied + [id])), k) <==> id != ps[k].id
  {
    var q' := q.(policy := q.policy.(denied := q.policy.denied + [id]));
    forall j | 0 <= j < |ps| && Admissible(ps[j], q') ensures Admissible(ps[j], q) {}
  }

  /** Forcing an id keeps the choice exactly when it is the chosen one's. */
  lemma ForcingTheChoice(ps: seq<Provider>, q: Setting, k: nat, id: string)
    requires IsChoice(ps, q, k)
    ensures IsChoice(ps, q.(policy := q.policy.(forced := Some(id))), k) <==> id == ps[k].id
  {
    var q' := q.(policy := q.policy.(forced := Some(id)));
    if id == ps[k].id {
      forall j | 0 <= j < |ps| && Admissible(ps[j], q') ensures Admissible(ps[j], q) {}
    }
  }

  function Denying(policy: Policy, id: string): Policy {
    policy.(denied := policy.denied + [id])
  }

  function Forcing(policy: Policy, id: string): Policy {
    policy.(forced := Some(id))
  }

  /** Two answers pick the same provider. */
  predicate SamePick(r: Result<Resolution, ResolveError>, r': Result<Resolution, ResolveError>) {
    r.Success? && r'.Success? && r'.value.chosenId == r.value.chosenId && r'.value.artifact == r.value.artifact
  }

  lemma ChoiceResolves(entry: Entry, env: Env, policy: Policy, canon: Option<string>, k: nat)
    requires DepsPresent(entry, env) && IsChoice(entry.providers, SettingOf(entry, env, policy, canon), k)
    ensures Resolved(entry, env, policy, canon).Success?
      && Names(Resolved(entry, env, policy, canon).value, entry, SettingOf(entry, env, policy, canon), k)
  {
    hide Resolved, Admissible, DepsPresent, Names;
    var q := SettingOf(entry, env, policy, canon);
    PicksTheChoice(entry, env, policy, canon);
    assert entry.providers[k] in entry.providers;
    var j: nat :| IsChoice(entry.providers, q, j) && Names(Resolved(entry, env, policy, canon).value, entry, q, j);
    ChoiceIsUnique(entry.providers, q, j, k);
  }

  lemma Picked(entry: Entry, env: Env, policy: Policy, canon: Option<string>) returns (k: nat)
    requires Resolved(entry, env, policy, canon).Success?
    ensures DepsPresent(entry, env) && IsChoice(entry.providers, SettingOf(entry, env, policy, canon), k)
    ensures Names(Resolved(entry, env, policy, canon).value, entry, SettingOf(entry, env, policy, canon), k)
  {
    hide Resolved, DepsPresent, Names, Admissible;
    var q := SettingOf(entry, env, policy, canon);
    PicksTheChoice(entry, env, policy, canon);
    k :| IsChoice(entry.providers, q, k) && Names(Resolved(entry, env, policy, canon).value, entry, q, k);
  }

  /** Denying an id leaves the resolved provider exactly when it is another's, and turns no failure
      into a success. */
  lemma DenyingAnId(entry: Entry, env: Env, policy: Policy, canon: Option<string>, id: string)
    ensures var (r, r') := (Resolved(entry, env, policy, canon), Resolved(entry, env, Denying(policy, id), canon));
      && (r.Success? ==> (SamePick(r, r') <==> id != r.value.chosenId))
      && (r.Success? && id == r.value.chosenId && r'.Success? ==> r'.value.chosenId != id)
      && (r.Failure? ==> r'.Failure?)
  {
    hide Resolved, DepsPresent, IsChoice;
    var (r, r') := (Resolved(entry, env, policy, canon), Resolved(entry, env, Denying(policy, id), canon));
    var ps, q, q' := entry.providers, SettingOf(entry, env, policy, canon),
        SettingOf(entry, env, Denying(policy, id), canon);
    if r.Success? {
      var k := Picked(entry, env, policy, canon);
      DenyingAnother(ps, q, k, id);
      if id != r.value.chosenId { ChoiceResolves(entry, env, Denying(policy, id), canon, k); }
    }
    if r'.Success? {
      var k := Picked(entry, env, Denying(policy, id), canon);
      ChoiceIsAllowed(ps, q', k);
      ResolvesWithOne(entry, env, policy, canon, k);
    }
  }

  lemma ChoiceIsAllowed(ps: seq<Provider>, q: Setting, k: nat)
    requires IsChoice(ps, q, k)
    ensures k < |ps| && Admissible(ps[k], q) && ps[k].id !in q.policy.denied
    ensures q.policy.forced.Some? ==> ps[k].id == q.policy.forced.value
  {}

  lemma ResolvesWithOne(entry: Entry, env: Env, policy: Policy, canon: Option<string>, k: nat)
    requires DepsPresent(entry, env) && k < |entry.providers|
    ensures Admissible(entry.providers[k], SettingOf(entry, env, policy, canon)) ==>
      Resolved(entry, env, policy, canon).Success?
  {
    hide Resolved, Admissible, IsChoice, DepsPresent;
    assert entry.providers[k] in entry.providers;
    PicksTheChoice(entry, env, policy, canon);
  }

  /** Forcing an id leaves the resolved provider exactly when it is its own, picks none of another
      id, and, where none was forced before, turns no failure into a success. */
  lemma ForcingAnId(entry: Entry, env: Env, policy: Policy, canon: Option<string>, id: string)
    ensures var (r, r') := (Resolved(entry, env, policy, canon), Resolved(entry, env, Forcing(policy, id), canon));
      && (r.Success? ==> (SamePick(r, r') <==> id == r.value.chosenId))
      && (r'.Success? ==> r'.value.chosenId == id)
      && (r.Failure? && policy.forced.None? ==> r'.Failure?)
  {
    hide Resolved, DepsPresent, IsChoice;
    var (r, r') := (Resolved(entry, env, policy, canon), Resolved(entry, env, Forcing(policy, id), canon));
    var ps, q, q' := entry.providers, SettingOf(entry, env, policy, canon),
        SettingOf(entry, env, Forcing(policy, id), canon);
    if r.Success? {
      var k := Picked(entry, env, policy, canon);
      ForcingTheChoice(ps, q, k, id);
      if id == r.value.chosenId { ChoiceResolves(entry, env, Forcing(policy, id), canon, k); }
    }
    if r'.Success? {
      var k := Picked(entry, env, Forcing(policy, id), canon);
      ChoiceIsAllowed(ps, q', k);
      ResolvesWithOne(entry, env, policy, canon, k);
    }
  }

  /** A provider added at the end of the manifest takes over exactly when it is admissible and need
      not be safe for a browser while the choice is. */
  lemma AddingAProvider(ps: seq<Provider>, q: Setting, k: nat, p: Provider)
    requires IsChoice(ps, q, k)
    ensures var better := Admissible(p, q) && !p.kind.browserSafe && ps[k].kind.browserSafe;
      (IsChoice(ps + [p], q, |ps|) <==> better) && (IsChoice(ps + [p], q, k) <==> !better)
  {
    var all := ps + [p];
    assert all[k] == ps[k] && all[|ps|] == p;
    forall j | 0 <= j < |ps| ensures all[j] == ps[j] {}
  }
}
