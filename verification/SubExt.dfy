/** The sub-extension loader: a memoised, recursive and failure-prone materialiser over
    shim aliases and zero-digest "derived-from" edges
    (crates/ducklink-host/src/sub_ext.rs). */
module SubExt {
  import opened Wrappers

  type Digest = Bytes

  datatype Component = Component(id: string, digest: Digest)

  datatype Plan = Plan(components: seq<Component>, rest: string)

  /** What the process is configured with and what lies on disk. `plans` holds the plan files
      that read and parse; `prebuiltFiles` the prebuilt wasm files that exist. `digestOf` is
      the CAS digest and `compose` the composer's output for a plan whose blobs are all in
      the CAS; neither is assumed to be injective. */
  datatype Config = Config(
    planPaths: map<string, string>,
    prebuiltPaths: map<string, string>,
    bridgePaths: map<string, string>,
    derivedFrom: map<string, string>,
    shimAlias: map<string, string>,
    plans: map<string, Plan>,
    prebuiltFiles: map<string, Bytes>,
    digestOf: Bytes -> Digest,
    compose: Plan -> Option<Bytes>)

  datatype SubExtError =
    | PlanMissing(sub: string)
    | Materialization(sub: string, path: string)
    | ProviderRegistration(id: string, path: string)

  /** One hand-over to the composer: the plan as parsed from disk and the plan passed on. */
  datatype ComposeCall = ComposeCall(sub: string, parsed: Plan, handed: Plan)

  /** The file a load of an un-aliased sub works on. */
  predicate WorksOn(c: Config, sub: string, path: string) {
    && sub !in c.shimAlias
    && (if sub in c.prebuiltPaths then path == c.prebuiltPaths[sub]
        else sub in c.planPaths && path == c.planPaths[sub])
  }

  /** What an error says: that there is neither a file nor an alias, or which file of which sub
      could not be used. A registration fails by a fault alone. */
  ghost predicate ErrorNamesItsCause(c: Config, faulted: bool, e: SubExtError) {
    match e
    case PlanMissing(sub) => sub !in c.shimAlias && sub !in c.prebuiltPaths && sub !in c.planPaths
    case Materialization(sub, path) => WorksOn(c, sub, path)
    case ProviderRegistration(id, path) => faulted && exists sub :: WorksOn(c, sub, path) && id == sub + "-composed"
  }

  function ProviderId(sub: string): string {
    sub + "-composed"
  }

  lemma ProviderIdInjective(s: string, t: string)
    requires ProviderId(s) == ProviderId(t)
    ensures s == t
  {
    assert |s| == |t|;
    assert s == ProviderId(s)[..|s|];
    assert t == ProviderId(t)[..|t|];
  }

  predicate IsZeroDigest(d: Digest) {
    d != [] && forall k | 0 <= k < |d| :: d[k] == 0
  }

  lemma RegistrationNamesItsCause(c: Config, sub: string, path: string)
    requires WorksOn(c, sub, path)
    ensures ErrorNamesItsCause(c, true, ProviderRegistration(ProviderId(sub), path))
  {}

  lemma MaterializationNamesItsCause(c: Config, faulted: bool, sub: string, path: string)
    requires WorksOn(c, sub, path)
    ensures ErrorNamesItsCause(c, faulted, Materialization(sub, path))
  {}

  // ---------------------------------------------------------------------------
  // Bridges
  // ---------------------------------------------------------------------------

  predicate HasOwnBridge(c: Config, sub: string) {
    sub in c.prebuiltPaths || sub in c.bridgePaths
  }

  predicate HasBridge(c: Config, sub: string) {
    HasOwnBridge(c, sub) || (sub in c.shimAlias && HasOwnBridge(c, c.shimAlias[sub]))
  }

  function BridgePath(c: Config, sub: string): Option<string> {
    if sub in c.bridgePaths then Some(c.bridgePaths[sub])
    else if sub in c.prebuiltPaths then Some(c.prebuiltPaths[sub])
    else None
  }

  /** Where two maps name a bridge the explicit entry wins; an alias gives no path. */
  lemma ExplicitBridgeWins(c: Config, sub: string, path: string)
    ensures BridgePath(c, sub) == Some(path) <==>
      || (sub in c.bridgePaths && path == c.bridgePaths[sub])
      || (sub !in c.bridgePaths && sub in c.prebuiltPaths && path == c.prebuiltPaths[sub])
  {}

  /** The documentation promises `has_bridge` exactly when `bridge_path` is present. The code
      breaks the promise exactly for the subs that own no bridge but alias one that does. */
  lemma BridgeAgreement(c: Config, sub: string)
    ensures (HasBridge(c, sub) <==> BridgePath(c, sub).Some?)
       <==> HasOwnBridge(c, sub) || sub !in c.shimAlias || !HasOwnBridge(c, c.shimAlias[sub])
  {}

  lemma BridgeDisagreementExists(c: Config)
    requires c.prebuiltPaths == map["core" := "/p"] && c.bridgePaths == map[]
    requires c.shimAlias == map["topology" := "core"]
    ensures HasBridge(c, "topology") && BridgePath(c, "topology").None?
  {}

  // ---------------------------------------------------------------------------
  // The pure meaning of a configuration
  // ---------------------------------------------------------------------------

  /** The sub's own plan is the one the loader reads: it is neither an alias nor prebuilt. */
  predicate PlanDriven(c: Config, sub: string) {
    sub !in c.shimAlias && sub !in c.prebuiltPaths && sub in c.planPaths && c.planPaths[sub] in c.plans
  }

  function PlanOf(c: Config, sub: string): Plan
    requires PlanDriven(c, sub)
  {
    c.plans[c.planPaths[sub]]
  }

  /** Component `k` of the sub's plan is a placeholder that names an upstream sub. */
  predicate Derived(c: Config, sub: string, k: nat) {
    PlanDriven(c, sub) && k < |PlanOf(c, sub).components| &&
    IsZeroDigest(PlanOf(c, sub).components[k].digest) && PlanOf(c, sub).components[k].id in c.derivedFrom
  }

  function Upstream(c: Config, sub: string, k: nat): string
    requires Derived(c, sub, k)
  {
    c.derivedFrom[PlanOf(c, sub).components[k].id]
  }

  /** The two graphs the loader recurses over have a common rank. The code has no cycle
      guard, so this is what it needs in order to return at all. */
  ghost predicate Acyclic(c: Config, rank: string -> nat) {
    && (forall s :: s in c.shimAlias ==> rank(c.shimAlias[s]) < rank(s))
    && (forall s: string, k: nat :: Derived(c, s, k) ==> rank(Upstream(c, s, k)) < rank(s))
  }

  /** The digest a sub's provider must have, computed without any cache: hash the prebuilt
      file, or compose the plan with each placeholder replaced by its upstream's digest. */
  ghost function DigestOf(c: Config, rank: string -> nat, sub: string): Option<Digest>
    requires Acyclic(c, rank)
    decreases rank(sub), 1, 0
  {
    if sub in c.shimAlias then None
    else if sub in c.prebuiltPaths then
      if c.prebuiltPaths[sub] in c.prebuiltFiles then Some(c.digestOf(c.prebuiltFiles[c.prebuiltPaths[sub]])) else None
    else if PlanDriven(c, sub) then
      match Spliced(c, rank, sub, |PlanOf(c, sub).components|)
      case None => None
      case Some(cs) =>
        match c.compose(PlanOf(c, sub).(components := cs))
        case None => None
        case Some(b) => Some(c.digestOf(b))
    else None
  }

  /** The first `n` components of the sub's plan with their placeholders filled in. */
  ghost function Spliced(c: Config, rank: string -> nat, sub: string, n: nat): Option<seq<Component>>
    requires Acyclic(c, rank) && PlanDriven(c, sub) && n <= |PlanOf(c, sub).components|
    decreases rank(sub), 0, n
  {
    if n == 0 then Some([]) else
    match Spliced(c, rank, sub, n - 1)
    case None => None
    case Some(cs) =>
      var comp := PlanOf(c, sub).components[n - 1];
      if !IsZeroDigest(comp.digest) then Some(cs + [comp])
      else if !Derived(c, sub, n - 1) then None
      else
        match DigestOf(c, rank, Upstream(c, sub, n - 1))
        case None => None
        case Some(d) => Some(cs + [comp.(digest := d)])
  }

  /** Everything needed to materialise `sub` is there: its plan composes, and the blobs named
      by literal digests anywhere below it were in the CAS from the start. */
  ghost predicate Composable(c: Config, rank: string -> nat, seeds: set<Digest>, sub: string)
    requires Acyclic(c, rank)
    decreases rank(sub)
  {
    if sub in c.shimAlias then Composable(c, rank, seeds, c.shimAlias[sub])
    else
      && DigestOf(c, rank, sub).Some?
      && (sub !in c.prebuiltPaths ==>
            forall k: nat | k < |PlanOf(c, sub).components| ::
              if Derived(c, sub, k) then Composable(c, rank, seeds, Upstream(c, sub, k))
              else PlanOf(c, sub).components[k].digest in seeds)
  }

  /** Where a call for `sub` ends up: the first sub along the alias chain that is un-aliased
      or was materialised before the call. */
  ghost function Landing(c: Config, rank: string -> nat, done: set<string>, sub: string): (t: string)
    requires Acyclic(c, rank)
    ensures t in done || t !in c.shimAlias
    decreases rank(sub)
  {
    if sub in done || sub !in c.shimAlias then sub else Landing(c, rank, done, c.shimAlias[sub])
  }

  lemma {:induction false} LandingDescends(c: Config, rank: string -> nat, done: set<string>, sub: string)
    requires Acyclic(c, rank)
    ensures rank(Landing(c, rank, done, sub)) <= rank(sub)
    decreases rank(sub)
  {
    if sub in done || sub !in c.shimAlias {
    } else {
      LandingDescends(c, rank, done, c.shimAlias[sub]);
    }
  }

  /** A repeated call hands back the id of the first call exactly for the un-aliased subs. */
  lemma RepeatIdAgrees(c: Config, rank: string -> nat, done: set<string>, later: set<string>, sub: string)
    requires Acyclic(c, rank) && sub !in done && sub in later
    ensures ProviderId(Landing(c, rank, done, sub)) == ProviderId(Landing(c, rank, later, sub)) <==> sub !in c.shimAlias
  {
    if sub in c.shimAlias {
      LandingDescends(c, rank, done, c.shimAlias[sub]);
      if ProviderId(Landing(c, rank, done, sub)) == ProviderId(sub) {
        ProviderIdInjective(Landing(c, rank, done, sub), sub);
      }
    }
  }

  lemma {:induction false} DigestRankIndependent(c: Config, r1: string -> nat, r2: string -> nat, sub: string)
    requires Acyclic(c, r1) && Acyclic(c, r2)
    ensures DigestOf(c, r1, sub) == DigestOf(c, r2, sub)
    decreases r1(sub), 1, 0
  {
    if PlanDriven(c, sub) {
      SplicedRankIndependent(c, r1, r2, sub, |PlanOf(c, sub).components|);
    }
  }

  lemma {:induction false} SplicedRankIndependent(c: Config, r1: string -> nat, r2: string -> nat, sub: string, n: nat)
    requires Acyclic(c, r1) && Acyclic(c, r2)
    requires PlanDriven(c, sub) && n <= |PlanOf(c, sub).components|
    ensures Spliced(c, r1, sub, n) == Spliced(c, r2, sub, n)
    decreases r1(sub), 0, n
  {
    if n > 0 {
      SplicedRankIndependent(c, r1, r2, sub, n - 1);
      if Derived(c, sub, n - 1) {
        DigestRankIndependent(c, r1, r2, Upstream(c, sub, n - 1));
      }
    }
  }

  /** A prefix that cannot be spliced dooms every longer one. */
  lemma {:induction false} SplicedPrefix(c: Config, rank: string -> nat, sub: string, m: nat, n: nat)
    requires Acyclic(c, rank) && PlanDriven(c, sub) && m <= n <= |PlanOf(c, sub).components|
    requires Spliced(c, rank, sub, n).Some?
    ensures Spliced(c, rank, sub, m).Some?
    decreases n
  {
    if m < n {
      SplicedPrefix(c, rank, sub, m, n - 1);
    }
  }

  lemma {:induction false} SplicedShape(c: Config, rank: string -> nat, sub: string, n: nat)
    requires Acyclic(c, rank) && PlanDriven(c, sub) && n <= |PlanOf(c, sub).components|
    requires Spliced(c, rank, sub, n).Some?
    ensures var cs := PlanOf(c, sub).components; var out := Spliced(c, rank, sub, n).value;
      |out| == n && forall k: nat | k < n ::
        if cs[k].digest != [] && forall i | 0 <= i < |cs[k].digest| :: cs[k].digest[i] == 0
        then Derived(c, sub, k) && DigestOf(c, rank, Upstream(c, sub, k)) == Some(out[k].digest)
          && out[k].id == cs[k].id
        else out[k] == cs[k]
    decreases n
  {
    if n > 0 {
      SplicedShape(c, rank, sub, n - 1);
    }
  }

  lemma StuckIsNotComposable(f: Frame, sub: string, k: nat)
    requires Acyclic(f.c, f.rank) && PlanDriven(f.c, sub) && k < |PlanOf(f.c, sub).components|
    requires IsZeroDigest(PlanOf(f.c, sub).components[k].digest)
    requires Derived(f.c, sub, k) ==> Upstream(f.c, sub, k) in f.c.shimAlias
    ensures !Composable(f.c, f.rank, f.seeds, sub)
  {
    if Composable(f.c, f.rank, f.seeds, sub) {
      SplicedPrefix(f.c, f.rank, sub, k + 1, |PlanOf(f.c, sub).components|);
    }
  }

  /** A plan over prebuilt subs: `out` is the plan with the digest of the prebuilt file put in
      for every placeholder. The sub's digest is then that of the composed `out`, and nothing
      but a refusal of the composer or a missing literal blob stands in the way. */
  lemma OverPrebuiltComposableExactlyWhen(c: Config, rank: string -> nat, seeds: set<Digest>, sub: string,
      out: seq<Component>)
    requires Acyclic(c, rank) && sub !in c.shimAlias && sub !in c.prebuiltPaths
    requires sub in c.planPaths && c.planPaths[sub] in c.plans
    requires OverPrebuilt(c, c.plans[c.planPaths[sub]].components, out)
    ensures var plan := c.plans[c.planPaths[sub]]; var full := plan.(components := out);
      && DigestOf(c, rank, sub) == (if c.compose(full).Some? then Some(c.digestOf(c.compose(full).value)) else None)
      && (Composable(c, rank, seeds, sub) <==>
            c.compose(full).Some? && forall k | 0 <= k < |out| ::
              var d := plan.components[k].digest;
              (d == [] || exists i | 0 <= i < |d| :: d[i] != 0) ==> d in seeds)
  {
    SplicedOverPrebuilt(c, rank, sub, out, |out|);
    assert out[..|out|] == out;
    var cs := PlanOf(c, sub).components;
    forall k: nat | k < |out| && cs[k].digest != [] && forall i | 0 <= i < |cs[k].digest| :: cs[k].digest[i] == 0
      ensures Derived(c, sub, k) && Composable(c, rank, seeds, Upstream(c, sub, k))
    {
      assert Derived(c, sub, k);
    }
  }

  ghost predicate OverPrebuilt(c: Config, cs: seq<Component>, out: seq<Component>) {
    && |out| == |cs|
    && forall k | 0 <= k < |cs| ::
         if cs[k].digest != [] && forall i | 0 <= i < |cs[k].digest| :: cs[k].digest[i] == 0
         then
           && cs[k].id in c.derivedFrom
           && var up := c.derivedFrom[cs[k].id];
              && up !in c.shimAlias && up in c.prebuiltPaths && c.prebuiltPaths[up] in c.prebuiltFiles
              && out[k] == Component(cs[k].id, c.digestOf(c.prebuiltFiles[c.prebuiltPaths[up]]))
         else out[k] == cs[k]
  }

  lemma {:induction false} SplicedOverPrebuilt(c: Config, rank: string -> nat, sub: string, out: seq<Component>, n: nat)
    requires Acyclic(c, rank) && PlanDriven(c, sub) && OverPrebuilt(c, PlanOf(c, sub).components, out) && n <= |out|
    ensures Spliced(c, rank, sub, n) == Some(out[..n])
  {
    if n > 0 {
      SplicedOverPrebuilt(c, rank, sub, out, n - 1);
      assert out[..n] == out[..n - 1] + [out[n - 1]];
    }
  }

  /** What the loader hands to the composer differs from the parsed plan only in the digests
      that are all zero bytes, each replaced by the digest cached for the upstream it derives
      from. An empty digest, or one with a byte that is not zero, is handed over as it is. */
  ghost predicate OnlyPlaceholdersFilled(c: Config, digests: map<string, Digest>, parsed: Plan, handed: Plan) {
    && handed.rest == parsed.rest
    && |handed.components| == |parsed.components|
    && forall k: nat | k < |parsed.components| ::
         var p, h := parsed.components[k], handed.components[k];
         if p.digest != [] && forall i | 0 <= i < |p.digest| :: p.digest[i] == 0
         then h.id == p.id && p.id in c.derivedFrom && c.derivedFrom[p.id] in digests
           && h.digest == digests[c.derivedFrom[p.id]]
         else h == p
  }

  // ---------------------------------------------------------------------------
  // The loader's state and what every call keeps
  // ---------------------------------------------------------------------------

  /** The loader's mutable fields as one value. */
  datatype State = State(
    registry: map<string, Bytes>,
    cas: map<Digest, Bytes>,
    materialized: set<string>,
    digests: map<string, Digest>,
    log: seq<ComposeCall>)

  /** What surrounds a loader for its lifetime: the configuration with its rank, the ids other
      parties registered first, and the digests seeded in the CAS. */
  datatype Frame = Frame(c: Config, rank: string -> nat, registry0: set<string>, seeds: set<Digest>)

  /** A materialised un-aliased sub is registered, and its cached digest is the one the
      configuration determines, with bytes in the CAS. */
  ghost predicate Settled(f: Frame, st: State, s: string)
    requires Acyclic(f.c, f.rank)
  {
    && ProviderId(s) in st.registry
    && s in st.digests
    && st.digests[s] in st.cas
    && DigestOf(f.c, f.rank, s) == Some(st.digests[s])
    && (ProviderId(s) !in f.registry0 ==> f.c.digestOf(st.registry[ProviderId(s)]) == st.digests[s])
  }

  /** A registration that is not (yet) backed by a materialisation can only be the one a
      prebuilt file's interrupted load leaves behind. */
  ghost predicate LeftBehind(f: Frame, st: State, s: string) {
    && s in f.c.prebuiltPaths && f.c.prebuiltPaths[s] in f.c.prebuiltFiles
    && ProviderId(s) in st.registry && st.registry[ProviderId(s)] == f.c.prebuiltFiles[f.c.prebuiltPaths[s]]
  }

  ghost predicate RegistryOk(f: Frame, st: State, s: string) {
    ProviderId(s) in st.registry && ProviderId(s) !in f.registry0 ==>
      s !in f.c.shimAlias && (s in st.materialized || LeftBehind(f, st, s))
  }

  ghost predicate LogEntryOk(f: Frame, st: State, e: ComposeCall) {
    && PlanDriven(f.c, e.sub) && e.parsed == PlanOf(f.c, e.sub)
    && OnlyPlaceholdersFilled(f.c, st.digests, e.parsed, e.handed)
    && forall k: nat :: Derived(f.c, e.sub, k) ==> Upstream(f.c, e.sub, k) in st.materialized
  }

  ghost predicate CasOk(c: Config, cas: map<Digest, Bytes>) {
    forall d :: d in cas ==> c.digestOf(cas[d]) == d
  }

  ghost predicate Inv(f: Frame, st: State) {
    && Acyclic(f.c, f.rank)
    && CasOk(f.c, st.cas) && f.seeds <= st.cas.Keys
    && (forall s :: s in st.materialized && s !in f.c.shimAlias ==> Settled(f, st, s))
    && (forall s :: s in st.materialized && s in f.c.shimAlias ==> f.c.shimAlias[s] in st.materialized)
    && (forall s :: s in st.digests ==> s !in f.c.shimAlias)
    && (forall s :: RegistryOk(f, st, s))
    && (forall e :: e in st.log ==> LogEntryOk(f, st, e))
  }

  /** Nothing is lost between two states, and what is cached for a materialised sub stays. */
  ghost predicate Extends(st: State, st': State) {
    && st.registry.Keys <= st'.registry.Keys
    && st.cas.Keys <= st'.cas.Keys
    && st.materialized <= st'.materialized
    && st.log <= st'.log
    && forall s :: s in st.materialized && s in st.digests ==> s in st'.digests && st'.digests[s] == st.digests[s]
  }

  lemma AliasKeepsInv(f: Frame, st: State, sub: string)
    requires Inv(f, st) && sub in f.c.shimAlias && f.c.shimAlias[sub] in st.materialized
    ensures Inv(f, st.(materialized := st.materialized + {sub}))
  {
    var st' := st.(materialized := st.materialized + {sub});
    forall s | s in st'.materialized && s !in f.c.shimAlias ensures Settled(f, st', s) { assert Settled(f, st, s); }
    forall s ensures RegistryOk(f, st', s) { assert RegistryOk(f, st, s); }
    forall e | e in st'.log ensures LogEntryOk(f, st', e) { assert LogEntryOk(f, st, e); }
  }

  /** Registering the prebuilt file of an un-aliased sub. */
  lemma RegisterKeepsInv(f: Frame, st: State, st': State, sub: string)
    requires Inv(f, st) && sub !in f.c.shimAlias && sub !in st.materialized
    requires sub in f.c.prebuiltPaths && f.c.prebuiltPaths[sub] in f.c.prebuiltFiles
    requires st' == st.(registry := st.registry[ProviderId(sub) := f.c.prebuiltFiles[f.c.prebuiltPaths[sub]]])
    ensures Inv(f, st') && Extends(st, st')
  {
    hide ProviderId, DigestOf;
    forall s | s != sub ensures ProviderId(s) != ProviderId(sub) {
      if ProviderId(s) == ProviderId(sub) { ProviderIdInjective(s, sub); }
    }
    forall s | s in st'.materialized && s !in f.c.shimAlias ensures Settled(f, st', s) { assert Settled(f, st, s); }
    forall s ensures RegistryOk(f, st', s) { assert RegistryOk(f, st, s); }
    forall e | e in st'.log ensures LogEntryOk(f, st', e) { assert LogEntryOk(f, st, e); }
  }

  lemma CasGrowthKeepsInv(f: Frame, st: State, cas: map<Digest, Bytes>)
    requires Inv(f, st) && CasOk(f.c, cas) && st.cas.Keys <= cas.Keys
    ensures Inv(f, st.(cas := cas))
  {
    var st' := st.(cas := cas);
    forall s | s in st'.materialized && s !in f.c.shimAlias ensures Settled(f, st', s) { assert Settled(f, st, s); }
    forall s ensures RegistryOk(f, st', s) { assert RegistryOk(f, st, s); }
    forall e | e in st'.log ensures LogEntryOk(f, st', e) { assert LogEntryOk(f, st, e); }
  }

  /** Caching a digest for a sub that is not materialised. */
  lemma CacheKeepsInv(f: Frame, st: State, sub: string, d: Digest)
    requires Inv(f, st) && sub !in f.c.shimAlias && sub !in st.materialized
    ensures Inv(f, st.(digests := st.digests[sub := d]))
  {
    var st' := st.(digests := st.digests[sub := d]);
    forall s | s in st'.materialized && s !in f.c.shimAlias ensures Settled(f, st', s) { assert Settled(f, st, s); }
    forall s ensures RegistryOk(f, st', s) { assert RegistryOk(f, st, s); }
    forall e | e in st'.log ensures LogEntryOk(f, st', e) {
      assert LogEntryOk(f, st, e);
      forall k: nat | k < |e.parsed.components| && IsZeroDigest(e.parsed.components[k].digest)
        ensures f.c.derivedFrom[e.parsed.components[k].id] != sub
      {
        assert Derived(f.c, e.sub, k);
      }
    }
  }

  /** The last step of a successful load. */
  lemma SettleKeepsInv(f: Frame, st: State, registry: map<string, Bytes>, sub: string)
    requires Inv(f, st) && sub !in f.c.shimAlias && sub !in st.materialized
    requires ProviderId(sub) in registry
    requires forall id :: id in st.registry && id != ProviderId(sub) ==>
      id in registry && registry[id] == st.registry[id]
    requires registry.Keys == st.registry.Keys + {ProviderId(sub)}
    requires Settled(f, st.(registry := registry), sub)
    ensures Inv(f, st.(registry := registry, materialized := st.materialized + {sub}))
  {
    hide ProviderId, DigestOf, CasOk;
    var st' := st.(registry := registry, materialized := st.materialized + {sub});
    forall s | s != sub ensures ProviderId(s) != ProviderId(sub) {
      if ProviderId(s) == ProviderId(sub) { ProviderIdInjective(s, sub); }
    }
    forall s | s in st'.materialized && s !in f.c.shimAlias ensures Settled(f, st', s) {
      if s != sub { assert Settled(f, st, s); }
    }
    forall s ensures RegistryOk(f, st', s) { assert RegistryOk(f, st, s); }
    forall e | e in st'.log ensures LogEntryOk(f, st', e) { assert LogEntryOk(f, st, e); }
  }

  lemma LogKeepsInv(f: Frame, st: State, e: ComposeCall)
    requires Inv(f, st) && LogEntryOk(f, st, e)
    ensures Inv(f, st.(log := st.log + [e])) && Extends(st, st.(log := st.log + [e]))
  {
    var st' := st.(log := st.log + [e]);
    forall s | s in st'.materialized && s !in f.c.shimAlias ensures Settled(f, st', s) { assert Settled(f, st, s); }
    forall s ensures RegistryOk(f, st', s) { assert RegistryOk(f, st, s); }
    forall g | g in st'.log ensures LogEntryOk(f, st', g) {
      assert LogEntryOk(f, st, g);
    }
  }

  /** Two loaders over one configuration agree on every digest, whatever was loaded in which
      order, whatever failed on the way and whichever rank witnesses the absence of cycles. */
  lemma DigestsOrderIndependent(f: Frame, st: State, g: Frame, st': State, s: string)
    requires f.c == g.c && Inv(f, st) && Inv(g, st')
    requires s in st.materialized && s in st'.materialized && s !in f.c.shimAlias
    ensures s in st.digests && s in st'.digests && st.digests[s] == st'.digests[s]
  {
    assert Settled(f, st, s) && Settled(g, st', s);
    DigestRankIndependent(f.c, f.rank, g.rank, s);
  }

  /** Materialising an alias materialises its whole chain down to where the call lands. */
  lemma {:induction false} LandingMaterialized(f: Frame, st: State, done: set<string>, sub: string)
    requires Inv(f, st) && sub in st.materialized
    ensures Landing(f.c, f.rank, done, sub) in st.materialized
    decreases f.rank(sub)
  {
    if sub in done || sub !in f.c.shimAlias {
    } else {
      LandingMaterialized(f, st, done, f.c.shimAlias[sub]);
    }
  }

  /** The id a call returns names a provider exactly when the call landed on an un-aliased sub
      (or someone else registered that id before). */
  lemma ReturnedIdRegistered(f: Frame, st: State, t: string)
    requires Inv(f, st) && t in st.materialized
    ensures ProviderId(t) in st.registry <==>
      t !in f.c.shimAlias || (ProviderId(t) in f.registry0 && ProviderId(t) in st.registry)
  {
    assert RegistryOk(f, st, t);
    if t !in f.c.shimAlias { assert Settled(f, st, t); }
  }

  /** The digests spliced into a plan are the cached ones, and their blobs are in the CAS. */
  lemma SplicedIsFilled(f: Frame, st: State, sub: string)
    requires Inv(f, st) && PlanDriven(f.c, sub)
    requires Spliced(f.c, f.rank, sub, |PlanOf(f.c, sub).components|).Some?
    requires forall k: nat :: Derived(f.c, sub, k) ==> Upstream(f.c, sub, k) in st.materialized
    ensures var plan := PlanOf(f.c, sub);
      var cs := Spliced(f.c, f.rank, sub, |plan.components|).value;
      && LogEntryOk(f, st, ComposeCall(sub, plan, plan.(components := cs)))
      && (Composable(f.c, f.rank, f.seeds, sub) ==> forall k :: 0 <= k < |cs| ==> cs[k].digest in st.cas)
  {
    var plan := PlanOf(f.c, sub);
    SplicedShape(f.c, f.rank, sub, |plan.components|);
    var cs := Spliced(f.c, f.rank, sub, |plan.components|).value;
    forall k: nat | k < |cs| && IsZeroDigest(plan.components[k].digest)
      ensures Upstream(f.c, sub, k) in st.digests && cs[k].digest == st.digests[Upstream(f.c, sub, k)]
        && cs[k].digest in st.cas
    {
      assert Derived(f.c, sub, k);
      assert Settled(f, st, Upstream(f.c, sub, k));
    }
    if Composable(f.c, f.rank, f.seeds, sub) {
      forall k: nat | k < |cs| && !IsZeroDigest(plan.components[k].digest) ensures cs[k].digest in st.cas {
        assert !Derived(f.c, sub, k);
      }
    }
  }

  lemma ExtendsReflexive(st: State)
    ensures Extends(st, st)
  {}

  lemma ExtendsTransitive(st0: State, st1: State, st2: State)
    requires Extends(st0, st1) && Extends(st1, st2)
    ensures Extends(st0, st2)
  {}

  /** One turn of the chain-resolution loop: component `k` is kept, or filled in from its
      materialised upstream. */
  lemma SpliceStep(f: Frame, st: State, sub: string, k: nat, done: seq<Component>)
    requires Inv(f, st) && PlanDriven(f.c, sub) && k < |PlanOf(f.c, sub).components|
    requires Spliced(f.c, f.rank, sub, k) == Some(done)
    ensures var comp := PlanOf(f.c, sub).components[k];
      && (!IsZeroDigest(comp.digest) ==>
            Spliced(f.c, f.rank, sub, k + 1) == Some(done + [comp]) && !Derived(f.c, sub, k))
      && (Derived(f.c, sub, k) && Upstream(f.c, sub, k) in st.materialized && Upstream(f.c, sub, k) in st.digests ==>
            Spliced(f.c, f.rank, sub, k + 1) == Some(done + [comp.(digest := st.digests[Upstream(f.c, sub, k)])]))
      && (Derived(f.c, sub, k) && Upstream(f.c, sub, k) in st.materialized && Upstream(f.c, sub, k) !in st.digests ==>
            !Composable(f.c, f.rank, f.seeds, sub))
      && (IsZeroDigest(comp.digest) && comp.id !in f.c.derivedFrom ==> !Composable(f.c, f.rank, f.seeds, sub))
  {
    var comp := PlanOf(f.c, sub).components[k];
    if Derived(f.c, sub, k) && Upstream(f.c, sub, k) in st.materialized {
      if Upstream(f.c, sub, k) !in f.c.shimAlias {
        assert Settled(f, st, Upstream(f.c, sub, k));
      } else {
        StuckIsNotComposable(f, sub, k);
      }
    } else if IsZeroDigest(comp.digest) && comp.id !in f.c.derivedFrom {
      StuckIsNotComposable(f, sub, k);
    }
  }

  lemma DerivedFacts(f: Frame, st: State, sub: string, k: nat)
    requires Inv(f, st) && PlanDriven(f.c, sub) && k < |PlanOf(f.c, sub).components|
    requires IsZeroDigest(PlanOf(f.c, sub).components[k].digest) && PlanOf(f.c, sub).components[k].id in f.c.derivedFrom
    ensures Derived(f.c, sub, k) && Upstream(f.c, sub, k) == f.c.derivedFrom[PlanOf(f.c, sub).components[k].id]
    ensures f.rank(Upstream(f.c, sub, k)) < f.rank(sub)
    ensures Composable(f.c, f.rank, f.seeds, sub) ==> Composable(f.c, f.rank, f.seeds, Upstream(f.c, sub, k))
  {
    assert Derived(f.c, sub, k);
  }

  lemma SplicedStart(f: Frame, st: State, sub: string)
    requires Inv(f, st) && PlanDriven(f.c, sub)
    ensures Acyclic(f.c, f.rank) && Spliced(f.c, f.rank, sub, 0) == Some([])
  {}

  lemma DerivedBound(c: Config, sub: string)
    requires PlanDriven(c, sub)
    ensures forall k: nat :: Derived(c, sub, k) ==> k < |PlanOf(c, sub).components|
  {}

  lemma ExtendsFacts(st: State, st': State)
    requires Extends(st, st')
    ensures st.materialized <= st'.materialized
  {}

  lemma UnreadablePlan(f: Frame, st: State, sub: string)
    requires Inv(f, st) && sub !in f.c.shimAlias && sub !in f.c.prebuiltPaths
    ensures sub !in f.c.planPaths || f.c.planPaths[sub] !in f.c.plans ==> !Composable(f.c, f.rank, f.seeds, sub)
  {}

  lemma CasIsOk(f: Frame, st: State)
    requires Inv(f, st)
    ensures CasOk(f.c, st.cas)
  {}

  /** Composing a fully spliced plan yields the digest the configuration determines. */
  lemma ComposeOutcome(f: Frame, st: State, sub: string, handed: seq<Component>)
    requires Inv(f, st) && PlanDriven(f.c, sub)
    requires Spliced(f.c, f.rank, sub, |PlanOf(f.c, sub).components|) == Some(handed)
    requires forall k: nat :: Derived(f.c, sub, k) ==> Upstream(f.c, sub, k) in st.materialized
    ensures var plan := PlanOf(f.c, sub); var full := plan.(components := handed);
      && LogEntryOk(f, st, ComposeCall(sub, plan, full))
      && (Composable(f.c, f.rank, f.seeds, sub) ==>
            f.c.compose(full).Some? && forall k :: 0 <= k < |handed| ==> handed[k].digest in st.cas)
      && (f.c.compose(full).Some? ==> DigestOf(f.c, f.rank, sub) == Some(f.c.digestOf(f.c.compose(full).value)))
  {
    SplicedIsFilled(f, st, sub);
  }

  lemma PrebuiltDigest(f: Frame, st: State, sub: string)
    requires Inv(f, st) && sub !in f.c.shimAlias && sub in f.c.prebuiltPaths
    ensures f.c.prebuiltPaths[sub] !in f.c.prebuiltFiles ==> !Composable(f.c, f.rank, f.seeds, sub)
    ensures f.c.prebuiltPaths[sub] in f.c.prebuiltFiles ==>
      DigestOf(f.c, f.rank, sub) == Some(f.c.digestOf(f.c.prebuiltFiles[f.c.prebuiltPaths[sub]]))
  {}

  /** The end of a successful load of an un-aliased sub: CAS, digest cache, registry and
      idempotence set have been brought up to date in that order. */
  lemma LoadKeepsInv(f: Frame, st: State, cas: map<Digest, Bytes>, registry: map<string, Bytes>, sub: string,
      d: Digest, b: Bytes)
    requires Inv(f, st) && sub !in f.c.shimAlias && sub !in st.materialized
    requires CasOk(f.c, cas) && st.cas.Keys <= cas.Keys && d in cas && d == f.c.digestOf(b)
    requires DigestOf(f.c, f.rank, sub) == Some(d)
    requires
      || registry == st.registry[ProviderId(sub) := b]
      || (ProviderId(sub) in st.registry && registry == st.registry)
    ensures Inv(f, st.(cas := cas, digests := st.digests[sub := d]))
    ensures Inv(f, State(registry, cas, st.materialized + {sub}, st.digests[sub := d], st.log))
    ensures Extends(st, st.(cas := cas, digests := st.digests[sub := d]))
    ensures Extends(st, State(registry, cas, st.materialized + {sub}, st.digests[sub := d], st.log))
  {
    hide DigestOf;
    CasGrowthKeepsInv(f, st, cas);
    var st1 := st.(cas := cas);
    CacheKeepsInv(f, st1, sub, d);
    var st2 := st1.(digests := st1.digests[sub := d]);
    assert RegistryOk(f, st2, sub);
    if sub in f.c.prebuiltPaths { PrebuiltDigest(f, st2, sub); }
    SettleKeepsInv(f, st2, registry, sub);
  }

  // ---------------------------------------------------------------------------
  // The loader
  // ---------------------------------------------------------------------------

  class SubExtLoader {
    const cfg: Config
    ghost const frame: Frame

    var registry: map<string, Bytes>
    var cas: map<Digest, Bytes>
    var materialized: set<string>
    var composedDigests: map<string, Digest>
    ghost var faults: nat
    ghost var composeLog: seq<ComposeCall>

    ghost function St(): State
      reads this
    {
      State(registry, cas, materialized, composedDigests, composeLog)
    }

    ghost predicate Valid()
      reads this
    {
      frame.c == cfg && Inv(frame, St())
    }

    constructor (cfg: Config, ghost rank: string -> nat, registry: map<string, Bytes>, cas: map<Digest, Bytes>)
      requires Acyclic(cfg, rank) && CasOk(cfg, cas)
      ensures Valid()
      ensures this.cfg == cfg && frame == Frame(cfg, rank, registry.Keys, cas.Keys)
      ensures St() == State(registry, cas, {}, map[], []) && faults == 0
    {
      this.cfg, this.registry, this.cas := cfg, registry, cas;
      frame := Frame(cfg, rank, registry.Keys, cas.Keys);
      materialized, composedDigests, faults, composeLog := {}, map[], 0, [];
    }

    /** One fallible I/O step: a read, a directory creation, a write. */
    method Io() returns (ok: bool)
      modifies this`faults
      ensures faults == old(faults) + if ok then 0 else 1
    {
      ok := *;
      if !ok { faults := faults + 1; }
    }

    /** `BlobStore::put`: content-addressed, keeps a blob that is already there. */
    method Put(b: Bytes) returns (d: Digest)
      requires CasOk(cfg, cas)
      modifies this`cas
      ensures d == cfg.digestOf(b) && cas.Keys == old(cas).Keys + {d} && CasOk(cfg, cas)
    {
      d := cfg.digestOf(b);
      if d !in cas { cas := cas[d := b]; }
    }

    /** `register_provider`: whether an id that is already taken keeps its first bytes or is
        replaced is left open. */
    method Register(id: string, b: Bytes) returns (ok: bool)
      modifies this`registry, this`faults
      ensures faults == old(faults) + if ok then 0 else 1
      ensures ok ==> registry == old(registry)[id := b] || (id in old(registry) && registry == old(registry))
      ensures !ok ==> registry == old(registry)
    {
      ok := Io();
      if ok {
        var replace: bool := *;
        if replace || id !in registry { registry := registry[id := b]; }
      }
    }

    method Materialize(sub: string) returns (r: Result<string, SubExtError>)
      requires Valid()
      modifies this
      decreases frame.rank(sub), 1, 0
      ensures Valid() && Extends(old(St()), St()) && faults >= old(faults)
      ensures forall s :: s in materialized && s !in old(materialized) ==> frame.rank(s) <= frame.rank(sub)
      ensures sub in old(materialized) ==> r.Success? && St() == old(St())
      ensures r.Success? ==>
        sub in materialized && r.value == Landing(cfg, frame.rank, old(materialized), sub) + "-composed"
      ensures r.Failure? ==> faults > old(faults) || !Composable(cfg, frame.rank, frame.seeds, sub)
      ensures r.Failure? ==> ErrorNamesItsCause(cfg, faults > old(faults), r.error)
      ensures forall e :: e in composeLog ==>
        && e.sub in cfg.planPaths && cfg.planPaths[e.sub] in cfg.plans && e.parsed == cfg.plans[cfg.planPaths[e.sub]]
        && OnlyPlaceholdersFilled(cfg, composedDigests, e.parsed, e.handed)
    {
      var id := ProviderId(sub);
      if sub in materialized {
        return Success(id);
      }
      if sub in cfg.shimAlias {
        var upstream := cfg.shimAlias[sub];
        var up := Materialize(upstream);
        if up.Failure? { return Failure(up.error); }
        AliasKeepsInv(frame, St(), sub);
        materialized := materialized + {sub};
        return up;
      }
      if sub in cfg.prebuiltPaths {
        r := RegisterPrebuilt(sub);
        return;
      }
      if sub !in cfg.planPaths { return Failure(PlanMissing(sub)); }
      r := ComposePlan(sub);
    }

    method RegisterPrebuilt(sub: string) returns (r: Result<string, SubExtError>)
      requires Valid() && sub !in materialized && sub !in cfg.shimAlias && sub in cfg.prebuiltPaths
      modifies this
      ensures Valid() && Extends(old(St()), St()) && faults >= old(faults)
      ensures forall s :: s in materialized && s !in old(materialized) ==> s == sub
      ensures r.Success? ==> sub in materialized && r.value == ProviderId(sub)
      ensures r.Failure? ==> faults > old(faults) || !Composable(cfg, frame.rank, frame.seeds, sub)
      ensures r.Failure? ==> ErrorNamesItsCause(cfg, faults > old(faults), r.error)
    {
      hide Inv, Acyclic, Composable, DigestOf, Spliced, Derived, Extends, CasOk, LogEntryOk, ProviderId;
      var id, path := ProviderId(sub), cfg.prebuiltPaths[sub];
      ExtendsReflexive(St());
      PrebuiltDigest(frame, St(), sub);
      if path !in cfg.prebuiltFiles { return Failure(Materialization(sub, path)); }
      var bytes := cfg.prebuiltFiles[path];
      ghost var st0 := St();
      var ok := Register(id, bytes);
      if !ok {
        RegistrationNamesItsCause(cfg, sub, path);
        return Failure(ProviderRegistration(id, path));
      }
      ghost var st1 := St();
      if registry == st0.registry[id := bytes] { RegisterKeepsInv(frame, st0, st1, sub); }
      assert Inv(frame, st1) && Extends(st0, st1);
      ok := Io();   // read the file for its digest, open the CAS, put the blob
      if !ok { return Failure(Materialization(sub, path)); }
      CasIsOk(frame, st1);
      var digest := Put(bytes);
      LoadKeepsInv(frame, st1, cas, registry, sub, digest, bytes);
      composedDigests := composedDigests[sub := digest];
      materialized := materialized + {sub};
      ExtendsTransitive(st0, st1, St());
      r := Success(id);
    }

    /** The digest to splice in for placeholder `k`: materialise its upstream and take what is
        cached for it. */
    method ChainResolve(sub: string, k: nat, ghost done: seq<Component>) returns (r: Result<Digest, SubExtError>)
      requires Valid() && PlanDriven(cfg, sub) && k < |PlanOf(cfg, sub).components|
      requires IsZeroDigest(PlanOf(cfg, sub).components[k].digest)
      requires Spliced(cfg, frame.rank, sub, k) == Some(done)
      modifies this
      decreases frame.rank(sub), 0, 0
      ensures Valid() && Extends(old(St()), St()) && faults >= old(faults) && old(materialized) <= materialized
      ensures forall s :: s in materialized && s !in old(materialized) ==> frame.rank(s) < frame.rank(sub)
      ensures r.Success? ==> Derived(cfg, sub, k) && Upstream(cfg, sub, k) in materialized
      ensures r.Success? ==>
        Spliced(cfg, frame.rank, sub, k + 1) == Some(done + [PlanOf(cfg, sub).components[k].(digest := r.value)])
      ensures r.Failure? ==> faults > old(faults) || !Composable(cfg, frame.rank, frame.seeds, sub)
      ensures r.Failure? ==> ErrorNamesItsCause(cfg, faults > old(faults), r.error)
    {
      hide Inv, Acyclic, Composable, DigestOf, Spliced, Derived, Extends, CasOk, LogEntryOk, ProviderId;
      var path, id := cfg.planPaths[sub], PlanOf(cfg, sub).components[k].id;
      ghost var st0 := St();
      ExtendsReflexive(st0);
      SpliceStep(frame, st0, sub, k, done);
      if id !in cfg.derivedFrom {
        return Failure(Materialization(sub, path));
      }
      DerivedFacts(frame, st0, sub, k);
      var upstream := cfg.derivedFrom[id];
      var up := Materialize(upstream);
      ExtendsFacts(st0, St());
      if up.Failure? { return Failure(up.error); }
      SpliceStep(frame, St(), sub, k, done);
      if upstream !in composedDigests {
        return Failure(Materialization(sub, path));
      }
      r := Success(composedDigests[upstream]);
    }

    method ComposePlan(sub: string) returns (r: Result<string, SubExtError>)
      requires Valid() && sub !in materialized && sub !in cfg.shimAlias && sub !in cfg.prebuiltPaths
        && sub in cfg.planPaths
      modifies this
      decreases frame.rank(sub), 0, 1
      ensures Valid() && Extends(old(St()), St()) && faults >= old(faults)
      ensures forall s :: s in materialized && s !in old(materialized) ==> frame.rank(s) <= frame.rank(sub)
      ensures r.Success? ==> sub in materialized && r.value == ProviderId(sub)
      ensures r.Failure? ==> faults > old(faults) || !Composable(cfg, frame.rank, frame.seeds, sub)
      ensures r.Failure? ==> ErrorNamesItsCause(cfg, faults > old(faults), r.error)
    {
      hide Inv, Acyclic, Composable, DigestOf, Spliced, Derived, Extends, CasOk, LogEntryOk, ProviderId;
      var path := cfg.planPaths[sub];
      ExtendsReflexive(St());
      UnreadablePlan(frame, St(), sub);
      var ok := Io();   // read the plan
      if !ok || path !in cfg.plans { return Failure(Materialization(sub, path)); }
      assert PlanDriven(cfg, sub);
      var plan := cfg.plans[path];
      var handed := plan.components;
      var i := 0;
      ghost var st0 := St();
      SplicedStart(frame, st0, sub);
      while i < |plan.components|
        invariant 0 <= i <= |plan.components| == |handed|
        invariant Valid() && Extends(st0, St()) && faults >= old(faults)
        invariant forall s :: s in materialized && s !in st0.materialized ==> frame.rank(s) < frame.rank(sub)
        invariant Acyclic(cfg, frame.rank) && Spliced(cfg, frame.rank, sub, i) == Some(handed[..i])
        invariant forall k :: i <= k < |handed| ==> handed[k] == plan.components[k]
        invariant forall k: nat :: k < i && Derived(cfg, sub, k) ==> Upstream(cfg, sub, k) in materialized
      {
        ghost var st1, done := St(), handed[..i];
        if IsZeroDigest(handed[i].digest) {
          var digest := ChainResolve(sub, i, done);
          ExtendsTransitive(st0, st1, St());
          if digest.Failure? { return Failure(digest.error); }
          handed := handed[i := handed[i].(digest := digest.value)];
        } else {
          SpliceStep(frame, st1, sub, i, done);
        }
        assert handed[..i + 1] == done + [handed[i]];
        i := i + 1;
      }
      assert handed[..i] == handed;
      DerivedBound(cfg, sub);
      ghost var st2 := St();
      r := ComposeAndRegister(sub, handed);
      ExtendsTransitive(st0, st2, St());
    }

    method ComposeAndRegister(sub: string, handed: seq<Component>) returns (r: Result<string, SubExtError>)
      requires Valid() && PlanDriven(cfg, sub) && sub !in materialized
      requires Spliced(cfg, frame.rank, sub, |PlanOf(cfg, sub).components|) == Some(handed)
      requires forall k: nat :: Derived(cfg, sub, k) ==> Upstream(cfg, sub, k) in materialized
      modifies this
      ensures Valid() && Extends(old(St()), St()) && faults >= old(faults)
      ensures forall s :: s in materialized && s !in old(materialized) ==> s == sub
      ensures r.Success? ==> sub in materialized && r.value == ProviderId(sub)
      ensures r.Failure? ==> faults > old(faults) || !Composable(cfg, frame.rank, frame.seeds, sub)
      ensures r.Failure? ==> ErrorNamesItsCause(cfg, faults > old(faults), r.error)
    {
      hide Inv, Acyclic, Composable, DigestOf, Spliced, Derived, Extends, CasOk, LogEntryOk, ProviderId,
          ErrorNamesItsCause;
      var id, path := ProviderId(sub), cfg.planPaths[sub];
      var plan := cfg.plans[path];
      ExtendsReflexive(St());
      MaterializationNamesItsCause(cfg, true, sub, path);
      MaterializationNamesItsCause(cfg, false, sub, path);
      RegistrationNamesItsCause(cfg, sub, path);
      var ok := Io();   // open the CAS
      if !ok { return Failure(Materialization(sub, path)); }
      ok := Io();       // create the compose cache directory
      if !ok { return Failure(Materialization(sub, path)); }
      var full := plan.(components := handed);
      ComposeOutcome(frame, St(), sub, handed);
      LogKeepsInv(frame, St(), ComposeCall(sub, plan, full));
      composeLog := composeLog + [ComposeCall(sub, plan, full)];
      var composed := cfg.compose(full);
      ok := Io();       // the composer's own I/O
      if !ok || composed.None? || exists k :: 0 <= k < |handed| && handed[k].digest !in cas {
        return Failure(Materialization(sub, path));
      }
      ghost var st0, st1 := old(St()), St();
      CasIsOk(frame, st1);
      var digest := Put(composed.value);
      LoadKeepsInv(frame, st1, cas, registry[id := composed.value], sub, digest, composed.value);
      composedDigests := composedDigests[sub := digest];
      ExtendsTransitive(st0, st1, St());
      ok := Io();       // read the artifact back, create the provider directory, write the file
      if !ok { return Failure(Materialization(sub, path)); }
      ok := Register(id, cas[digest]);
      if !ok { return Failure(ProviderRegistration(id, path)); }
      LoadKeepsInv(frame, st1, cas, registry, sub, digest, cas[digest]);
      materialized := materialized + {sub};
      ExtendsTransitive(st0, st1, St());
      r := Success(id);
    }
  }

  /** Loading the same sub twice: the ids agree exactly for subs that are un-aliased or were
      materialised before, and the second id of an alias names nothing the loader registered. */
  method LoadTwice(l: SubExtLoader, sub: string)
    returns (first: Result<string, SubExtError>, second: Result<string, SubExtError>)
    requires l.Valid()
    modifies l
    ensures l.Valid()
    ensures first.Success? ==> second.Success?
    ensures first.Success? ==> (first.value == second.value <==> sub in old(l.materialized) || sub !in l.cfg.shimAlias)
    ensures first.Success? && sub in l.cfg.shimAlias && ProviderId(sub) !in l.frame.registry0 ==>
      second.value !in l.registry
    ensures var landing := Landing(l.cfg, l.frame.rank, old(l.materialized), sub);
      first.Success? && landing !in l.cfg.shimAlias ==> first.value in l.registry
  {
    first := l.Materialize(sub);
    ghost var st := l.St();
    second := l.Materialize(sub);
    if first.Success? {
      if sub !in old(l.materialized) {
        RepeatIdAgrees(l.cfg, l.frame.rank, old(l.materialized), st.materialized, sub);
      }
      ghost var t := Landing(l.cfg, l.frame.rank, old(l.materialized), sub);
      LandingMaterialized(l.frame, st, old(l.materialized), sub);
      ReturnedIdRegistered(l.frame, st, t);
      ReturnedIdRegistered(l.frame, st, sub);
    }
  }
}
