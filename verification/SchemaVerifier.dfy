/**
 The XML Schema verification pipeline
 (services/messaging/src/ubunturemit_messaging/verify_schema.py).

 `VerifySchema` is a depth-first search that shares one mutable set of seen
 paths through all of its recursive calls.  `Visit` is the same search as a
 function; `Discover` is a plain graph search that knows nothing of the stages,
 and `Reachable` is reachability by a chain of imports.  The verdict of the
 pipeline is characterised by the last two.
 */
module SchemaVerifier {
  import opened Wrappers
  import opened Text

  type Path = string

  /** An `xs:import` or `xs:redefine` element. */
  datatype Dependency = Dependency(schemaLocation: Option<string>, namespace: Option<string>)

  datatype Document =
    | Unparseable
    | Document(
        rootIsSchema: bool,
        targetNamespace: Option<string>,
        imports: seq<Dependency>,
        redefines: seq<Dependency>)

  /** A regular file: whether its suffix is `.xsd`, its digest, and what parsing it yields. */
  datatype SchemaFile = SchemaFile(isXsd: bool, sha256: string, document: Document)

  datatype MessagePolicy = MessagePolicy(authorizedVersion: Option<string>, sha256: Option<string>)

  /**
   Everything one verification reads: the regular files, the resolution of a
   location relative to the file that names it, and the policy of the clearing
   context by message identifier.
   */
  datatype Environment = Environment(
    files: map<Path, SchemaFile>,
    resolve: (Path, string) -> Path,
    policy: map<string, MessagePolicy>)

  datatype Verification = Verification(
    ok: bool,
    stage: Option<nat>,
    path: Path,
    targetNamespace: Option<string>,
    messageIdentifier: Option<string>,
    versionSuffix: Option<string>,
    dependencies: seq<string>)

  datatype Urn = Urn(messageIdentifier: string, versionSuffix: string)

  // ---------------------------------------------------------------------
  // Stages 1 to 6: one file on its own
  // ---------------------------------------------------------------------

  const URN_PREFIX := "urn:iso:std:iso:20022:tech:xsd:"

  predicate IsDigits(s: string) {
    forall i :: 0 <= i < |s| ==> '0' <= s[i] <= '9'
  }

  predicate IsLowercase(s: string) {
    forall i :: 0 <= i < |s| ==> 'a' <= s[i] <= 'z'
  }

  /** The URN pattern: four letters, then `.ddd.ddd.dd`, after the exact prefix. */
  function ParseUrn(ns: string): Option<Urn> {
    if |ns| != |URN_PREFIX| + 15 || ns[..|URN_PREFIX|] != URN_PREFIX then None
    else
      var id := ns[|URN_PREFIX|..];
      if IsLowercase(id[..4]) && id[4] == '.' && IsDigits(id[5..8]) && id[8] == '.' && IsDigits(id[9..12])
         && id[12] == '.' && IsDigits(id[13..])
      then Some(Urn(id[..12], id[13..]))
      else None
  }

  function Refused(path: Path, stage: nat, ns: Option<string>, urn: Option<Urn>): Verification {
    Verification(false, Some(stage), path, ns,
                 if urn.Some? then Some(urn.value.messageIdentifier) else None,
                 if urn.Some? then Some(urn.value.versionSuffix) else None, [])
  }

  predicate Authorized(env: Environment, urn: Urn) {
    && urn.messageIdentifier in env.policy
    && env.policy[urn.messageIdentifier].authorizedVersion == Some(urn.versionSuffix)
  }

  predicate ChecksumMatches(file: SchemaFile, policy: MessagePolicy) {
    policy.sha256.Some? ==> Lower(file.sha256) == Lower(policy.sha256.value)
  }

  predicate IsSchemaFile(env: Environment, path: Path) {
    path in env.files && env.files[path].isXsd
  }

  /** Stages 1 to 6. */
  function OwnStages(env: Environment, path: Path): (v: Verification)
    ensures v.path == path && v.dependencies == []
    ensures v.ok ==> IsSchemaFile(env, path) && env.files[path].document.Document? && v.targetNamespace.Some?
  {
    if !IsSchemaFile(env, path) then Refused(path, 1, None, None)
    else
      var file := env.files[path];
      if file.document.Unparseable? || !file.document.rootIsSchema then Refused(path, 2, None, None)
      else if file.document.targetNamespace.None? || Strip(file.document.targetNamespace.value) == "" then
        Refused(path, 3, None, None)
      else
        var ns := Strip(file.document.targetNamespace.value);
        var urn := ParseUrn(ns);
        if urn.None? then Refused(path, 4, Some(ns), None)
        else if !Authorized(env, urn.value) || !ChecksumMatches(file, env.policy[urn.value.messageIdentifier]) then
          Refused(path, 6, Some(ns), urn)
        else
          Verification(true, None, path, Some(ns), Some(urn.value.messageIdentifier), Some(urn.value.versionSuffix), [])
  }

  predicate Passes(env: Environment, path: Path) {
    OwnStages(env, path).ok
  }

  /** Import elements first, then redefine elements, as the pipeline follows them. */
  function Dependencies(env: Environment, path: Path): seq<Dependency> {
    if path in env.files && env.files[path].document.Document?
    then env.files[path].document.imports + env.files[path].document.redefines
    else []
  }

  /** An element without a schema location is not followed. */
  predicate Followed(dep: Dependency) {
    dep.schemaLocation.Some? && dep.schemaLocation.value != ""
  }

  function Target(env: Environment, from: Path, dep: Dependency): Path
    requires Followed(dep)
  {
    (env.resolve)(from, dep.schemaLocation.value)
  }

  /** The declared namespace contradicts the one the dependency turned out to have. */
  predicate Mismatch(dep: Dependency, found: Option<string>) {
    && dep.namespace.Some? && dep.namespace.value != ""
    && found.Some? && found.value != ""
    && dep.namespace.value != found.value
  }

  // ---------------------------------------------------------------------
  // Stage 7: the search as a function
  // ---------------------------------------------------------------------

  datatype Outcome = Outcome(result: Verification, seen: set<Path>)

  function AlreadySeen(path: Path): Verification {
    Verification(true, None, path, None, None, None, [])
  }

  function Visit(env: Environment, path: Path, seen: set<Path>): (o: Outcome)
    ensures seen <= o.seen
    decreases env.files.Keys - seen, 0, 0
  {
    if path in seen then Outcome(AlreadySeen(path), seen)
    else
      var own := OwnStages(env, path);
      if !IsSchemaFile(env, path) then Outcome(own, seen)
      else if !own.ok then Outcome(own, seen + {path})
      else
        assert path in env.files.Keys - seen;
        VisitAll(env, own, Dependencies(env, path), seen + {path})
  }

  function WithDependency(own: Verification, dep: Dependency): Verification
    requires Followed(dep)
  {
    own.(dependencies := own.dependencies + [dep.schemaLocation.value])
  }

  function VisitAll(env: Environment, own: Verification, deps: seq<Dependency>, seen: set<Path>): (o: Outcome)
    ensures seen <= o.seen
    decreases env.files.Keys - seen, 1, |deps|
  {
    if deps == [] then Outcome(own, seen)
    else if !Followed(deps[0]) then VisitAll(env, own, deps[1..], seen)
    else
      var first := Visit(env, Target(env, own.path, deps[0]), seen);
      if !first.result.ok || Mismatch(deps[0], first.result.targetNamespace) then
        Outcome(own.(ok := false, stage := Some(7), dependencies := []), first.seen)
      else
        assert env.files.Keys - first.seen <= env.files.Keys - seen;
        VisitAll(env, WithDependency(own, deps[0]), deps[1..], first.seen)
  }

  // ---------------------------------------------------------------------
  // The graph, without the stages
  // ---------------------------------------------------------------------

  datatype Edge = Edge(from: Path, dep: Dependency, target: Path)

  /** The paths met, and the edges along which a path was met for the first time. */
  datatype Discovery = Discovery(seen: set<Path>, edges: seq<Edge>)

  function Discover(env: Environment, path: Path, seen: set<Path>): (d: Discovery)
    ensures seen + {path} <= d.seen
    decreases env.files.Keys - seen, 0, 0
  {
    if path in seen || path !in env.files then Discovery(seen + {path}, [])
    else
      assert path in env.files.Keys - seen;
      DiscoverAll(env, path, Dependencies(env, path), seen + {path})
  }

  function DiscoverAll(env: Environment, from: Path, deps: seq<Dependency>, seen: set<Path>): (d: Discovery)
    ensures seen <= d.seen
    decreases env.files.Keys - seen, 1, |deps|
  {
    if deps == [] then Discovery(seen, [])
    else if !Followed(deps[0]) then DiscoverAll(env, from, deps[1..], seen)
    else
      var target := Target(env, from, deps[0]);
      var first := Discover(env, target, seen);
      assert env.files.Keys - first.seen <= env.files.Keys - seen;
      var rest := DiscoverAll(env, from, deps[1..], first.seen);
      Discovery(rest.seen,
                (if target in seen then [] else [Edge(from, deps[0], target)]) + first.edges + rest.edges)
  }

  predicate HasEdge(env: Environment, from: Path, target: Path) {
    exists i :: 0 <= i < |Dependencies(env, from)| && Followed(Dependencies(env, from)[i])
                && Target(env, from, Dependencies(env, from)[i]) == target
  }

  predicate IsChain(env: Environment, chain: seq<Path>) {
    forall i :: 0 <= i < |chain| - 1 ==> HasEdge(env, chain[i], chain[i + 1])
  }

  ghost predicate Reachable(env: Environment, from: Path, path: Path) {
    exists chain: seq<Path> ::
      chain != [] && chain[0] == from && chain[|chain| - 1] == path && IsChain(env, chain)
  }

  /** What stage 7 checks of an edge, judged by the target's own stages. */
  predicate EdgeMatches(env: Environment, e: Edge) {
    !Mismatch(e.dep, OwnStages(env, e.target).targetNamespace)
  }

  // ---------------------------------------------------------------------
  // The search follows the graph
  // ---------------------------------------------------------------------

  /** Every file met after `before` passes its own stages. */
  predicate AllPass(env: Environment, before: set<Path>, after: set<Path>) {
    forall p :: p in after && p !in before ==> Passes(env, p)
  }

  predicate AllMatch(env: Environment, edges: seq<Edge>) {
    forall e :: e in edges ==> EdgeMatches(env, e)
  }

  /** The locations of the followed elements, in order. */
  function Locations(deps: seq<Dependency>): seq<string> {
    if deps == [] then []
    else (if Followed(deps[0]) then [deps[0].schemaLocation.value] else []) + Locations(deps[1..])
  }

  /** The search succeeded exactly when everything newly met passes and every first-visit edge matches. */
  predicate FollowsGraph(env: Environment, seen: set<Path>, o: Outcome, d: Discovery) {
    && (o.result.ok <==> AllPass(env, seen, d.seen) && AllMatch(env, d.edges))
    && (o.result.ok ==> o.seen == d.seen)
  }

  lemma {:induction false} VisitFollowsDiscovery(env: Environment, path: Path, seen: set<Path>)
    ensures FollowsGraph(env, seen, Visit(env, path, seen), Discover(env, path, seen))
    ensures var o := Visit(env, path, seen);
            o.result.ok ==>
              && o.result.targetNamespace == (if path in seen then None else OwnStages(env, path).targetNamespace)
              && (path !in seen ==> o.result.dependencies == Locations(Dependencies(env, path)))
    decreases env.files.Keys - seen, 0, 0
  {
    if path !in seen {
      var d := Discover(env, path, seen);
      assert path in d.seen;
      if Passes(env, path) {
        assert path in env.files.Keys - seen;
        VisitAllFollowsDiscovery(env, OwnStages(env, path), Dependencies(env, path), seen + {path});
        assert [] + Locations(Dependencies(env, path)) == Locations(Dependencies(env, path));
      }
    }
  }

  lemma {:induction false} VisitAllFollowsDiscovery(
      env: Environment, own: Verification, deps: seq<Dependency>, seen: set<Path>)
    requires own.ok
    ensures var o := VisitAll(env, own, deps, seen);
            && FollowsGraph(env, seen, o, DiscoverAll(env, own.path, deps, seen))
            && (o.result.ok ==> o.result == own.(dependencies := own.dependencies + Locations(deps)))
    decreases env.files.Keys - seen, 1, |deps|
  {
    if deps == [] {
      assert own.dependencies + [] == own.dependencies;
    } else if !Followed(deps[0]) {
      VisitAllFollowsDiscovery(env, own, deps[1..], seen);
      assert [] + Locations(deps[1..]) == Locations(deps[1..]);
    } else {
      var target := Target(env, own.path, deps[0]);
      var d1 := Discover(env, target, seen);
      VisitFollowsDiscovery(env, target, seen);
      assert env.files.Keys - d1.seen <= env.files.Keys - seen;
      VisitAllFollowsDiscovery(env, WithDependency(own, deps[0]), deps[1..], d1.seen);
      JoinVisits(env, own, deps, seen);
    }
  }

  /** The first dependency and the rest make up the whole list. */
  lemma {:induction false} JoinVisits(env: Environment, own: Verification, deps: seq<Dependency>, seen: set<Path>)
    requires own.ok && deps != [] && Followed(deps[0])
    requires var target := Target(env, own.path, deps[0]);
             var o, d := Visit(env, target, seen), Discover(env, target, seen);
             && FollowsGraph(env, seen, o, d)
             && (o.result.ok ==> o.result.targetNamespace
                                 == if target in seen then None else OwnStages(env, target).targetNamespace)
             && var own' := WithDependency(own, deps[0]);
                var rest := VisitAll(env, own', deps[1..], d.seen);
                && FollowsGraph(env, d.seen, rest, DiscoverAll(env, own.path, deps[1..], d.seen))
                && (rest.result.ok ==> rest.result == own'.(dependencies := own'.dependencies + Locations(deps[1..])))
    ensures var o := VisitAll(env, own, deps, seen);
            && FollowsGraph(env, seen, o, DiscoverAll(env, own.path, deps, seen))
            && (o.result.ok ==> o.result == own.(dependencies := own.dependencies + Locations(deps)))
  {
    var target := Target(env, own.path, deps[0]);
    var o1, d1 := Visit(env, target, seen), Discover(env, target, seen);
    var d2 := DiscoverAll(env, own.path, deps[1..], d1.seen);
    var e := Edge(own.path, deps[0], target);
    var first := if target in seen then [] else [e];
    assert DiscoverAll(env, own.path, deps, seen) == Discovery(d2.seen, first + d1.edges + d2.edges);
    AllMatchJoin(env, first, d1.edges, d2.edges);
    AllPassSplit(env, seen, d1.seen, d2.seen);
    if o1.result.ok {
      assert target !in seen ==> e in first;
      assert Mismatch(deps[0], o1.result.targetNamespace) <==> !AllMatch(env, first);
      assert own.dependencies + ([deps[0].schemaLocation.value] + Locations(deps[1..]))
          == WithDependency(own, deps[0]).dependencies + Locations(deps[1..]);
    }
  }

  lemma AllMatchJoin(env: Environment, a: seq<Edge>, b: seq<Edge>, c: seq<Edge>)
    ensures AllMatch(env, a + b + c) <==> AllMatch(env, a) && AllMatch(env, b) && AllMatch(env, c)
  {
    assert forall e :: e in a + b + c <==> e in a || e in b || e in c;
  }

  lemma AllPassSplit(env: Environment, a: set<Path>, b: set<Path>, c: set<Path>)
    requires a <= b <= c
    ensures AllPass(env, a, c) <==> AllPass(env, a, b) && AllPass(env, b, c)
  {
  }

  // ---------------------------------------------------------------------
  // The plain search meets exactly the reachable paths
  // ---------------------------------------------------------------------

  lemma ReachableRefl(env: Environment, path: Path)
    ensures Reachable(env, path, path)
  {
    var chain := [path];
    assert IsChain(env, chain);
  }

  lemma ReachableAfterEdge(env: Environment, from: Path, mid: Path, path: Path)
    requires HasEdge(env, from, mid) && Reachable(env, mid, path)
    ensures Reachable(env, from, path)
  {
    var chain: seq<Path> :|
      chain != [] && chain[0] == mid && chain[|chain| - 1] == path && IsChain(env, chain);
    var longer := [from] + chain;
    forall i | 0 <= i < |longer| - 1 ensures HasEdge(env, longer[i], longer[i + 1]) {
      if i > 0 {
        assert HasEdge(env, chain[i - 1], chain[i - 1 + 1]);
      }
    }
    assert IsChain(env, longer);
  }

  lemma {:induction false} DiscoveredIsReachable(env: Environment, path: Path, seen: set<Path>, p: Path)
    requires p in Discover(env, path, seen).seen && p !in seen
    ensures Reachable(env, path, p)
    decreases env.files.Keys - seen, 0, 0
  {
    ReachableRefl(env, path);
    if p != path {
      assert path in env.files.Keys - seen;
      var deps := Dependencies(env, path);
      assert deps == deps[0..];
      AllDiscoveredIsReachable(env, path, 0, seen + {path}, p);
    }
  }

  lemma {:induction false} AllDiscoveredIsReachable(env: Environment, from: Path, k: nat, seen: set<Path>, p: Path)
    requires k <= |Dependencies(env, from)|
    requires p in DiscoverAll(env, from, Dependencies(env, from)[k..], seen).seen && p !in seen
    ensures Reachable(env, from, p)
    decreases env.files.Keys - seen, 1, |Dependencies(env, from)| - k
  {
    var deps := Dependencies(env, from);
    if k < |deps| {
      assert deps[k..][0] == deps[k] && deps[k..][1..] == deps[k + 1..];
      if !Followed(deps[k]) {
        AllDiscoveredIsReachable(env, from, k + 1, seen, p);
      } else {
        var target := Target(env, from, deps[k]);
        var first := Discover(env, target, seen);
        assert env.files.Keys - first.seen <= env.files.Keys - seen;
        if p in first.seen {
          DiscoveredIsReachable(env, target, seen, p);
          assert HasEdge(env, from, target);
          ReachableAfterEdge(env, from, target, p);
        } else {
          AllDiscoveredIsReachable(env, from, k + 1, first.seen, p);
        }
      }
    }
  }

  /** Whatever the search newly meets, it follows all of its edges. */
  ghost predicate ClosedInto(env: Environment, before: set<Path>, after: set<Path>) {
    forall p, q :: p in after && p !in before && HasEdge(env, p, q) ==> q in after
  }

  lemma {:induction false} DiscoveryIsClosed(env: Environment, path: Path, seen: set<Path>)
    ensures ClosedInto(env, seen, Discover(env, path, seen).seen)
    decreases env.files.Keys - seen, 0, 0
  {
    if path !in seen && path in env.files {
      assert path in env.files.Keys - seen;
      var deps, d := Dependencies(env, path), Discover(env, path, seen);
      assert deps == deps[0..];
      AllDiscoveryIsClosed(env, path, 0, seen + {path});
      forall p, q | p in d.seen && p !in seen && HasEdge(env, p, q) ensures q in d.seen {
        if p == path {
          var i :| 0 <= i < |deps| && Followed(deps[i]) && Target(env, path, deps[i]) == q;
        }
      }
    }
  }

  lemma {:induction false} AllDiscoveryIsClosed(env: Environment, from: Path, k: nat, seen: set<Path>)
    requires k <= |Dependencies(env, from)|
    ensures var d := DiscoverAll(env, from, Dependencies(env, from)[k..], seen);
            && ClosedInto(env, seen, d.seen)
            && forall i :: k <= i < |Dependencies(env, from)| && Followed(Dependencies(env, from)[i])
                 ==> Target(env, from, Dependencies(env, from)[i]) in d.seen
    decreases env.files.Keys - seen, 1, |Dependencies(env, from)| - k
  {
    var deps := Dependencies(env, from);
    if k < |deps| {
      assert deps[k..][0] == deps[k] && deps[k..][1..] == deps[k + 1..];
      if !Followed(deps[k]) {
        AllDiscoveryIsClosed(env, from, k + 1, seen);
      } else {
        var target := Target(env, from, deps[k]);
        var first := Discover(env, target, seen);
        DiscoveryIsClosed(env, target, seen);
        assert env.files.Keys - first.seen <= env.files.Keys - seen;
        AllDiscoveryIsClosed(env, from, k + 1, first.seen);
      }
    }
  }

  lemma {:induction false} ClosedContainsChain(env: Environment, closed: set<Path>, chain: seq<Path>)
    requires ClosedInto(env, {}, closed)
    requires chain != [] && chain[0] in closed && IsChain(env, chain)
    ensures chain[|chain| - 1] in closed
  {
    for i := 0 to |chain| - 1
      invariant chain[i] in closed
    {
      assert HasEdge(env, chain[i], chain[i + 1]);
    }
  }

  /** From a fresh start the plain search meets exactly the reachable paths. */
  lemma DiscoveryIsReachability(env: Environment, root: Path, p: Path)
    ensures p in Discover(env, root, {}).seen <==> Reachable(env, root, p)
  {
    var d := Discover(env, root, {});
    if p in d.seen {
      DiscoveredIsReachable(env, root, {}, p);
    }
    if Reachable(env, root, p) {
      var chain: seq<Path> :|
        chain != [] && chain[0] == root && chain[|chain| - 1] == p && IsChain(env, chain);
      DiscoveryIsClosed(env, root, {});
      ClosedContainsChain(env, d.seen, chain);
    }
  }

  // ---------------------------------------------------------------------
  // The verdict
  // ---------------------------------------------------------------------

  /** Whether a fresh verification of `root` accepts it. */
  predicate Verified(env: Environment, root: Path) {
    Visit(env, root, {}).result.ok
  }

  /**
   A schema is accepted exactly when every file reachable from it passes
   stages 1 to 6 and every first-visit edge declares no contradicting namespace.
   */
  lemma VerdictIsReachability(env: Environment, root: Path)
    ensures Verified(env, root)
       <==> (forall p :: Reachable(env, root, p) ==> Passes(env, p))
            && AllMatch(env, Discover(env, root, {}).edges)
  {
    VisitFollowsDiscovery(env, root, {});
    var d := Discover(env, root, {});
    if AllPass(env, {}, d.seen) {
      forall p | Reachable(env, root, p) ensures Passes(env, p) {
        DiscoveryIsReachability(env, root, p);
      }
    }
    if forall p :: Reachable(env, root, p) ==> Passes(env, p) {
      forall p | p in d.seen ensures Passes(env, p) {
        DiscoveryIsReachability(env, root, p);
      }
    }
  }

  /** An edge of the import graph out of a reachable file. */
  ghost predicate ReachableEdge(env: Environment, root: Path, e: Edge) {
    Reachable(env, root, e.from) && e.dep in Dependencies(env, e.from)
    && Followed(e.dep) && e.target == Target(env, e.from, e.dep)
  }

  ghost predicate AllReachable(env: Environment, root: Path, edges: seq<Edge>) {
    forall e :: e in edges ==> ReachableEdge(env, root, e)
  }

  lemma {:induction false} DiscoveredEdgesAreReachable(env: Environment, root: Path, path: Path, seen: set<Path>)
    requires Reachable(env, root, path)
    ensures AllReachable(env, root, Discover(env, path, seen).edges)
    decreases env.files.Keys - seen, 0, 0
  {
    if path !in seen && path in env.files {
      assert path in env.files.Keys - seen;
      assert Dependencies(env, path) == Dependencies(env, path)[0..];
      AllDiscoveredEdgesAreReachable(env, root, path, 0, seen + {path});
    }
  }

  lemma ReachableBeforeEdge(env: Environment, from: Path, mid: Path, path: Path)
    requires Reachable(env, from, mid) && HasEdge(env, mid, path)
    ensures Reachable(env, from, path)
  {
    var chain: seq<Path> :|
      chain != [] && chain[0] == from && chain[|chain| - 1] == mid && IsChain(env, chain);
    var longer := chain + [path];
    forall i | 0 <= i < |longer| - 1 ensures HasEdge(env, longer[i], longer[i + 1]) {
      if i < |chain| - 1 {
        assert HasEdge(env, chain[i], chain[i + 1]);
      }
    }
    assert IsChain(env, longer);
  }

  lemma {:induction false} AllDiscoveredEdgesAreReachable(
      env: Environment, root: Path, from: Path, k: nat, seen: set<Path>)
    requires Reachable(env, root, from) && k <= |Dependencies(env, from)|
    ensures AllReachable(env, root, DiscoverAll(env, from, Dependencies(env, from)[k..], seen).edges)
    decreases env.files.Keys - seen, 1, |Dependencies(env, from)| - k
  {
    var deps := Dependencies(env, from);
    if k < |deps| {
      assert deps[k..][0] == deps[k] && deps[k..][1..] == deps[k + 1..];
      if !Followed(deps[k]) {
        AllDiscoveredEdgesAreReachable(env, root, from, k + 1, seen);
      } else {
        var target := Target(env, from, deps[k]);
        assert HasEdge(env, from, target);
        ReachableBeforeEdge(env, root, from, target);
        var first := Discover(env, target, seen);
        DiscoveredEdgesAreReachable(env, root, target, seen);
        assert env.files.Keys - first.seen <= env.files.Keys - seen;
        AllDiscoveredEdgesAreReachable(env, root, from, k + 1, first.seen);
      }
    }
  }

  /**
   When no reachable edge contradicts its target, in particular when none
   declares a namespace, the verdict is plain reachability: the order of the
   imports and the cycles among them do not matter.
   */
  lemma ConsistentVerdict(env: Environment, root: Path)
    requires forall e :: ReachableEdge(env, root, e) ==> EdgeMatches(env, e)
    ensures Verified(env, root) <==> forall p :: Reachable(env, root, p) ==> Passes(env, p)
  {
    ReachableRefl(env, root);
    DiscoveredEdgesAreReachable(env, root, root, {});
    VerdictIsReachability(env, root);
  }

  /** A refusal has a cause: a reachable file that fails, or a reachable edge that contradicts its target. */
  lemma RefusalHasACause(env: Environment, root: Path)
    requires !Verified(env, root)
    ensures (exists p :: Reachable(env, root, p) && !Passes(env, p))
         || (exists e :: ReachableEdge(env, root, e) && !EdgeMatches(env, e))
  {
    if forall e :: ReachableEdge(env, root, e) ==> EdgeMatches(env, e) {
      ConsistentVerdict(env, root);
    }
  }

  /** An edge to a file that the search had met before it came to this edge. */
  ghost predicate Revisits(env: Environment, root: Path, e: Edge) {
    ReachableEdge(env, root, e) && e !in Discover(env, root, {}).edges
  }

  /**
   The namespace check does not cover every edge.  A schema is accepted although
   some reachable edge contradicts its target exactly when every reachable file
   passes, every first-visit edge matches, and an edge that contradicts its
   target leads to a file met before.
   */
  lemma ContradictionIsHiddenExactlyWhen(env: Environment, root: Path)
    ensures Verified(env, root) && (exists e :: ReachableEdge(env, root, e) && !EdgeMatches(env, e))
       <==> (forall p :: Reachable(env, root, p) ==> Passes(env, p))
            && AllMatch(env, Discover(env, root, {}).edges)
            && exists e :: Revisits(env, root, e) && !EdgeMatches(env, e)
  {
    VerdictIsReachability(env, root);
    if Verified(env, root) {
      if e :| ReachableEdge(env, root, e) && !EdgeMatches(env, e) {
        assert Revisits(env, root, e);
      }
    }
  }

  /** A second import of the same file is accepted, whatever namespace it declares. */
  lemma SecondImportIsAccepted(env: Environment, a: Path, b: Path, location: string, declared: Option<string>)
    requires Passes(env, a) && Passes(env, b) && a != b
    requires location != "" && (env.resolve)(a, location) == b
    requires Dependencies(env, b) == []
    requires Dependencies(env, a) == [Dependency(Some(location), None), Dependency(Some(location), declared)]
    ensures Verified(env, a)
  {
    var deps, own := Dependencies(env, a), OwnStages(env, a);
    assert deps[1..][1..] == [];
    assert Visit(env, b, {a}) == Outcome(OwnStages(env, b), {a} + {b});
    var own' := WithDependency(own, deps[0]);
    assert VisitAll(env, own', deps[1..], {a, b}).result.ok;
    assert {} + {a} == {a} && {a} + {b} == {a, b};
  }

  /** In an accepted schema a contradicted edge always leads to a file met before. */
  lemma IsContradicted(env: Environment, root: Path, e: Edge)
    requires Verified(env, root) && e.from == root && e.dep in Dependencies(env, root)
    requires Followed(e.dep) && e.target == Target(env, root, e.dep) && !EdgeMatches(env, e)
    ensures Revisits(env, root, e)
  {
    hide Verified, EdgeMatches, Target;
    ReachableRefl(env, root);
    VerdictIsReachability(env, root);
  }

  /** Such an edge: a second import of the same file, under a namespace the file does not have. */
  lemma RevisitedEdgeIsNotChecked(env: Environment, a: Path, b: Path, location: string, declared: string)
    requires Passes(env, a) && Passes(env, b) && a != b
    requires location != "" && (env.resolve)(a, location) == b
    requires Mismatch(Dependency(Some(location), Some(declared)), OwnStages(env, b).targetNamespace)
    requires Dependencies(env, b) == []
    requires Dependencies(env, a) == [Dependency(Some(location), None), Dependency(Some(location), Some(declared))]
    ensures Verified(env, a)
    ensures var e := Edge(a, Dependency(Some(location), Some(declared)), b);
            Revisits(env, a, e) && !EdgeMatches(env, e)
  {
    hide Verified, Revisits, OwnStages, Mismatch;
    SecondImportIsAccepted(env, a, b, location, Some(declared));
    IsContradicted(env, a, Edge(a, Dependency(Some(location), Some(declared)), b));
  }

  // ---------------------------------------------------------------------
  // The pipeline
  // ---------------------------------------------------------------------

  /** The `_seen_paths` set, shared by reference through the recursion. */
  class SeenPaths {
    var paths: set<Path>

    constructor ()
      ensures paths == {}
    {
      paths := {};
    }
  }

  method VerifySchema(env: Environment, path: Path, seen: SeenPaths) returns (result: Verification)
    modifies seen
    ensures Outcome(result, seen.paths) == Visit(env, path, old(seen.paths))
    decreases env.files.Keys - seen.paths
  {
    if path in seen.paths {
      return AlreadySeen(path);
    }
    result := OwnStages(env, path);
    if !IsSchemaFile(env, path) {
      return;
    }
    ghost var before := seen.paths;
    assert path in env.files.Keys - before;
    seen.paths := seen.paths + {path};
    if !result.ok {
      return;
    }
    var deps := Dependencies(env, path);
    assert deps[0..] == deps;
    for i := 0 to |deps|
      invariant result.ok && result.path == path
      invariant before + {path} <= seen.paths
      invariant VisitAll(env, result, deps[i..], seen.paths) == Visit(env, path, before)
    {
      assert deps[i..][0] == deps[i] && deps[i..][1..] == deps[i + 1..];
      if !Followed(deps[i]) {
        continue;
      }
      var dependency := VerifySchema(env, Target(env, path, deps[i]), seen);
      if !dependency.ok || Mismatch(deps[i], dependency.targetNamespace) {
        return result.(ok := false, stage := Some(7), dependencies := []);
      }
      result := WithDependency(result, deps[i]);
    }
  }
}
