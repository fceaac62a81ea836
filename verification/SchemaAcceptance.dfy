/**
 What the schema pipeline accepts, in the fields of the files and of the policy
 alone (services/messaging/src/ubunturemit_messaging/verify_schema.py:40-223):
 the stages of one file, the graph of the imports, the verdict, and the stage
 that refuses.
 */
module SchemaAcceptance {
  import opened Wrappers
  import opened Text
  import opened SchemaVerifier

  // ---------------------------------------------------------------------
  // The namespace
  // ---------------------------------------------------------------------

  predicate Letters(s: string, n: nat) {
    |s| == n && forall i :: 0 <= i < n ==> 'a' <= s[i] <= 'z'
  }

  predicate Figures(s: string, n: nat) {
    |s| == n && forall i :: 0 <= i < n ==> '0' <= s[i] <= '9'
  }

  /** The URN of a version of a message; the identifier is business area, message type and variant. */
  predicate IsUrn(ns: string, area: string, kind: string, variant: string, version: string) {
    && Letters(area, 4) && Figures(kind, 3) && Figures(variant, 3) && Figures(version, 2)
    && ns == "urn:iso:std:iso:20022:tech:xsd:" + area + "." + kind + "." + variant + "." + version
  }

  ghost predicate NamesMessage(ns: string, identifier: string, version: string) {
    exists area, kind, variant ::
      IsUrn(ns, area, kind, variant, version) && identifier == area + "." + kind + "." + variant
  }

  lemma UrnExactlyWhen(ns: string, identifier: string, version: string)
    ensures ParseUrn(ns) == Some(Urn(identifier, version)) <==> NamesMessage(ns, identifier, version)
  {
    if ParseUrn(ns) == Some(Urn(identifier, version)) {
      var id := ns[|URN_PREFIX|..];
      assert identifier == id[..4] + "." + id[5..8] + "." + id[9..12];
      assert ns == URN_PREFIX + id && id == identifier + "." + version;
      assert IsUrn(ns, id[..4], id[5..8], id[9..12], version);
    }
    if area, kind, variant :|
         IsUrn(ns, area, kind, variant, version) && identifier == area + "." + kind + "." + variant {
      UrnIsParsed(ns, area, kind, variant, version);
    }
  }

  lemma UrnIsParsed(ns: string, area: string, kind: string, variant: string, version: string)
    requires IsUrn(ns, area, kind, variant, version)
    ensures ParseUrn(ns) == Some(Urn(area + "." + kind + "." + variant, version))
  {
    var id := area + "." + kind + "." + variant + "." + version;
    assert ns == URN_PREFIX + id && ns[..|URN_PREFIX|] == URN_PREFIX && ns[|URN_PREFIX|..] == id;
    assert id[..4] == area && id[5..8] == kind && id[9..12] == variant && id[13..] == version;
    assert id[..12] == area + "." + kind + "." + variant;
  }

  // ---------------------------------------------------------------------
  // One file
  // ---------------------------------------------------------------------

  predicate IsXsd(env: Environment, path: Path) {
    path in env.files && env.files[path].isXsd
  }

  predicate HasSchemaRoot(env: Environment, path: Path) {
    IsXsd(env, path) && env.files[path].document.Document? && env.files[path].document.rootIsSchema
  }

  /** The file declares this target namespace, spaces around it aside; a blank one counts as none. */
  ghost predicate HasNamespace(env: Environment, path: Path, ns: string) {
    && HasSchemaRoot(env, path)
    && env.files[path].document.targetNamespace.Some?
    && IsStripped(env.files[path].document.targetNamespace.value, ns) && ns != ""
  }

  ghost predicate IsMessage(env: Environment, path: Path, identifier: string, version: string) {
    exists ns :: HasNamespace(env, path, ns) && NamesMessage(ns, identifier, version)
  }

  /** The policy authorizes exactly this version, and the digest it gives, if any, is the file's up to case. */
  predicate IsAuthorized(env: Environment, path: Path, identifier: string, version: string)
    requires path in env.files
  {
    && identifier in env.policy
    && env.policy[identifier].authorizedVersion == Some(version)
    && (env.policy[identifier].sha256.Some? ==>
          SameUpToCase(env.files[path].sha256, env.policy[identifier].sha256.value))
  }

  /** What stages 1 to 6 ask of a file. */
  ghost predicate IsSound(env: Environment, path: Path) {
    exists identifier, version ::
      IsMessage(env, path, identifier, version) && IsAuthorized(env, path, identifier, version)
  }

  /** The first stage a file fails. */
  ghost predicate FailsAt(env: Environment, path: Path, stage: nat) {
    match stage
    case 1 => !IsXsd(env, path)
    case 2 => IsXsd(env, path) && !HasSchemaRoot(env, path)
    case 3 => HasSchemaRoot(env, path) && forall ns :: !HasNamespace(env, path, ns)
    case 4 =>
      (exists ns :: HasNamespace(env, path, ns))
      && forall identifier, version :: !IsMessage(env, path, identifier, version)
    case 6 =>
      exists identifier, version ::
        IsMessage(env, path, identifier, version) && !IsAuthorized(env, path, identifier, version)
    case _ => false
  }

  /** What a result says about the file: its namespace and its message, if it has them. */
  ghost predicate Describes(env: Environment, path: Path, v: Verification) {
    && v.path == path
    && (forall ns :: v.targetNamespace == Some(ns) <==> HasNamespace(env, path, ns))
    && (forall identifier, version ::
          v.messageIdentifier == Some(identifier) && v.versionSuffix == Some(version)
          <==> IsMessage(env, path, identifier, version))
  }

  lemma NamespaceIs(env: Environment, path: Path, ns: string)
    requires HasSchemaRoot(env, path) && env.files[path].document.targetNamespace.Some?
    ensures HasNamespace(env, path, ns)
       <==> ns == Strip(env.files[path].document.targetNamespace.value) && ns != ""
  {
    StripIs(env.files[path].document.targetNamespace.value, ns);
  }

  /** With a namespace, the message is the one it names. */
  lemma MessageIs(env: Environment, path: Path, ns: string, identifier: string, version: string)
    requires HasNamespace(env, path, ns)
    ensures IsMessage(env, path, identifier, version) <==> ParseUrn(ns) == Some(Urn(identifier, version))
  {
    hide ParseUrn, NamesMessage, IsStripped, Strip;
    NamespaceIs(env, path, ns);
    UrnExactlyWhen(ns, identifier, version);
    if ns' :| HasNamespace(env, path, ns') && NamesMessage(ns', identifier, version) {
      NamespaceIs(env, path, ns');
    }
  }

  lemma DigestIs(file: SchemaFile, policy: MessagePolicy)
    ensures ChecksumMatches(file, policy)
       <==> policy.sha256.Some? ==> SameUpToCase(file.sha256, policy.sha256.value)
  {
    if policy.sha256.Some? {
      LowerIgnoresCase(file.sha256, policy.sha256.value);
    }
  }

  /** The stages of one file: it passes exactly when it is sound, and otherwise the first stage it fails refuses it. */
  lemma StagesExactlyWhen(env: Environment, path: Path)
    ensures var v := OwnStages(env, path);
            && Describes(env, path, v)
            && (v.ok <==> IsSound(env, path)) && (v.ok <==> v.stage.None?) && v.stage != Some(7)
            && (v.stage.Some? ==> FailsAt(env, path, v.stage.value))
  {
    hide ParseUrn, IsStripped, Strip, Lower, SameUpToCase, NamesMessage, IsUrn;
    var v := OwnStages(env, path);
    if HasSchemaRoot(env, path) && env.files[path].document.targetNamespace.Some? {
      var file := env.files[path];
      var ns := Strip(file.document.targetNamespace.value);
      forall ns' ensures HasNamespace(env, path, ns') <==> ns' == ns && ns != "" {
        NamespaceIs(env, path, ns');
      }
      if ns != "" {
        assert HasNamespace(env, path, ns);
        NamedFile(env, path, ns, v);
      }
    }
  }

  lemma NamedFile(env: Environment, path: Path, ns: string, v: Verification)
    requires HasNamespace(env, path, ns) && ns == Strip(env.files[path].document.targetNamespace.value)
    requires forall ns' :: HasNamespace(env, path, ns') ==> ns' == ns
    requires v == OwnStages(env, path)
    ensures Describes(env, path, v)
    ensures (v.ok <==> IsSound(env, path)) && (v.ok <==> v.stage.None?)
    ensures v.stage.Some? ==> FailsAt(env, path, v.stage.value)
  {
    hide ParseUrn, IsStripped, Strip, Lower, SameUpToCase, NamesMessage, IsUrn, HasNamespace, IsMessage;
    assert HasSchemaRoot(env, path) && ns != "" && env.files[path].document.targetNamespace.Some? by {
      HasRoot(env, path, ns);
    }
    forall identifier, version
      ensures IsMessage(env, path, identifier, version) <==> ParseUrn(ns) == Some(Urn(identifier, version))
    {
      MessageIs(env, path, ns, identifier, version);
    }
    if ParseUrn(ns).Some? {
      var urn := ParseUrn(ns).value;
      assert IsMessage(env, path, urn.messageIdentifier, urn.versionSuffix);
      if urn.messageIdentifier in env.policy {
        DigestIs(env.files[path], env.policy[urn.messageIdentifier]);
      }
    }
  }

  lemma HasRoot(env: Environment, path: Path, ns: string)
    requires HasNamespace(env, path, ns)
    ensures HasSchemaRoot(env, path) && ns != "" && env.files[path].document.targetNamespace.Some?
  {
  }

  // ---------------------------------------------------------------------
  // The graph
  // ---------------------------------------------------------------------

  /** The file has this import or redefinition, and it says where. */
  predicate Imports(env: Environment, from: Path, dep: Dependency) {
    && from in env.files && env.files[from].document.Document?
    && (dep in env.files[from].document.imports || dep in env.files[from].document.redefines)
    && dep.schemaLocation.Some? && dep.schemaLocation.value != ""
  }

  ghost predicate Leads(env: Environment, from: Path, target: Path) {
    exists dep :: Imports(env, from, dep) && (env.resolve)(from, dep.schemaLocation.value) == target
  }

  /** One comes from the root to the path along imports and redefinitions. */
  ghost predicate Reaches(env: Environment, root: Path, path: Path) {
    exists chain: seq<Path> ::
      && chain != [] && chain[0] == root && chain[|chain| - 1] == path
      && forall i :: 0 <= i < |chain| - 1 ==> Leads(env, chain[i], chain[i + 1])
  }

  lemma LeadsIsAnEdge(env: Environment, from: Path, target: Path)
    ensures Leads(env, from, target) <==> HasEdge(env, from, target)
  {
    var deps := Dependencies(env, from);
    if dep :| Imports(env, from, dep) && (env.resolve)(from, dep.schemaLocation.value) == target {
      assert dep in deps;
      var i :| 0 <= i < |deps| && deps[i] == dep;
      assert Followed(deps[i]) && Target(env, from, deps[i]) == target;
    }
    if i :| 0 <= i < |deps| && Followed(deps[i]) && Target(env, from, deps[i]) == target {
      assert deps[i] in deps && Imports(env, from, deps[i]);
    }
  }

  lemma ReachesIsReachable(env: Environment, root: Path, path: Path)
    ensures Reaches(env, root, path) <==> Reachable(env, root, path)
  {
    hide Leads, HasEdge;
    forall a, b ensures Leads(env, a, b) <==> HasEdge(env, a, b) {
      LeadsIsAnEdge(env, a, b);
    }
    if chain: seq<Path> :|
         && chain != [] && chain[0] == root && chain[|chain| - 1] == path
         && forall i :: 0 <= i < |chain| - 1 ==> Leads(env, chain[i], chain[i + 1]) {
      assert IsChain(env, chain);
    }
    if chain: seq<Path> :|
         chain != [] && chain[0] == root && chain[|chain| - 1] == path && IsChain(env, chain) {
      assert forall i :: 0 <= i < |chain| - 1 ==> Leads(env, chain[i], chain[i + 1]);
    }
  }

  /** The dependency declares another namespace than its target has. */
  ghost predicate Contradicts(env: Environment, e: Edge) {
    && e.dep.namespace.Some? && e.dep.namespace.value != ""
    && exists ns :: HasNamespace(env, e.target, ns) && ns != e.dep.namespace.value
  }

  lemma ContradictionIsAMismatch(env: Environment, e: Edge)
    ensures Contradicts(env, e) <==> !EdgeMatches(env, e)
  {
    hide OwnStages, HasNamespace, IsMessage;
    StagesExactlyWhen(env, e.target);
    var found := OwnStages(env, e.target).targetNamespace;
    if found.Some? {
      assert HasNamespace(env, e.target, found.value);
      assert found.value != "" by {
        HasRoot(env, e.target, found.value);
      }
    }
  }

  // ---------------------------------------------------------------------
  // The edges along which a file is met first
  // ---------------------------------------------------------------------

  function FirstVisits(env: Environment, root: Path): seq<Edge> {
    Discover(env, root, {}).edges
  }

  predicate HasEdgeTo(edges: seq<Edge>, p: Path) {
    exists e :: e in edges && e.target == p
  }

  lemma EdgeToJoined(a: seq<Edge>, b: seq<Edge>, p: Path)
    ensures HasEdgeTo(a + b, p) <==> HasEdgeTo(a, p) || HasEdgeTo(b, p)
  {
    assert forall e :: e in a + b <==> e in a || e in b;
  }

  lemma {:induction false} NewPathsHaveAnEdge(env: Environment, path: Path, seen: set<Path>, p: Path)
    ensures var d := Discover(env, path, seen);
            HasEdgeTo(d.edges, p) <==> p in d.seen && p !in seen && p != path
    decreases env.files.Keys - seen, 0, 0
  {
    hide HasEdgeTo;
    if path in seen || path !in env.files {
      assert !HasEdgeTo([], p) by {
        NoEdges(p);
      }
    } else {
      assert path in env.files.Keys - seen;
      AllNewPathsHaveAnEdge(env, path, Dependencies(env, path), seen + {path}, p);
    }
  }

  lemma NoEdges(p: Path)
    ensures !HasEdgeTo([], p)
  {
  }

  lemma OneEdge(e: Edge, p: Path)
    ensures HasEdgeTo([e], p) <==> e.target == p
  {
    assert e in [e];
  }

  lemma {:induction false} AllNewPathsHaveAnEdge(
      env: Environment, from: Path, deps: seq<Dependency>, seen: set<Path>, p: Path)
    ensures var d := DiscoverAll(env, from, deps, seen);
            HasEdgeTo(d.edges, p) <==> p in d.seen && p !in seen
    decreases env.files.Keys - seen, 1, |deps|
  {
    hide HasEdgeTo;
    NoEdges(p);
    if deps != [] {
      if !Followed(deps[0]) {
        AllNewPathsHaveAnEdge(env, from, deps[1..], seen, p);
      } else {
        var target := Target(env, from, deps[0]);
        var first := Discover(env, target, seen);
        assert env.files.Keys - first.seen <= env.files.Keys - seen;
        NewPathsHaveAnEdge(env, target, seen, p);
        AllNewPathsHaveAnEdge(env, from, deps[1..], first.seen, p);
        var rest := DiscoverAll(env, from, deps[1..], first.seen);
        var own := if target in seen then [] else [Edge(from, deps[0], target)];
        OneEdge(Edge(from, deps[0], target), p);
        EdgeToJoined(own, first.edges, p);
        EdgeToJoined(own + first.edges, rest.edges, p);
      }
    }
  }

  /** Every reachable file but the root is met first along one of these edges, and they lead nowhere else. */
  lemma FirstVisitsCoverTheFiles(env: Environment, root: Path, p: Path)
    ensures HasEdgeTo(FirstVisits(env, root), p) <==> Reaches(env, root, p) && p != root
    ensures forall e :: e in FirstVisits(env, root) ==>
              Reaches(env, root, e.from) && Imports(env, e.from, e.dep)
              && e.target == (env.resolve)(e.from, e.dep.schemaLocation.value)
  {
    hide Discover, HasEdgeTo, Reachable, Reaches;
    NewPathsHaveAnEdge(env, root, {}, p);
    DiscoveryIsReachability(env, root, p);
    ReachesIsReachable(env, root, p);
    ReachableRefl(env, root);
    DiscoveredEdgesAreReachable(env, root, root, {});
    forall e | e in FirstVisits(env, root)
      ensures Reaches(env, root, e.from) && Imports(env, e.from, e.dep)
              && e.target == (env.resolve)(e.from, e.dep.schemaLocation.value)
    {
      assert ReachableEdge(env, root, e);
      ReachesIsReachable(env, root, e.from);
      assert Imports(env, e.from, e.dep);
    }
  }

  // ---------------------------------------------------------------------
  // The verdict
  // ---------------------------------------------------------------------

  /**
   A schema is accepted exactly when every file one comes to from it is sound,
   and no dependency along which a file is met first contradicts that file.
   */
  ghost predicate IsAccepted(env: Environment, root: Path) {
    && (forall p :: Reaches(env, root, p) ==> IsSound(env, p))
    && (forall e :: e in FirstVisits(env, root) ==> !Contradicts(env, e))
  }

  lemma AcceptedExactlyWhen(env: Environment, root: Path)
    ensures Verified(env, root) <==> IsAccepted(env, root)
  {
    hide Reaches, Reachable, Passes, IsSound, Contradicts, EdgeMatches, Discover, Verified;
    VerdictIsReachability(env, root);
    forall p ensures (Reaches(env, root, p) <==> Reachable(env, root, p)) && (Passes(env, p) <==> IsSound(env, p)) {
      ReachesIsReachable(env, root, p);
      PassesIsSound(env, p);
    }
    forall e ensures Contradicts(env, e) <==> !EdgeMatches(env, e) {
      ContradictionIsAMismatch(env, e);
    }
  }

  lemma PassesIsSound(env: Environment, p: Path)
    ensures Passes(env, p) <==> IsSound(env, p)
  {
    hide OwnStages, IsSound;
    StagesExactlyWhen(env, p);
  }

  /**
   Whatever the order of the imports: an accepted schema has, for every file
   one comes to, a dependency that does not contradict it; and a schema of
   sound files without any contradicting dependency is accepted.
   */
  lemma AcceptedFilesAreImportedRightly(env: Environment, root: Path, p: Path)
    requires Verified(env, root) && Reaches(env, root, p) && p != root
    ensures exists e: Edge ::
      && Reaches(env, root, e.from) && Imports(env, e.from, e.dep)
      && (env.resolve)(e.from, e.dep.schemaLocation.value) == p == e.target && !Contradicts(env, e)
  {
    hide Reaches, Contradicts, FirstVisits, Verified, IsSound;
    AcceptedExactlyWhen(env, root);
    FirstVisitsCoverTheFiles(env, root, p);
    var e :| e in FirstVisits(env, root) && e.target == p;
  }

  /** The file's own result comes through unless a dependency is at fault. */
  lemma {:induction false} RestKeepsTheResult(
      env: Environment, own: Verification, deps: seq<Dependency>, seen: set<Path>)
    requires own.ok && own.stage.None?
    ensures var v := VisitAll(env, own, deps, seen).result;
            && v.path == own.path && v.targetNamespace == own.targetNamespace
            && v.messageIdentifier == own.messageIdentifier && v.versionSuffix == own.versionSuffix
            && (if v.ok then v.stage.None? else v.stage == Some(7) && v.dependencies == [])
    decreases |deps|
  {
    if deps != [] {
      if !Followed(deps[0]) {
        RestKeepsTheResult(env, own, deps[1..], seen);
      } else {
        var first := Visit(env, Target(env, own.path, deps[0]), seen);
        RestKeepsTheResult(env, WithDependency(own, deps[0]), deps[1..], first.seen);
      }
    }
  }

  /** The locations a file names, in order; the empty ones are not followed. */
  function Named(deps: seq<Dependency>): seq<string> {
    if deps == [] then []
    else
      var last := deps[|deps| - 1].schemaLocation;
      Named(deps[..|deps| - 1]) + if last.Some? && last.value != "" then [last.value] else []
  }

  lemma {:induction false} NamedAreLocations(deps: seq<Dependency>)
    ensures Named(deps) == Locations(deps)
  {
    if |deps| == 1 {
      assert deps[1..] == [] && deps[..0] == [];
    } else if |deps| > 1 {
      var middle := deps[1..][..|deps| - 2];
      assert deps[..|deps| - 1][1..] == middle;
      NamedAreLocations(deps[1..]);
      NamedAreLocations(deps[..|deps| - 1]);
      NamedAreLocations(middle);
      assert deps[1..][|deps| - 2] == deps[|deps| - 1] && deps[..|deps| - 1][0] == deps[0];
    }
  }

  /** The locations a file names in its imports, and then those in its redefinitions. */
  function NamedBy(env: Environment, path: Path): seq<string> {
    if path in env.files && env.files[path].document.Document?
    then Named(env.files[path].document.imports) + Named(env.files[path].document.redefines)
    else []
  }

  lemma {:induction false} NamedJoin(a: seq<Dependency>, b: seq<Dependency>)
    ensures Named(a + b) == Named(a) + Named(b)
    decreases |b|
  {
    if b == [] {
      assert a + b == a;
    } else {
      NamedJoin(a, b[..|b| - 1]);
      assert (a + b)[..|a + b| - 1] == a + b[..|b| - 1];
    }
  }

  lemma NamedByAreLocations(env: Environment, path: Path)
    ensures NamedBy(env, path) == Locations(Dependencies(env, path))
  {
    NamedAreLocations(Dependencies(env, path));
    if path in env.files && env.files[path].document.Document? {
      NamedJoin(env.files[path].document.imports, env.files[path].document.redefines);
    }
  }

  /**
   A call from outside: the set of seen paths starts empty.  It tells the first
   stage the file itself fails, stage 7 if a dependency is at fault, and for an
   accepted file the locations it followed.
   */
  method VerifyFresh(env: Environment, path: Path) returns (result: Verification)
    ensures result.ok <==> IsAccepted(env, path)
    ensures result.stage.None? <==> result.ok
    ensures result.stage == Some(7) <==> IsSound(env, path) && !result.ok
    ensures result.stage.Some? && result.stage != Some(7) ==> FailsAt(env, path, result.stage.value)
    ensures Describes(env, path, result)
    ensures result.dependencies == if result.ok then NamedBy(env, path) else []
  {
    hide IsAccepted, IsSound, FailsAt, OwnStages, Discover, IsMessage, HasNamespace, NamedBy;
    var seen := new SeenPaths();
    result := VerifySchema(env, path, seen);
    AcceptedExactlyWhen(env, path);
    VisitFollowsDiscovery(env, path, {});
    StagesExactlyWhen(env, path);
    NamedByAreLocations(env, path);
    if OwnStages(env, path).ok {
      RestKeepsTheResult(env, OwnStages(env, path), Dependencies(env, path), {} + {path});
    }
  }
}
