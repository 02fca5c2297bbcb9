/** Snapshot manifests and simulation receipts: what a sealed plan's declared paths become, where they
  * are looked up, and what the chain of seals ties together. The file system is a parameter.
  */
module Snapshot {
  import opened Sealing
  import EP = ExecutionPlan
  import PN = PathNormalize
  import P = Policy
  import opened ForbiddenScan
  import opened Wrappers

  datatype Access = Read | Write

  datatype Target = Target(access: Access, surface: P.Surface)

  datatype Entry = Missing | File(size: nat) | Directory | Unsupported

  type Path = seq<string>

  type FileSystem = Path -> Entry

  datatype Observation = Observation(targetIndex: nat, target: Target, entry: Entry)

  datatype ManifestBody = ManifestBody(
    createdAt: string, planHash: string, proposalHash: string, metadataOnly: bool, targets: seq<Target>,
    observations: seq<Observation>)

  type Manifest = Sealed<ManifestBody>

  // ------------------------------------------------------------------ targets and where they are looked up

  function TargetsOf(access: Access, surfaces: seq<P.Surface>): seq<Target> {
    seq(|surfaces|, i requires 0 <= i < |surfaces| => Target(access, surfaces[i]))
  }

  /** `_collect_targets`: the reads and then the writes, each in the order of the plan. */
  method CollectTargets(plan: EP.Plan) returns (targets: seq<Target>)
    ensures targets == TargetsOf(Read, plan.body.declaredReads) + TargetsOf(Write, plan.body.declaredWrites)
  {
    targets := [];
    for i := 0 to |plan.body.declaredReads|
      invariant targets == TargetsOf(Read, plan.body.declaredReads[..i])
    {
      targets := targets + [Target(Read, plan.body.declaredReads[i])];
    }
    assert plan.body.declaredReads[..|plan.body.declaredReads|] == plan.body.declaredReads;
    for i := 0 to |plan.body.declaredWrites|
      invariant targets == TargetsOf(Read, plan.body.declaredReads) + TargetsOf(Write, plan.body.declaredWrites[..i])
    {
      targets := targets + [Target(Write, plan.body.declaredWrites[i])];
    }
    assert plan.body.declaredWrites[..|plan.body.declaredWrites|] == plan.body.declaredWrites;
  }

  /** `_resolved_target_path`, below the state root. */
  method ResolvedPath(t: Target) returns (path: Path)
    ensures path == [t.surface.rootId] + PN.PathParts(t.surface.relativePath)
  {
    path := [t.surface.rootId];
    var parts := PN.PathParts(t.surface.relativePath);
    for i := 0 to |parts|
      invariant path == [t.surface.rootId] + parts[..i]
    {
      path := path + [parts[i]];
    }
    assert parts[..|parts|] == parts;
  }

  /** A normalised path is looked up inside its root: each step goes down by one plain name. */
  lemma LookedUpInsideRoot(t: Target, p: string)
    requires PN.Normalized(p) == PN.Ok(t.surface.relativePath)
    ensures PN.AllPlain(PN.PathParts(t.surface.relativePath))
    ensures PN.PathParts(t.surface.relativePath) == PN.Kept(PN.Segments(p))
  {
    PN.NormalizedParts(p);
  }

  // ------------------------------------------------------------------ the same lookup on Windows

  /** An absolute path on a drive, or one relative to the current directory of a drive. */
  datatype WindowsPath = WindowsPath(drive: char, absolute: bool, names: seq<string>)

  predicate NamesDrive(part: string) {
    |part| >= 2 && PN.IsLetter(part[0]) && part[1] == ':'
  }

  predicate SameDrive(a: char, b: char) {
    LowerChar(a) == LowerChar(b)
  }

  /** `path / part`: a part that names another drive replaces the path. */
  function JoinWindows(path: WindowsPath, part: string): WindowsPath {
    if !NamesDrive(part) then path.(names := path.names + [part])
    else
      var rest := if |part| > 2 then [part[2..]] else [];
      if SameDrive(part[0], path.drive) then path.(names := path.names + rest) else WindowsPath(part[0], false, rest)
  }

  function JoinAllWindows(root: WindowsPath, parts: seq<string>): WindowsPath {
    if parts == [] then root
    else JoinWindows(JoinAllWindows(root, parts[..|parts| - 1]), parts[|parts| - 1])
  }

  predicate InsideWindows(root: WindowsPath, path: WindowsPath) {
    path.absolute && path.drive == root.drive && root.names <= path.names
  }

  /** A letter and a colon at the start of the part, and the letter is not the root's in either case. */
  predicate LeavesDrive(root: WindowsPath, part: string) {
    && |part| >= 2 && ('a' <= part[0] <= 'z' || 'A' <= part[0] <= 'Z') && part[1] == ':'
    && LowerChar(part[0]) != LowerChar(root.drive)
  }

  ghost predicate StaysOnDrive(root: WindowsPath, parts: seq<string>) {
    forall i :: 0 <= i < |parts| ==> !LeavesDrive(root, parts[i])
  }

  lemma OneMorePart(root: WindowsPath, before: seq<string>, last: string)
    ensures StaysOnDrive(root, before + [last]) <==> StaysOnDrive(root, before) && !LeavesDrive(root, last)
  {
    var parts := before + [last];
    assert parts[|before|] == last;
    forall i | 0 <= i < |before| ensures parts[i] == before[i] {
    }
  }

  /** Below an absolute root, the parts of a path stay inside exactly when none of them names another drive;
    * and once one has, the lookup never returns to the root.
    */
  lemma {:induction false} InsideWindowsExactly(root: WindowsPath, parts: seq<string>)
    requires root.absolute
    ensures InsideWindows(root, JoinAllWindows(root, parts)) <==> StaysOnDrive(root, parts)
    ensures InsideWindows(root, JoinAllWindows(root, parts)) || !JoinAllWindows(root, parts).absolute
  {
    if parts != [] {
      var before, last := parts[..|parts| - 1], parts[|parts| - 1];
      InsideWindowsExactly(root, before);
      OneMorePart(root, before, last);
      assert parts == before + [last];
    }
  }

  /** Without drives in the parts, the lookup goes down by the parts themselves; the root's own drive in front of a
    * part is left out.
    */
  lemma {:induction false} PlainLookup(root: WindowsPath, parts: seq<string>)
    requires root.absolute && forall i :: 0 <= i < |parts| ==> !(|parts[i]| >= 2 && parts[i][1] == ':')
    ensures JoinAllWindows(root, parts) == root.(names := root.names + parts)
  {
    if parts != [] {
      PlainLookup(root, parts[..|parts| - 1]);
      assert root.names + parts == root.names + parts[..|parts| - 1] + [parts[|parts| - 1]];
    }
  }

  lemma OwnDrive(root: WindowsPath, name: string)
    requires root.absolute && root.drive == 'C'
    ensures JoinWindows(root, "c:" + name) == if name == "" then root else root.(names := root.names + [name])
  {
    assert ("c:" + name)[2..] == name;
  }

  /** The path `a/D:` is a normal form, and it is looked up outside a root on drive C. */
  lemma NormalPathLeavesDrive(root: WindowsPath)
    requires root.absolute && root.drive == 'C'
    ensures PN.Join(NESTED) == "a/D:" && PN.Normalized("a/D:") == PN.Ok("a/D:") && PN.PathParts("a/D:") == NESTED
    ensures !InsideWindows(root, JoinAllWindows(root, NESTED))
  {
    NestedText();
    NestedPlain();
    PN.PlainIsNormal(NESTED);
    InsideWindowsExactly(root, NESTED);
    assert LeavesDrive(root, NESTED[1]);
  }

  const NESTED := ["a", "D:"]

  lemma NestedPlain()
    ensures PN.AllPlain(NESTED) && !PN.LooksLikeDrive(NESTED)
  {
    assert PN.Plain("a") && PN.Plain("D:") && |NESTED[0]| == 1;
  }

  lemma NestedText()
    ensures PN.Join(NESTED) == "a/D:"
  {
    assert NESTED[1..] == ["D:"] && PN.Join(["D:"]) == "D:";
  }

  // ------------------------------------------------------------------ what is found there

  ghost predicate Observed(fs: FileSystem, targets: seq<Target>, observations: seq<Observation>) {
    && |observations| == |targets|
    && forall i :: 0 <= i < |targets| ==> ObservedAt(fs, targets[i], observations[i], i)
  }

  predicate ObservedAt(fs: FileSystem, t: Target, o: Observation, i: nat) {
    && o.targetIndex == i && o.target == t && o.entry != Unsupported
    && o.entry == fs([t.surface.rootId] + PN.PathParts(t.surface.relativePath))
  }

  predicate Supported(fs: FileSystem, t: Target) {
    fs([t.surface.rootId] + PN.PathParts(t.surface.relativePath)) != Unsupported
  }

  method ObserveAll(fs: FileSystem, targets: seq<Target>) returns (observations: Option<seq<Observation>>)
    ensures observations.Some? <==> forall i :: 0 <= i < |targets| ==> Supported(fs, targets[i])
    ensures observations.Some? ==> Observed(fs, targets, observations.value)
  {
    var seen: seq<Observation> := [];
    for i := 0 to |targets|
      invariant |seen| == i
      invariant forall j :: 0 <= j < i ==> ObservedAt(fs, targets[j], seen[j], j) && Supported(fs, targets[j])
    {
      var path := ResolvedPath(targets[i]);
      var entry := fs(path);
      if entry == Unsupported {
        return None;
      }
      seen := seen + [Observation(i, targets[i], entry)];
    }
    return Some(seen);
  }

  // ------------------------------------------------------------------ manifests

  /** What `verify_snapshot_manifest` checks besides the seal. It does not compare what was observed. */
  predicate ManifestShape(m: Manifest) {
    && m.body.metadataOnly && |m.body.targets| == |m.body.observations|
    && forall i :: 0 <= i < |m.body.observations| ==>
                     m.body.observations[i].targetIndex == i && m.body.observations[i].entry != Unsupported
  }

  function Indices(observations: seq<Observation>): seq<nat> {
    seq(|observations|, i requires 0 <= i < |observations| => observations[i].targetIndex)
  }

  /** A manifest verifies exactly when it claims metadata only, has one observation per target in their order, none of
    * an unsupported kind, and its seal is the hash of its body.
    */
  lemma ManifestVerifiesExactly(hash: Hash<ManifestBody>, m: Manifest)
    ensures Verified(hash, ManifestShape, m) <==>
              && m.seal == hash(m.body) && m.body.metadataOnly
              && Indices(m.body.observations) == seq(|m.body.targets|, i => i)
              && forall o :: o in m.body.observations ==> !o.entry.Unsupported?
  {
    var indices := Indices(m.body.observations);
    if indices == seq(|m.body.targets|, i => i) {
      assert |indices| == |m.body.targets|;
      forall i | 0 <= i < |indices| ensures m.body.observations[i].targetIndex == i {
        assert indices[i] == i;
      }
    }
  }

  datatype Rules = Rules(plan: EP.Rules, manifestHash: Hash<ManifestBody>, receiptHash: Hash<ReceiptBody>)

  ghost predicate Tied(fs: FileSystem, plan: EP.Plan, m: Manifest) {
    && m.body.planHash == plan.seal && m.body.proposalHash == plan.body.proposalHash
    && m.body.targets == TargetsOf(Read, plan.body.declaredReads) + TargetsOf(Write, plan.body.declaredWrites)
    && Observed(fs, m.body.targets, m.body.observations)
  }

  lemma AllSupported(fs: FileSystem, inputs: seq<P.Surface>, outputs: seq<P.Surface>)
    ensures var targets := TargetsOf(Read, inputs) + TargetsOf(Write, outputs);
            (forall i :: 0 <= i < |targets| ==> Supported(fs, targets[i])) <==>
            && (forall i :: 0 <= i < |inputs| ==> Supported(fs, Target(Read, inputs[i])))
            && (forall i :: 0 <= i < |outputs| ==> Supported(fs, Target(Write, outputs[i])))
  {
    var targets := TargetsOf(Read, inputs) + TargetsOf(Write, outputs);
    assert forall i :: 0 <= i < |inputs| ==> targets[i] == Target(Read, inputs[i]);
    forall i | 0 <= i < |outputs| ensures targets[|inputs| + i] == Target(Write, outputs[i]) {
    }
  }

  /** `build_snapshot_manifest`: a verified plan's declared paths, each observed once, in order. */
  method BuildManifest(rules: Rules, fs: FileSystem, plan: EP.Plan) returns (m: Option<Manifest>)
    ensures m.Some? ==>
              && Verified(rules.plan.hash, rules.plan.shape, plan)
              && Verified(rules.manifestHash, ManifestShape, m.value)
    ensures m.Some? ==> Tied(fs, plan, m.value)
    ensures m.Some? <==> Verified(rules.plan.hash, rules.plan.shape, plan)
                         && (forall i :: 0 <= i < |plan.body.declaredReads| ==>
                             Supported(fs, Target(Read, plan.body.declaredReads[i])))
                         && (forall i :: 0 <= i < |plan.body.declaredWrites| ==>
                             Supported(fs, Target(Write, plan.body.declaredWrites[i])))
  {
    var issues := Verify(rules.plan.hash, rules.plan.shape, plan);
    if issues != [] {
      return None;
    }
    var targets := CollectTargets(plan);
    AllSupported(fs, plan.body.declaredReads, plan.body.declaredWrites);
    var observations := ObserveAll(fs, targets);
    if observations.None? {
      return None;
    }
    var body := ManifestBody(plan.body.createdAt, plan.seal, plan.body.proposalHash, true, targets, observations.value);
    assert forall i :: 0 <= i < |targets| ==> ObservedAt(fs, targets[i], observations.value[i], i);
    m := Some(Sealed(body, rules.manifestHash(body)));
  }

  // ------------------------------------------------------------------ receipts

  datatype ReceiptBody = ReceiptBody(
    createdAt: string, planHash: string, proposalHash: string, snapshotHash: string, simulated: bool, executed: bool,
    powershellInvoked: bool, networkAccessed: bool, declaredReads: seq<P.Surface>, declaredWrites: seq<P.Surface>,
    observedWrites: seq<P.Surface>)

  type Receipt = Sealed<ReceiptBody>

  /** What `verify_simulation_receipt` checks besides the seal: nothing was executed or written. */
  predicate ReceiptShape(r: Receipt) {
    && r.body.simulated && !r.body.executed && !r.body.powershellInvoked && !r.body.networkAccessed
    && r.body.observedWrites == []
  }

  /** `build_simulation_receipt`: it needs a verified plan and a verified manifest, of the same plan or not. */
  method BuildReceipt(rules: Rules, plan: EP.Plan, m: Manifest) returns (r: Option<Receipt>)
    ensures r.Some? <==>
              && Verified(rules.plan.hash, rules.plan.shape, plan)
              && Verified(rules.manifestHash, ManifestShape, m)
    ensures r.Some? ==> Verified(rules.receiptHash, ReceiptShape, r.value)
    // it says that nothing was executed, invoked, accessed or written
    ensures r.Some? ==>
              && r.value.body.simulated && !r.value.body.executed && !r.value.body.powershellInvoked
              && !r.value.body.networkAccessed && r.value.body.observedWrites == []
    ensures r.Some? ==> r.value.body.planHash == plan.seal && r.value.body.snapshotHash == m.seal
    ensures r.Some? ==> r.value.body.proposalHash == plan.body.proposalHash
    ensures r.Some? ==>
              && r.value.body.declaredReads == plan.body.declaredReads
              && r.value.body.declaredWrites == plan.body.declaredWrites
  {
    var planIssues := Verify(rules.plan.hash, rules.plan.shape, plan);
    if planIssues != [] {
      return None;
    }
    var manifestIssues := Verify(rules.manifestHash, ManifestShape, m);
    if manifestIssues != [] {
      return None;
    }
    var body := ReceiptBody(m.body.createdAt, plan.seal, plan.body.proposalHash, m.seal, true, false, false, false,
                            plan.body.declaredReads, plan.body.declaredWrites, []);
    r := Some(Sealed(body, rules.receiptHash(body)));
  }

  /** The receipt of a simulation: `simulate_plan` takes the snapshot from the plan it is given. */
  method Simulate(rules: Rules, fs: FileSystem, plan: EP.Plan) returns (m: Option<Manifest>, r: Option<Receipt>)
    ensures r.Some? ==> m.Some? && Tied(fs, plan, m.value) && Verified(rules.receiptHash, ReceiptShape, r.value)
    ensures r.Some? ==>
              && r.value.body.planHash == plan.seal == m.value.body.planHash
              && r.value.body.snapshotHash == m.value.seal
    ensures r.Some? <==> m.Some?
  {
    m := BuildManifest(rules, fs, plan);
    if m.None? {
      return m, None;
    }
    r := BuildReceipt(rules, plan, m.value);
  }

  /** A receipt that claims anything else does not verify. */
  lemma ReceiptVerifiesExactly(hash: Hash<ReceiptBody>, r: Receipt)
    ensures Verified(hash, ReceiptShape, r) <==>
              && r.seal == hash(r.body) && r.body.simulated && r.body.observedWrites == []
              && !(r.body.executed || r.body.powershellInvoked || r.body.networkAccessed)
  {
  }

  /** Names what a receipt speaks about. */
  ghost predicate SpeaksOf(rules: Rules, r: Receipt, plan: EP.Plan, m: Manifest) {
    && Verified(rules.receiptHash, ReceiptShape, r)
    && Verified(rules.plan.hash, rules.plan.shape, plan) && r.body.planHash == plan.seal
    && Verified(rules.manifestHash, ManifestShape, m) && r.body.snapshotHash == m.seal
  }

  /** The seal on a receipt pins down the receipt, the whole plan and the whole manifest. */
  lemma ReceiptPinsDown(rules: Rules, r: Receipt, plan: EP.Plan, m: Manifest, r': Receipt, plan': EP.Plan, m': Manifest)
    requires CollisionFree(rules.plan.hash) && CollisionFree(rules.manifestHash) && CollisionFree(rules.receiptHash)
    requires SpeaksOf(rules, r, plan, m) && SpeaksOf(rules, r', plan', m') && r.seal == r'.seal
    ensures r == r' && plan == plan' && m == m'
  {
    SealDetermines(rules.receiptHash, ReceiptShape, r, r');
    SealDetermines(rules.plan.hash, rules.plan.shape, plan, plan');
    SealDetermines(rules.manifestHash, ManifestShape, m, m');
  }
}
