/** What the plugin install protocol guarantees: rollback undoes any failing prefix, and a crash
    followed by recovery leaves the old plugin or the new one. */
module PluginTransactions {
  import opened PluginDisk
  import opened Text
  import opened Wrappers

  // --- running steps ---

  lemma {:induction false} RunConcat(env: Env, pkg: Pkg, recorded: Option<string>, d: Disk, a: seq<Step>, b: seq<Step>)
    ensures Run(env, pkg, recorded, d, a + b) == Run(env, pkg, recorded, Run(env, pkg, recorded, d, a), b)
    decreases |b|
  {
    if b == [] {
      assert a + b == a;
    } else {
      var n := |b| - 1;
      assert (a + b)[..|a + b| - 1] == a + b[..n];
      RunConcat(env, pkg, recorded, d, a, b[..n]);
    }
  }

  lemma RunSnoc(env: Env, pkg: Pkg, recorded: Option<string>, d: Disk, a: seq<Step>, s: Step)
    ensures Run(env, pkg, recorded, d, a + [s]) == Effect(env, pkg, recorded, Run(env, pkg, recorded, d, a), s)
  {
    assert (a + [s])[..|a|] == a;
  }

  lemma RunThree(env: Env, pkg: Pkg, recorded: Option<string>, d: Disk, a: Step, b: Step, c: Step)
    ensures Run(env, pkg, recorded, d, [a, b, c]) ==
      Effect(env, pkg, recorded, Effect(env, pkg, recorded, Effect(env, pkg, recorded, d, a), b), c)
  {
    RunSnoc(env, pkg, recorded, d, [], a);
    RunSnoc(env, pkg, recorded, d, [a], b);
    RunSnoc(env, pkg, recorded, d, [a, b], c);
    assert [] + [a] == [a] && [a] + [b] == [a, b] && [a, b] + [c] == [a, b, c];
  }

  /** Steps that work on the new files other than the checksum and the signatures. */
  predicate Builds(s: Step) {
    || s.RemoveCurrent? || s.MakeCurrent? || s.WriteBinary? || s.WriteCustom?
    || s.WritePackage? || s.WriteManifest? || s.WriteService?
  }

  /** Steps after the checksum leave every file but the signatures alone. */
  predicate Finishes(s: Step) {
    s.SettleSignature? || s.DropLegacySign? || OutsideLive(s)
  }

  predicate OutsideLive(s: Step) {
    s.WriteUnit? || s.Reload? || IsLinkStep(s) || s.StartAndPoll? || s.Upsert?
  }

  /** Until the checksum step nothing creates a checksum or a signature. */
  lemma {:induction false} NoChecksumYet(env: Env, pkg: Pkg, recorded: Option<string>, d: Disk, steps: seq<Step>)
    requires d.live.Keys <= {Current, Package, Manifest, Service}
    requires forall i :: 0 <= i < |steps| ==> Builds(steps[i])
    ensures Run(env, pkg, recorded, d, steps).live.Keys <= {Current, Package, Manifest, Service}
  {
    if steps != [] {
      NoChecksumYet(env, pkg, recorded, d, steps[..|steps| - 1]);
    }
  }

  lemma {:induction false} SavedAndRowUntouched(env: Env, pkg: Pkg, recorded: Option<string>, d: Disk, steps: seq<Step>)
    ensures Run(env, pkg, recorded, d, steps).saved == d.saved
    ensures (forall i :: 0 <= i < |steps| ==> !steps[i].Upsert?) ==>
        Run(env, pkg, recorded, d, steps).record == d.record
  {
    if steps != [] {
      SavedAndRowUntouched(env, pkg, recorded, d, steps[..|steps| - 1]);
    }
  }

  lemma StepsShape(pkg: Pkg)
    ensures forall i :: 0 <= i < |StepsBeforeChecksum(pkg)| ==> Builds(StepsBeforeChecksum(pkg)[i])
    ensures forall i :: 0 <= i < |StepsAfterChecksum()| ==> Finishes(StepsAfterChecksum()[i])
    ensures forall i :: 2 <= i < |StepsAfterChecksum()| ==> OutsideLive(StepsAfterChecksum()[i])
    ensures |InstallSteps(pkg)| == |StepsBeforeChecksum(pkg)| + 10
    ensures forall i :: 0 <= i < |InstallSteps(pkg)| - 1 ==> !InstallSteps(pkg)[i].Upsert?
  {
    var pre, steps := StepsBeforeChecksum(pkg), InstallSteps(pkg);
    forall i | 0 <= i < |pre|
      ensures Builds(pre[i]) && steps[i] == pre[i]
    {
      var custom := CustomSteps(pkg.customFiles);
      if 3 <= i < 3 + |custom| {
        assert pre[i] == custom[i - 3];
      }
    }
  }

  predicate IsLinkStep(s: Step) {
    s.DropRecordedLink? || s.ClearNewLink? || s.CreateNewLink?
  }

  // --- rollback undoes any prefix ---

  /** Links while installing: only the recorded and the new path may differ from the start; the
      recorded one is ours, gone, or as it was, and the new one ours, gone, or as it was. */
  ghost predicate LinksWithin(env: Env, pkg: Pkg, recorded: Option<string>, start: Disk, d: Disk) {
    forall path: string ::
      || ((path in d.links <==> path in start.links) && (path in d.links ==> d.links[path] == start.links[path]))
      || ((recorded == Some(path) && OwnsLink(env, start, path)) && (path !in d.links || OwnsLink(env, d, path)))
      || (pkg.binPath == Some(path) && (path !in start.links || OwnsLink(env, start, path))
          && (path !in d.links || OwnsLink(env, d, path)))
  }

  lemma {:induction false} LinksStayWithin(env: Env, pkg: Pkg, recorded: Option<string>, d: Disk, steps: seq<Step>)
    ensures LinksWithin(env, pkg, recorded, d, Run(env, pkg, recorded, d, steps))
  {
    if steps != [] {
      var before := Run(env, pkg, recorded, d, steps[..|steps| - 1]);
      LinksStayWithin(env, pkg, recorded, d, steps[..|steps| - 1]);
      LinkStepStaysWithin(env, pkg, recorded, d, before, steps[|steps| - 1]);
    }
  }

  lemma LinkStepStaysWithin(env: Env, pkg: Pkg, recorded: Option<string>, start: Disk, d: Disk, s: Step)
    requires LinksWithin(env, pkg, recorded, start, d)
    ensures LinksWithin(env, pkg, recorded, start, Effect(env, pkg, recorded, d, s))
  {
  }

  /** The systemd unit, if any, is the stored service file. */
  predicate UnitAgrees(d: Disk) {
    d.unit.Some? ==> Service in d.live && d.live[Service] == File(d.unit.value)
  }

  /** The new path already was an unrecorded link to this plugin's binary. */
  predicate UnrecordedLink(env: Env, pkg: Pkg, d: Disk) {
    pkg.binPath.Some? && RecordedLink(d) != pkg.binPath && OwnsLink(env, d, pkg.binPath.value)
  }

  /** The disk after preparing, a failing prefix of the install steps and the rollback. */
  function AfterFailure(env: Env, pkg: Pkg, d: Disk, k: nat, residue: Option<Content>, undo: Undo): Disk
    requires k <= |InstallSteps(pkg)|
  {
    InterruptedKeepsSaved(env, pkg, LinkNoted(env, Prepared(d)), k, residue);
    RolledBack(env, Interrupted(env, pkg, LinkNoted(env, Prepared(d)), k, residue), pkg.binPath, undo)
  }

  lemma InterruptedKeepsSaved(env: Env, pkg: Pkg, d: Disk, k: nat, residue: Option<Content>)
    requires k <= |InstallSteps(pkg)|
    ensures Interrupted(env, pkg, d, k, residue).saved == d.saved
    ensures k < |InstallSteps(pkg)| ==> Interrupted(env, pkg, d, k, residue).record == d.record
  {
    UpsertIsLast(pkg);
    var steps := InstallSteps(pkg);
    SavedAndRowUntouched(env, pkg, RecordedLink(d), d, steps[..k]);
    if k < |steps| {
      TornLeavesRest(env, pkg, Run(env, pkg, RecordedLink(d), d, steps[..k]), steps[k], residue);
    }
  }

  lemma InterruptedLinks(env: Env, pkg: Pkg, d: Disk, k: nat, residue: Option<Content>)
    requires k <= |InstallSteps(pkg)|
    ensures LinksWithin(env, pkg, RecordedLink(d), d, Interrupted(env, pkg, d, k, residue))
  {
    var steps := InstallSteps(pkg);
    LinksStayWithin(env, pkg, RecordedLink(d), d, steps[..k]);
    if k < |steps| {
      TornLeavesRest(env, pkg, Run(env, pkg, RecordedLink(d), d, steps[..k]), steps[k], residue);
    }
  }

  lemma TornLeavesRest(env: Env, pkg: Pkg, d: Disk, s: Step, residue: Option<Content>)
    ensures var after := Torn(env, pkg, d, s, residue);
      after.saved == d.saved && after.record == d.record && after.links == d.links
  {
  }

  lemma UpsertIsLast(pkg: Pkg)
    ensures forall i :: 0 <= i < |InstallSteps(pkg)| - 1 ==> !InstallSteps(pkg)[i].Upsert?
  {
    StepsShape(pkg);
  }

  /** The install step that writes the systemd unit, and the first that touches a link. */
  function UnitStep(pkg: Pkg): nat {
    |StepsBeforeChecksum(pkg)| + 3
  }

  function DropStep(pkg: Pkg): nat {
    |StepsBeforeChecksum(pkg)| + 5
  }

  lemma LinkStepsAt(pkg: Pkg, i: nat)
    requires i < |InstallSteps(pkg)|
    ensures InstallSteps(pkg)[i].DropRecordedLink? <==> i == DropStep(pkg)
  {
    StepsShape(pkg);
    if i < |StepsBeforeChecksum(pkg)| {
      assert Builds(StepsBeforeChecksum(pkg)[i]);
    }
  }

  /** Neither the steps before k nor rolling back removed a link of ours for good. */
  predicate NothingDropped(env: Env, pkg: Pkg, d: Disk, k: nat) {
    && (pkg.binPath.Some? ==> !OwnsLink(env, d, pkg.binPath.value))
    && (RecordedLink(d).Some? && OwnsLink(env, d, RecordedLink(d).value) ==> k <= DropStep(pkg))
  }

  lemma StepOnRecordedLink(env: Env, pkg: Pkg, recorded: string, d: Disk, s: Step)
    requires pkg.binPath != Some(recorded)
    ensures var d' := Effect(env, pkg, Some(recorded), d, s);
      if s.DropRecordedLink? && OwnsLink(env, d, recorded) then recorded !in d'.links
      else
        && (OwnsLink(env, d', recorded) <==> OwnsLink(env, d, recorded))
        && (recorded in d'.links <==> recorded in d.links)
  {
  }

  /** The recorded link, when the new path is another one, is there until its step removes it. */
  lemma {:induction false} RecordedLinkDropped(env: Env, pkg: Pkg, recorded: string, d: Disk, steps: seq<Step>, k: nat)
    requires k <= |steps| && OwnsLink(env, d, recorded) && pkg.binPath != Some(recorded)
    ensures var broken := Run(env, pkg, Some(recorded), d, steps[..k]);
      if forall i :: 0 <= i < k ==> !steps[i].DropRecordedLink?
      then OwnsLink(env, broken, recorded)
      else recorded !in broken.links
  {
    if k > 0 {
      RecordedLinkDropped(env, pkg, recorded, d, steps, k - 1);
      assert steps[..k] == steps[..k - 1] + [steps[k - 1]];
      RunSnoc(env, pkg, Some(recorded), d, steps[..k - 1], steps[k - 1]);
      StepOnRecordedLink(env, pkg, recorded, Run(env, pkg, Some(recorded), d, steps[..k - 1]), steps[k - 1]);
    }
  }

  lemma DropStepAmong(pkg: Pkg, k: nat)
    requires k <= |InstallSteps(pkg)|
    ensures (forall i :: 0 <= i < k ==> !InstallSteps(pkg)[i].DropRecordedLink?) <==> k <= DropStep(pkg)
  {
    forall i | 0 <= i < k
      ensures InstallSteps(pkg)[i].DropRecordedLink? <==> i == DropStep(pkg)
    {
      LinkStepsAt(pkg, i);
    }
    if k > DropStep(pkg) {
      assert InstallSteps(pkg)[DropStep(pkg)].DropRecordedLink?;
    }
  }

  /** Preparing, failing at any step and rolling back is the identity on the plugin's files exactly
      when the unit agreed with the stored service file, if it gets to the unit. It is the identity on
      the links exactly when the new path was not an unrecorded link of ours or, if the first reload
      ended the rollback, when nothing of ours had been dropped. The row is untouched; the unit is
      gone; nothing but an empty rollback directory and a link note can be left. */
  lemma RollbackUndoesAnyPrefix(env: Env, pkg: Pkg, d: Disk, k: nat, residue: Option<Content>, undo: Undo)
    requires !ForeignLink(env, d) && !CutOff(undo)
    requires k < |InstallSteps(pkg)|
    ensures var after := AfterFailure(env, pkg, d, k, residue, undo);
      && (after.live == d.live <==> UnitAgrees(d))
      && (after.links == d.links <==>
          if undo.FirstFails? then NothingDropped(env, pkg, d, k) else !UnrecordedLink(env, pkg, d))
      && after.record == d.record && after.unit == None
      && (after.saved == None <==> undo.Work? || (undo.SecondFails? && d.record.Some?))
      && (after.saved.Some? ==> after.saved.value.dir == map[])
  {
    var start := LinkNoted(env, Prepared(d));
    var broken := Interrupted(env, pkg, start, k, residue);
    InterruptedKeepsSaved(env, pkg, start, k, residue);
    InterruptedLinks(env, pkg, start, k, residue);
    NoteNotStuck(env, pkg, d, broken);
    PreservedIffAgrees(d);
    if undo.FirstFails? {
      LinksIfReloadFails(env, pkg, d, k, residue);
    } else {
      LinksRestored(env, pkg, d, broken, undo);
    }
  }

  /** What rolling back makes live, whatever was installed and however the reloads go. */
  lemma FailureRestoresPreserved(env: Env, pkg: Pkg, d: Disk, k: nat, residue: Option<Content>, undo: Undo)
    requires k <= |InstallSteps(pkg)| && !CutOff(undo)
    ensures var after := AfterFailure(env, pkg, d, k, residue, undo);
      && after.live == Preserved(d) && after.unit == None
      && (after.saved.Some? ==> after.saved.value.dir == map[])
      && (k < |InstallSteps(pkg)| ==> after.record == d.record)
  {
    InterruptedKeepsSaved(env, pkg, LinkNoted(env, Prepared(d)), k, residue);
  }

  lemma PreservedIffAgrees(d: Disk)
    ensures Preserved(d) == d.live <==> UnitAgrees(d)
  {
    if d.unit.Some? {
      assert Preserved(d)[Service] == File(d.unit.value);
    }
  }

  lemma NoteNotStuck(env: Env, pkg: Pkg, d: Disk, broken: Disk)
    requires broken.saved == LinkNoted(env, Prepared(d)).saved
    requires LinksWithin(env, pkg, RecordedLink(d), LinkNoted(env, Prepared(d)), broken)
    ensures !LinkStuck(broken)
  {
  }

  /** What a rollback does to the link at one path. */
  lemma RolledBackAt(env: Env, d: Disk, attempted: Option<string>, undo: Undo, path: string)
    requires d.saved.Some? && !LinkStuck(d)
    ensures var links := RolledBack(env, d, attempted, undo).links;
      if !CutOff(undo) && !undo.FirstFails? && Note(d).Some? && Note(d).value.0 == path
      then path in links && links[path] == Symlink(Note(d).value.1)
      else if attempted == Some(path) && OwnsLink(env, d, path) then path !in links
      else (path in links <==> path in d.links) && (path in links ==> links[path] == d.links[path])
  {
  }

  lemma LinksRestored(env: Env, pkg: Pkg, d: Disk, broken: Disk, undo: Undo)
    requires !ForeignLink(env, d) && !CutOff(undo) && !undo.FirstFails?
    requires broken.saved == LinkNoted(env, Prepared(d)).saved
    requires LinksWithin(env, pkg, RecordedLink(d), LinkNoted(env, Prepared(d)), broken)
    ensures RolledBack(env, broken, pkg.binPath, undo).links == d.links <==> !UnrecordedLink(env, pkg, d)
  {
    NoteNotStuck(env, pkg, d, broken);
    var links := RolledBack(env, broken, pkg.binPath, undo).links;
    var recorded := RecordedLink(d);
    forall path: string | !(UnrecordedLink(env, pkg, d) && pkg.binPath == Some(path))
      ensures path in links <==> path in d.links
      ensures path in links ==> links[path] == d.links[path]
    {
      RolledBackAt(env, broken, pkg.binPath, undo, path);
    }
    if UnrecordedLink(env, pkg, d) {
      RolledBackAt(env, broken, pkg.binPath, undo, pkg.binPath.value);
      assert pkg.binPath.value !in links;
    } else {
      assert links == d.links;
    }
  }

  /** The links when the first reload ends the rollback: exactly those of ours that installing dropped,
      and the new path if it was ours, are missing. */
  lemma LinksIfReloadFails(env: Env, pkg: Pkg, d: Disk, k: nat, residue: Option<Content>)
    requires !ForeignLink(env, d) && k < |InstallSteps(pkg)|
    ensures AfterFailure(env, pkg, d, k, residue, FirstFails).links == d.links <==> NothingDropped(env, pkg, d, k)
  {
    var start := LinkNoted(env, Prepared(d));
    var before := Run(env, pkg, RecordedLink(d), start, InstallSteps(pkg)[..k]);
    var broken := Interrupted(env, pkg, start, k, residue);
    InterruptedKeepsSaved(env, pkg, start, k, residue);
    LinksStayWithin(env, pkg, RecordedLink(d), start, InstallSteps(pkg)[..k]);
    TornLeavesRest(env, pkg, before, InstallSteps(pkg)[k], residue);
    var links := AfterFailure(env, pkg, d, k, residue, FirstFails).links;
    assert links == DropOwnedLink(env, before, pkg.binPath).links;
    if pkg.binPath.Some? && OwnsLink(env, d, pkg.binPath.value) {
      assert pkg.binPath.value !in links;
    } else {
      var recorded := RecordedLink(d);
      if recorded.Some? && OwnsLink(env, d, recorded.value) {
        DropStepAmong(pkg, k);
        RecordedLinkDropped(env, pkg, recorded.value, start, InstallSteps(pkg), k);
      }
      if NothingDropped(env, pkg, d, k) {
        forall path: string
          ensures path in links <==> path in d.links
          ensures path in links ==> links[path] == d.links[path]
        {
        }
        assert links == d.links;
      }
    }
  }

  /** However the rollback went, the links are as before but for the recorded path, which is ours,
      gone, or as before, and for the new path if it was an unrecorded link of ours. */
  lemma RollbackLinks(
      env: Env, pkg: Pkg, d: Disk, k: nat, residue: Option<Content>, undo: Undo, path: string)
    requires !ForeignLink(env, d) && k < |InstallSteps(pkg)|
    requires !(UnrecordedLink(env, pkg, d) && pkg.binPath == Some(path))
    ensures var links := AfterFailure(env, pkg, d, k, residue, undo).links;
      if RecordedLink(d) == Some(path) then path !in links || links[path] == Symlink(env.target)
      else (path in links <==> path in d.links) && (path in links ==> links[path] == d.links[path])
  {
    var start := LinkNoted(env, Prepared(d));
    var broken := Interrupted(env, pkg, start, k, residue);
    InterruptedKeepsSaved(env, pkg, start, k, residue);
    InterruptedLinks(env, pkg, start, k, residue);
    NoteNotStuck(env, pkg, d, broken);
    RolledBackAt(env, broken, pkg.binPath, undo, path);
    assert Note(broken) == Note(start);
  }

  // --- a crash leaves the old plugin or the new one ---

  function NewFiles(env: Env, pkg: Pkg, n: nat): map<string, Content>
    requires n <= |pkg.customFiles|
  {
    if n == 0 then map[env.id := pkg.binary]
    else NewFiles(env, pkg, n - 1)[pkg.customFiles[n - 1].0 := pkg.customFiles[n - 1].1]
  }

  /** A package the parser accepted: its manifest names this plugin, its version and its link, its digest is that of its
      binary, no custom file hides the binary, and its signature, if checked, was good. */
  ghost predicate Accepted(env: Env, pkg: Pkg) {
    && env.manifestId(pkg.manifest) == Some(env.id)
    && env.manifestVersion(pkg.manifest) == pkg.version && env.manifestLink(pkg.manifest) == pkg.binPath
    && IsDigestText(pkg.sha256) && env.digest(pkg.binary) == AsciiLower(pkg.sha256)
    && (forall i :: 0 <= i < |pkg.customFiles| ==> pkg.customFiles[i].0 != env.id)
    && (pkg.signature.Some? && env.certPresent ==> env.verify(pkg.binary, pkg.signature.value))
  }

  /** Binary, custom files, package, manifest and service file are the new ones, and the checksum
      is of the new binary. */
  ghost predicate AllNew(env: Env, pkg: Pkg, live: Dir) {
    && AllNewButChecksum(env, pkg, live)
    && HasFile(live, Checksum) && ChecksumMatches(env, live[Checksum].content, pkg.binary)
  }

  /** All new, with the checksum file exactly as installing writes it. */
  ghost predicate Installed(env: Env, pkg: Pkg, live: Dir) {
    AllNew(env, pkg, live) && live[Checksum] == File(pkg.sha256 + "\n")
  }

  ghost predicate AllNewButChecksum(env: Env, pkg: Pkg, live: Dir) {
    && Current in live && live[Current] == Tree(NewFiles(env, pkg, |pkg.customFiles|))
    && Package in live && live[Package] == File(pkg.zip)
    && Manifest in live && live[Manifest] == File(pkg.manifest)
    && Service in live && live[Service] == File(pkg.service)
  }

  lemma {:induction false} BinaryAmongNewFiles(env: Env, pkg: Pkg, n: nat)
    requires n <= |pkg.customFiles| && forall i :: 0 <= i < n ==> pkg.customFiles[i].0 != env.id
    ensures env.id in NewFiles(env, pkg, n) && NewFiles(env, pkg, n)[env.id] == pkg.binary
  {
    if n > 0 {
      BinaryAmongNewFiles(env, pkg, n - 1);
    }
  }

  lemma {:induction false} CustomFilesWritten(env: Env, pkg: Pkg, recorded: Option<string>, d: Disk, n: nat)
    requires n <= |pkg.customFiles|
    requires Current in d.live && d.live[Current] == Tree(map[env.id := pkg.binary])
    ensures var after := Run(env, pkg, recorded, d, CustomSteps(pkg.customFiles)[..n]);
      Current in after.live && after.live[Current] == Tree(NewFiles(env, pkg, n))
  {
    if n > 0 {
      CustomFilesWritten(env, pkg, recorded, d, n - 1);
      var steps := CustomSteps(pkg.customFiles)[..n];
      assert steps[..n - 1] == CustomSteps(pkg.customFiles)[..n - 1];
    }
  }

  /** The steps before the checksum build the whole new plugin but for its checksum. */
  lemma NewPluginBuilt(env: Env, pkg: Pkg, recorded: Option<string>, d: Disk)
    requires d.live == map[]
    ensures AllNewButChecksum(env, pkg, Run(env, pkg, recorded, d, StepsBeforeChecksum(pkg)).live)
  {
    var first, custom, last := [RemoveCurrent, MakeCurrent, WriteBinary], CustomSteps(pkg.customFiles),
        [WritePackage, WriteManifest, WriteService];
    BinaryWritten(env, pkg, recorded, d);
    var d1 := Run(env, pkg, recorded, d, first);
    CustomFilesWritten(env, pkg, recorded, d1, |custom|);
    assert custom[..|custom|] == custom;
    PapersWritten(env, pkg, recorded, Run(env, pkg, recorded, d1, custom));
    RunConcat(env, pkg, recorded, d, first, custom);
    RunConcat(env, pkg, recorded, d, first + custom, last);
  }

  lemma BinaryWritten(env: Env, pkg: Pkg, recorded: Option<string>, d: Disk)
    ensures var live := Run(env, pkg, recorded, d, [RemoveCurrent, MakeCurrent, WriteBinary]).live;
      Current in live && live[Current] == Tree(map[env.id := pkg.binary])
  {
    RunThree(env, pkg, recorded, d, RemoveCurrent, MakeCurrent, WriteBinary);
  }

  lemma PapersWritten(env: Env, pkg: Pkg, recorded: Option<string>, d: Disk)
    requires Current in d.live && d.live[Current] == Tree(NewFiles(env, pkg, |pkg.customFiles|))
    ensures AllNewButChecksum(env, pkg, Run(env, pkg, recorded, d, [WritePackage, WriteManifest, WriteService]).live)
  {
    RunThree(env, pkg, recorded, d, WritePackage, WriteManifest, WriteService);
  }

  /** The steps after the checksum change no file but the signatures. */
  lemma {:induction false} NewPluginKept(env: Env, pkg: Pkg, recorded: Option<string>, d: Disk, steps: seq<Step>)
    requires forall i :: 0 <= i < |steps| ==> Finishes(steps[i])
    ensures var live := Run(env, pkg, recorded, d, steps).live;
      && Unsigned(live) == Unsigned(d.live)
      && (AllNew(env, pkg, d.live) ==> AllNew(env, pkg, live))
      && (Installed(env, pkg, d.live) ==> Installed(env, pkg, live))
  {
    if steps != [] {
      var n := |steps| - 1;
      NewPluginKept(env, pkg, recorded, d, steps[..n]);
      FinishTouchesSignaturesOnly(env, pkg, recorded, Run(env, pkg, recorded, d, steps[..n]), steps[n]);
      if AllNew(env, pkg, d.live) {
        NewIgnoresSignatures(env, pkg, d.live, Run(env, pkg, recorded, d, steps).live);
      }
    }
  }

  lemma FinishKeepsNew(env: Env, pkg: Pkg, recorded: Option<string>, d: Disk, s: Step)
    requires AllNew(env, pkg, d.live) && Finishes(s)
    ensures AllNew(env, pkg, Effect(env, pkg, recorded, d, s).live)
    ensures forall residue :: AllNew(env, pkg, Torn(env, pkg, d, s, residue).live)
  {
    FinishTouchesSignaturesOnly(env, pkg, recorded, d, s);
    NewIgnoresSignatures(env, pkg, d.live, Effect(env, pkg, recorded, d, s).live);
    forall residue
      ensures AllNew(env, pkg, Torn(env, pkg, d, s, residue).live)
    {
      TornTouchesSignaturesOnly(env, pkg, d, s, residue);
      NewIgnoresSignatures(env, pkg, d.live, Torn(env, pkg, d, s, residue).live);
    }
  }

  lemma NewIgnoresSignatures(env: Env, pkg: Pkg, a: Dir, b: Dir)
    requires Unsigned(a) == Unsigned(b) && AllNew(env, pkg, a)
    ensures AllNew(env, pkg, b) && a[Checksum] == b[Checksum]
  {
    assert forall e :: e in a && e != Sig && e != Sign ==> e in Unsigned(a) && Unsigned(a)[e] == a[e];
    assert forall e :: e in b && e != Sig && e != Sign ==> e in Unsigned(b) && Unsigned(b)[e] == b[e];
    assert forall e :: e in Unsigned(b) ==> e in b;
  }

  function Unsigned(live: Dir): Dir {
    live - {Sig, Sign}
  }

  lemma FinishTouchesSignaturesOnly(env: Env, pkg: Pkg, recorded: Option<string>, d: Disk, s: Step)
    requires Finishes(s)
    ensures Unsigned(Effect(env, pkg, recorded, d, s).live) == Unsigned(d.live)
  {
  }

  lemma TornTouchesSignaturesOnly(env: Env, pkg: Pkg, d: Disk, s: Step, residue: Option<Content>)
    requires Finishes(s)
    ensures Unsigned(Torn(env, pkg, d, s, residue).live) == Unsigned(d.live)
  {
  }

  /** The checksum step, on top of everything before it. */
  lemma ChecksumCompletesNew(env: Env, pkg: Pkg, recorded: Option<string>, d: Disk)
    requires Accepted(env, pkg) && d.live == map[]
    ensures var built := Run(env, pkg, recorded, d, StepsBeforeChecksum(pkg) + [WriteChecksum]);
      Installed(env, pkg, built.live) && built.live.Keys <= {Current, Package, Manifest, Service, Checksum}
  {
    var pre := StepsBeforeChecksum(pkg);
    StepsShape(pkg);
    NewPluginBuilt(env, pkg, recorded, d);
    NoChecksumYet(env, pkg, recorded, d, pre);
    RunSnoc(env, pkg, recorded, d, pre, WriteChecksum);
    TrimOfDigestLine(pkg.sha256);
  }

  /** At every point a crash can reach, the live directory is not discoverable or is all new. */
  lemma LiveIsNewOrUndiscoverable(env: Env, pkg: Pkg, d: Disk, k: nat, residue: Option<Content>)
    requires Accepted(env, pkg) && d.live == map[]
    requires k <= |InstallSteps(pkg)|
    ensures var live := Interrupted(env, pkg, d, k, residue).live;
      Discoverable(env, live) ==> AllNew(env, pkg, live)
  {
    var pre := StepsBeforeChecksum(pkg);
    StepsShape(pkg);
    if k < |pre| {
      BeforeChecksumUndiscoverable(env, pkg, d, k, residue);
    } else if k == |pre| {
      DuringChecksum(env, pkg, d, residue);
    } else {
      AfterChecksumNew(env, pkg, d, k, residue);
    }
  }

  lemma BeforeChecksumUndiscoverable(env: Env, pkg: Pkg, d: Disk, k: nat, residue: Option<Content>)
    requires d.live == map[] && k < |StepsBeforeChecksum(pkg)|
    ensures !Discoverable(env, Interrupted(env, pkg, d, k, residue).live)
  {
    var steps, pre := InstallSteps(pkg), StepsBeforeChecksum(pkg);
    StepsShape(pkg);
    assert steps[..k] == pre[..k] && steps[k] == pre[k];
    NoChecksumYet(env, pkg, RecordedLink(d), d, pre[..k]);
  }

  lemma DuringChecksum(env: Env, pkg: Pkg, d: Disk, residue: Option<Content>)
    requires Accepted(env, pkg) && d.live == map[]
    ensures var live := Interrupted(env, pkg, d, |StepsBeforeChecksum(pkg)|, residue).live;
      Discoverable(env, live) ==> AllNew(env, pkg, live)
  {
    var steps, pre := InstallSteps(pkg), StepsBeforeChecksum(pkg);
    StepsShape(pkg);
    assert steps[..|pre|] == pre && steps[|pre|] == WriteChecksum;
    NewPluginBuilt(env, pkg, RecordedLink(d), d);
    NoChecksumYet(env, pkg, RecordedLink(d), d, pre);
    BinaryAmongNewFiles(env, pkg, |pkg.customFiles|);
  }

  lemma AfterChecksumNew(env: Env, pkg: Pkg, d: Disk, k: nat, residue: Option<Content>)
    requires Accepted(env, pkg) && d.live == map[]
    requires |StepsBeforeChecksum(pkg)| < k <= |InstallSteps(pkg)|
    ensures AllNew(env, pkg, Interrupted(env, pkg, d, k, residue).live)
  {
    var before := Run(env, pkg, RecordedLink(d), d, InstallSteps(pkg)[..k]);
    FinishingPrefixNew(env, pkg, RecordedLink(d), d, k);
    if k < |InstallSteps(pkg)| {
      FinishesAt(pkg, k);
      FinishKeepsNew(env, pkg, RecordedLink(d), before, InstallSteps(pkg)[k]);
    }
  }

  lemma FinishesAt(pkg: Pkg, k: nat)
    requires |StepsBeforeChecksum(pkg)| < k < |InstallSteps(pkg)|
    ensures Finishes(InstallSteps(pkg)[k])
  {
    StepsShape(pkg);
    assert InstallSteps(pkg)[k] == StepsAfterChecksum()[k - |StepsBeforeChecksum(pkg)| - 1];
  }

  lemma FinishingPrefixNew(env: Env, pkg: Pkg, recorded: Option<string>, d: Disk, k: nat)
    requires Accepted(env, pkg) && d.live == map[]
    requires |StepsBeforeChecksum(pkg)| < k <= |InstallSteps(pkg)|
    ensures AllNew(env, pkg, Run(env, pkg, recorded, d, InstallSteps(pkg)[..k]).live)
  {
    var pre, post := StepsBeforeChecksum(pkg), StepsAfterChecksum();
    var n := k - |pre| - 1;
    StepsShape(pkg);
    assert InstallSteps(pkg)[..k] == pre + [WriteChecksum] + post[..n];
    RunConcat(env, pkg, recorded, d, pre + [WriteChecksum], post[..n]);
    ChecksumCompletesNew(env, pkg, recorded, d);
    NewPluginKept(env, pkg, recorded, Run(env, pkg, recorded, d, pre + [WriteChecksum]), post[..n]);
  }

  lemma TrimOfDigestLine(s: string)
    requires IsDigestText(s)
    ensures Trim(s + "\n") == s
  {
    assert TrimStart(s + "\n") == s + "\n";
    assert (s + "\n")[..|s|] == s;
    assert TrimEnd(s) == s;
  }

  lemma RecoveryRestores(env: Env, d: Disk, recovery: Undo)
    requires RollsBack(env, d) && !CutOff(recovery)
    ensures var after := Recovered(env, d, recovery);
      after.live == d.saved.value.dir && (after.saved == None <==> !RollbackFails(d, recovery))
  {
    assert LinkStuck(DropOwnedLink(env, d, RecordedLink(d))) <==> LinkStuck(d);
  }

  /** Recovery after a crash at any point once `prepare_rollback` has returned: what is live is all
      of what was set aside, or all of the new plugin. Also when the crash hit while the recorded
      link was being noted (`note` is whatever that left), and when recovery's rollback ends early. */
  lemma CrashLeavesOldOrNew(env: Env, pkg: Pkg, d: Disk, k: nat, residue: Option<Content>,
      note: Option<(string, string)>, recovery: Undo)
    requires Accepted(env, pkg) && Discoverable(env, d.live)
    requires k <= |InstallSteps(pkg)| && !CutOff(recovery)
    ensures var prepared := Prepared(d).(saved := Some(Saved(Preserved(d), note)));
      var crashed := Interrupted(env, pkg, prepared, k, residue);
      var after := Recovered(env, crashed, recovery);
      && (after.saved == None <==> !(RollsBack(env, crashed) && RollbackFails(crashed, recovery)))
      && Discoverable(env, after.live)
      && (after.live == Preserved(d) || AllNew(env, pkg, after.live))
      && (UnitAgrees(d) && after.live == Preserved(d) ==> after.live == d.live)
  {
    var prepared := Prepared(d).(saved := Some(Saved(Preserved(d), note)));
    InterruptedKeepsSaved(env, pkg, prepared, k, residue);
    LiveIsNewOrUndiscoverable(env, pkg, prepared, k, residue);
    PreservedDiscoverable(env, d);
    PreservedIffAgrees(d);
    var crashed := Interrupted(env, pkg, prepared, k, residue);
    if RollsBack(env, crashed) {
      RecoveryRestores(env, crashed, recovery);
    }
  }

  lemma PreservedDiscoverable(env: Env, d: Disk)
    requires Discoverable(env, d.live)
    ensures Discoverable(env, Preserved(d))
  {
  }

  /** A finished install is discoverable, so a crash while its rollback data is being deleted, or
      while recovery deletes it, is recovered to the new plugin whatever is left of that data. */
  lemma InterruptedCleanupKeepsNew(env: Env, pkg: Pkg, d: Disk, debris: Option<Saved>)
    requires Accepted(env, pkg) && d.live == map[]
    ensures var done := Run(env, pkg, RecordedLink(d), d, InstallSteps(pkg));
      && Installed(env, pkg, done.live) && Discoverable(env, done.live)
      && forall recovery :: Recovered(env, done.(saved := debris), recovery) == done.(saved := None)
  {
    var recorded := RecordedLink(d);
    var pre, post := StepsBeforeChecksum(pkg), StepsAfterChecksum();
    StepsShape(pkg);
    ChecksumCompletesNew(env, pkg, recorded, d);
    var built := Run(env, pkg, recorded, d, pre + [WriteChecksum]);
    RunConcat(env, pkg, recorded, d, pre + [WriteChecksum], post);
    NewPluginKept(env, pkg, recorded, built, post);
    SignatureSettled(env, pkg, recorded, built, |post|);
    assert post[..|post|] == post;
    NewAndSignedIsDiscoverable(env, pkg, Run(env, pkg, recorded, built, post).live);
  }

  /** The signature file is the package's, or there is none. */
  predicate Signed(pkg: Pkg, live: Dir) {
    && Sign !in live
    && if pkg.signature.Some? then Sig in live && live[Sig] == File(pkg.signature.value) else Sig !in live
  }

  /** From the signature step on, the signature file is the package's, or there is none. */
  lemma {:induction false} SignatureSettled(env: Env, pkg: Pkg, recorded: Option<string>, d: Disk, m: nat)
    requires d.live.Keys <= {Current, Package, Manifest, Service, Checksum}
    requires 1 <= m <= |StepsAfterChecksum()|
    ensures Signed(pkg, Run(env, pkg, recorded, d, StepsAfterChecksum()[..m]).live)
  {
    var post := StepsAfterChecksum();
    assert post[..m] == post[..m - 1] + [post[m - 1]];
    RunSnoc(env, pkg, recorded, d, post[..m - 1], post[m - 1]);
    if m > 1 {
      SignatureSettled(env, pkg, recorded, d, m - 1);
      StepKeepsSigned(env, pkg, recorded, Run(env, pkg, recorded, d, post[..m - 1]), post[m - 1]);
    }
  }

  lemma StepKeepsSigned(env: Env, pkg: Pkg, recorded: Option<string>, d: Disk, s: Step)
    requires Signed(pkg, d.live) && Finishes(s)
    ensures Signed(pkg, Effect(env, pkg, recorded, d, s).live)
  {
  }

  lemma NewAndSignedIsDiscoverable(env: Env, pkg: Pkg, live: Dir)
    requires Accepted(env, pkg) && AllNew(env, pkg, live) && Signed(pkg, live)
    ensures Discoverable(env, live)
  {
    BinaryAmongNewFiles(env, pkg, |pkg.customFiles|);
  }

  lemma StepOnUnit(env: Env, pkg: Pkg, recorded: Option<string>, d: Disk, s: Step)
    ensures Effect(env, pkg, recorded, d, s).unit == if s.WriteUnit? then Some(pkg.service) else d.unit
  {
  }

  /** The unit is the package's once its step has run, and as before until then. */
  lemma {:induction false} UnitWritten(env: Env, pkg: Pkg, recorded: Option<string>, d: Disk, steps: seq<Step>, k: nat)
    requires k <= |steps|
    ensures Run(env, pkg, recorded, d, steps[..k]).unit ==
      if exists i :: 0 <= i < k && steps[i].WriteUnit? then Some(pkg.service) else d.unit
  {
    if k > 0 {
      UnitWritten(env, pkg, recorded, d, steps, k - 1);
      assert steps[..k] == steps[..k - 1] + [steps[k - 1]];
      RunSnoc(env, pkg, recorded, d, steps[..k - 1], steps[k - 1]);
      StepOnUnit(env, pkg, recorded, Run(env, pkg, recorded, d, steps[..k - 1]), steps[k - 1]);
    }
  }

  lemma UnitStepAmong(pkg: Pkg, k: nat)
    requires k <= |InstallSteps(pkg)|
    ensures (exists i :: 0 <= i < k && InstallSteps(pkg)[i].WriteUnit?) <==> k > UnitStep(pkg)
    ensures k < |InstallSteps(pkg)| ==> (InstallSteps(pkg)[k].WriteUnit? <==> k == UnitStep(pkg))
  {
    var pre := StepsBeforeChecksum(pkg);
    StepsShape(pkg);
    forall i: nat | i < |InstallSteps(pkg)|
      ensures InstallSteps(pkg)[i].WriteUnit? <==> i == UnitStep(pkg)
    {
      if i < |pre| {
        assert Builds(pre[i]);
      }
    }
    if k > UnitStep(pkg) {
      assert InstallSteps(pkg)[UnitStep(pkg)].WriteUnit?;
    }
  }
}
