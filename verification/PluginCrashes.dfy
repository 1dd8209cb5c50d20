/** What a crash while installing leads to, by the step it hits: which plugin recovery keeps, whether
    unit and stored service file agree, and what a link note cut short does. */
module PluginCrashes {
  import opened PluginDisk
  import opened PluginTransactions
  import opened Wrappers

  /** The disk when a crash hits step k of an install that began at d. */
  function Crashed(env: Env, pkg: Pkg, d: Disk, k: nat, residue: Option<Content>, note: Option<(string, string)>): Disk
    requires k <= |InstallSteps(pkg)|
  {
    Interrupted(env, pkg, Prepared(d).(saved := Some(Saved(Preserved(d), note))), k, residue)
  }

  // --- which plugin is kept ---

  /** Recovery keeps the new plugin: the crash came after the signature was settled, or cut short the
      checksum or the signature in a way that still passes. */
  predicate NewKept(env: Env, pkg: Pkg, k: nat, residue: Option<Content>) {
    var checksum := |StepsBeforeChecksum(pkg)|;
    || k > checksum + 1
    || (k == checksum + 1 && (residue.None? || pkg.signature.None? || !env.certPresent
        || env.verify(pkg.binary, residue.value)))
    || (k == checksum && residue.Some? && ChecksumMatches(env, residue.value, pkg.binary))
  }

  /** With all else in place and unsigned, the plugin is discoverable as soon as the checksum matches. */
  lemma ChecksumDecides(env: Env, pkg: Pkg, live: Dir, checksum: Content)
    requires Accepted(env, pkg) && AllNewButChecksum(env, pkg, live)
        && live.Keys <= {Current, Package, Manifest, Service}
    ensures !Discoverable(env, live)
    ensures Discoverable(env, live[Checksum := File(checksum)]) <==> ChecksumMatches(env, checksum, pkg.binary)
  {
    BinaryAmongNewFiles(env, pkg, |pkg.customFiles|);
  }

  lemma SignatureDecides(env: Env, pkg: Pkg, live: Dir, signature: Content)
    requires Accepted(env, pkg) && AllNew(env, pkg, live)
        && live.Keys <= {Current, Package, Manifest, Service, Checksum}
    ensures Discoverable(env, live)
    ensures Discoverable(env, live[Sig := File(signature)]) <==> !env.certPresent || env.verify(pkg.binary, signature)
  {
    BinaryAmongNewFiles(env, pkg, |pkg.customFiles|);
  }

  lemma KeptAtChecksum(env: Env, pkg: Pkg, d: Disk, residue: Option<Content>)
    requires Accepted(env, pkg) && d.live == map[]
    ensures var k := |StepsBeforeChecksum(pkg)|;
      Discoverable(env, Interrupted(env, pkg, d, k, residue).live) <==> NewKept(env, pkg, k, residue)
  {
    var steps, pre := InstallSteps(pkg), StepsBeforeChecksum(pkg);
    StepsShape(pkg);
    assert steps[..|pre|] == pre && steps[|pre|] == WriteChecksum;
    NewPluginBuilt(env, pkg, RecordedLink(d), d);
    NoChecksumYet(env, pkg, RecordedLink(d), d, pre);
    var live := Run(env, pkg, RecordedLink(d), d, pre).live;
    assert Interrupted(env, pkg, d, |pre|, residue).live ==
        if residue.Some? then live[Checksum := File(residue.value)] else live;
    ChecksumDecides(env, pkg, live, if residue.Some? then residue.value else "");
  }

  lemma KeptAtSignature(env: Env, pkg: Pkg, d: Disk, residue: Option<Content>)
    requires Accepted(env, pkg) && d.live == map[]
    ensures var k := |StepsBeforeChecksum(pkg)| + 1;
      Discoverable(env, Interrupted(env, pkg, d, k, residue).live) <==> NewKept(env, pkg, k, residue)
  {
    var steps, pre := InstallSteps(pkg), StepsBeforeChecksum(pkg);
    StepsShape(pkg);
    assert steps[..|pre| + 1] == pre + [WriteChecksum] && steps[|pre| + 1] == SettleSignature;
    ChecksumCompletesNew(env, pkg, RecordedLink(d), d);
    var live := Run(env, pkg, RecordedLink(d), d, pre + [WriteChecksum]).live;
    assert Interrupted(env, pkg, d, |pre| + 1, residue).live ==
      if residue.Some? && pkg.signature.Some? then live[Sig := File(residue.value)] else live;
    SignatureDecides(env, pkg, live, if residue.Some? then residue.value else "");
  }

  lemma KeptAfterSignature(env: Env, pkg: Pkg, d: Disk, k: nat, residue: Option<Content>)
    requires Accepted(env, pkg) && d.live == map[]
    requires |StepsBeforeChecksum(pkg)| + 1 < k <= |InstallSteps(pkg)|
    ensures Discoverable(env, Interrupted(env, pkg, d, k, residue).live)
  {
    var steps, pre, post := InstallSteps(pkg), StepsBeforeChecksum(pkg), StepsAfterChecksum();
    var m := k - |pre| - 1;
    StepsShape(pkg);
    ChecksumCompletesNew(env, pkg, RecordedLink(d), d);
    var built := Run(env, pkg, RecordedLink(d), d, pre + [WriteChecksum]);
    assert steps[..k] == pre + [WriteChecksum] + post[..m];
    RunConcat(env, pkg, RecordedLink(d), d, pre + [WriteChecksum], post[..m]);
    SignatureSettled(env, pkg, RecordedLink(d), built, m);
    AfterChecksumNew(env, pkg, d, k, residue);
    TornKeepsSigned(env, pkg, Run(env, pkg, RecordedLink(d), d, steps[..k]), k, residue);
    NewAndSignedIsDiscoverable(env, pkg, Interrupted(env, pkg, d, k, residue).live);
  }

  lemma TornKeepsSigned(env: Env, pkg: Pkg, d: Disk, k: nat, residue: Option<Content>)
    requires |StepsBeforeChecksum(pkg)| + 1 < k <= |InstallSteps(pkg)| && Signed(pkg, d.live)
    ensures k < |InstallSteps(pkg)| ==> Signed(pkg, Torn(env, pkg, d, InstallSteps(pkg)[k], residue).live)
  {
    StepsShape(pkg);
    if k < |InstallSteps(pkg)| {
      assert InstallSteps(pkg)[k] == StepsAfterChecksum()[k - |StepsBeforeChecksum(pkg)| - 1];
    }
  }

  /** The live directory a crash leaves is discoverable exactly in the cases of `NewKept`. */
  lemma KeptExactly(env: Env, pkg: Pkg, d: Disk, k: nat, residue: Option<Content>)
    requires Accepted(env, pkg) && d.live == map[] && k <= |InstallSteps(pkg)|
    ensures Discoverable(env, Interrupted(env, pkg, d, k, residue).live) <==> NewKept(env, pkg, k, residue)
  {
    StepsShape(pkg);
    var checksum := |StepsBeforeChecksum(pkg)|;
    if k < checksum {
      BeforeChecksumUndiscoverable(env, pkg, d, k, residue);
    } else if k == checksum {
      KeptAtChecksum(env, pkg, d, residue);
    } else if k == checksum + 1 {
      KeptAtSignature(env, pkg, d, residue);
    } else {
      KeptAfterSignature(env, pkg, d, k, residue);
    }
  }

  /** The service file is written before the checksum. */
  lemma ServiceBeforeChecksum(env: Env, pkg: Pkg, d: Disk, k: nat, residue: Option<Content>)
    requires Accepted(env, pkg) && d.live == map[] && k <= |InstallSteps(pkg)|
    ensures var live := Interrupted(env, pkg, d, k, residue).live;
      Checksum in live ==> HasFile(live, Service)
  {
    var steps, pre := InstallSteps(pkg), StepsBeforeChecksum(pkg);
    StepsShape(pkg);
    if k < |pre| {
      assert steps[..k] == pre[..k] && steps[k] == pre[k];
      NoChecksumYet(env, pkg, RecordedLink(d), d, pre[..k]);
    } else if k == |pre| {
      assert steps[..|pre|] == pre && steps[|pre|] == WriteChecksum;
      NewPluginBuilt(env, pkg, RecordedLink(d), d);
    } else {
      AfterChecksumNew(env, pkg, d, k, residue);
    }
  }

  /** So a plugin that is not kept would not be found with another service file either. */
  lemma KeptWhateverService(env: Env, pkg: Pkg, d: Disk, k: nat, residue: Option<Content>)
    requires Accepted(env, pkg) && d.live == map[] && k <= |InstallSteps(pkg)|
    ensures Complete(env, Interrupted(env, pkg, d, k, residue).live) <==> NewKept(env, pkg, k, residue)
  {
    KeptExactly(env, pkg, d, k, residue);
    ServiceBeforeChecksum(env, pkg, d, k, residue);
  }

  // --- unit and stored service file ---

  /** The unit a crash at step k leaves. */
  function UnitAt(pkg: Pkg, d: Disk, k: nat, residue: Option<Content>): Option<Content> {
    if k < UnitStep(pkg) then d.unit
    else if k == UnitStep(pkg) then (if residue.Some? then residue else d.unit)
    else Some(pkg.service)
  }

  lemma UnitAfterTorn(env: Env, pkg: Pkg, d: Disk, s: Step, residue: Option<Content>)
    ensures Torn(env, pkg, d, s, residue).unit == if s.WriteUnit? && residue.Some? then residue else d.unit
  {
  }

  lemma UnitLeft(env: Env, pkg: Pkg, d: Disk, k: nat, residue: Option<Content>)
    requires k <= |InstallSteps(pkg)|
    ensures Interrupted(env, pkg, d, k, residue).unit == UnitAt(pkg, d, k, residue)
  {
    var steps := InstallSteps(pkg);
    var before := Run(env, pkg, RecordedLink(d), d, steps[..k]);
    UnitWritten(env, pkg, RecordedLink(d), d, steps, k);
    UnitStepAmong(pkg, k);
    assert before.unit == if k > UnitStep(pkg) then Some(pkg.service) else d.unit;
    if k < |steps| {
      UnitAfterTorn(env, pkg, before, steps[k], residue);
    } else {
      StepsShape(pkg);
    }
  }

  /** Unit and stored service file disagree after a crash and the recovery, by where the crash hit. */
  predicate Disagree(env: Env, pkg: Pkg, d: Disk, k: nat, residue: Option<Content>) {
    var unit := UnitAt(pkg, d, k, residue);
    NewKept(env, pkg, k, residue) && unit.Some? && unit.value != pkg.service
  }

  /** After a crash and recovery the two disagree exactly when the new plugin was kept and the unit
      was still another old one, or the cut-off text of the new one. */
  lemma AgreementAfterCrash(env: Env, pkg: Pkg, d: Disk, k: nat, residue: Option<Content>,
      note: Option<(string, string)>, recovery: Undo)
    requires Accepted(env, pkg) && Discoverable(env, d.live)
    requires k <= |InstallSteps(pkg)| && !CutOff(recovery)
    ensures UnitAgrees(Recovered(env, Crashed(env, pkg, d, k, residue, note), recovery)) <==>
        !Disagree(env, pkg, d, k, residue)
  {
    var prepared := Prepared(d).(saved := Some(Saved(Preserved(d), note)));
    InterruptedKeepsSaved(env, pkg, prepared, k, residue);
    LiveIsNewOrUndiscoverable(env, pkg, prepared, k, residue);
    KeptExactly(env, pkg, prepared, k, residue);
    UnitLeft(env, pkg, prepared, k, residue);
    PreservedDiscoverable(env, d);
  }

  /** Without cut-off writes some crash point leads to disagreement exactly when the plugin had a unit
      other than the new service file: the steps from the signature up to the unit are such points. */
  lemma DisagreementIffServiceChanges(env: Env, pkg: Pkg, d: Disk)
    requires Accepted(env, pkg) && Discoverable(env, d.live)
    ensures (exists k: nat :: k <= |InstallSteps(pkg)| && Disagree(env, pkg, d, k, None))
      <==> d.unit.Some? && d.unit.value != pkg.service
  {
    StepsShape(pkg);
    if d.unit.Some? && d.unit.value != pkg.service {
      assert Disagree(env, pkg, d, |StepsBeforeChecksum(pkg)| + 1, None);
    }
  }

  /** What such a disagreement does next: any install that then fails and is rolled back leaves the
      binary, files and manifest of the kept package beside the text of the old or cut-off unit. */
  lemma FailedInstallMixes(env: Env, pkg: Pkg, d: Disk, k: nat, residue: Option<Content>,
      note: Option<(string, string)>, recovery: Undo, next: Pkg, j: nat, torn: Option<Content>, undo: Undo)
    requires Accepted(env, pkg) && Discoverable(env, d.live)
    requires k <= |InstallSteps(pkg)| && Disagree(env, pkg, d, k, residue)
    requires !ForeignLink(env, Recovered(env, Crashed(env, pkg, d, k, residue, note), recovery))
        && j < |InstallSteps(next)|
    requires !CutOff(undo)
    ensures var recovered := Recovered(env, Crashed(env, pkg, d, k, residue, note), recovery);
      var after := AfterFailure(env, next, Reconciled(env, recovered), j, torn, undo);
      var text := UnitAt(pkg, d, k, residue).value;
      && AllNew(env, pkg, recovered.live) && text != pkg.service
      && after.live == recovered.live[Service := File(text)]
      && Discoverable(env, after.live)
  {
    var prepared := Prepared(d).(saved := Some(Saved(Preserved(d), note)));
    InterruptedKeepsSaved(env, pkg, prepared, k, residue);
    LiveIsNewOrUndiscoverable(env, pkg, prepared, k, residue);
    KeptExactly(env, pkg, prepared, k, residue);
    UnitLeft(env, pkg, prepared, k, residue);
    var start := Reconciled(env, Recovered(env, Crashed(env, pkg, d, k, residue, note), recovery));
    PreservedDiscoverable(env, start);
    FailureRestoresPreserved(env, next, start, j, torn, undo);
  }

  function RowOf(pkg: Pkg): Record {
    Record(pkg.version, pkg.sha256, pkg.binPath)
  }

  lemma UpsertWrites(env: Env, pkg: Pkg, recorded: Option<string>, d: Disk)
    ensures Run(env, pkg, recorded, d, InstallSteps(pkg)).record == Some(RowOf(pkg))
  {
    var steps := InstallSteps(pkg);
    var n := |steps|;
    StepsShape(pkg);
    assert steps == steps[..n - 1] + [Upsert];
    RunSnoc(env, pkg, recorded, d, steps[..n - 1], Upsert);
  }

  lemma RowLeft(env: Env, pkg: Pkg, d: Disk, k: nat, residue: Option<Content>)
    requires k <= |InstallSteps(pkg)|
    ensures Interrupted(env, pkg, d, k, residue).record ==
        if k < |InstallSteps(pkg)| then d.record else Some(RowOf(pkg))
  {
    InterruptedKeepsSaved(env, pkg, d, k, residue);
    UpsertWrites(env, pkg, RecordedLink(d), d);
    assert InstallSteps(pkg)[..|InstallSteps(pkg)|] == InstallSteps(pkg);
  }

  lemma RecoveryKeepsRow(env: Env, d: Disk, recovery: Undo)
    ensures Recovered(env, d, recovery).record == d.record
  {
  }

  /** The row after a crash and recovery: of two different rows it is the new package's exactly when the
      crash came after it was written. Recovery itself never looks at it. */
  lemma RowAfterCrash(env: Env, pkg: Pkg, d: Disk, k: nat, residue: Option<Content>, note: Option<(string, string)>,
      recovery: Undo)
    requires k <= |InstallSteps(pkg)| && d.record != Some(RowOf(pkg))
    ensures var after := Recovered(env, Crashed(env, pkg, d, k, residue, note), recovery);
      && (after.record == Some(RowOf(pkg)) <==> k == |InstallSteps(pkg)|)
      && (after.record == d.record <==> k < |InstallSteps(pkg)|)
  {
    RowLeft(env, pkg, Prepared(d).(saved := Some(Saved(Preserved(d), note))), k, residue);
    RecoveryKeepsRow(env, Crashed(env, pkg, d, k, residue, note), recovery);
  }

  // --- a link note cut short ---

  /** A crash while the recorded link is noted, then recovery: the restored link is whatever the note
      says, and every later start fails on it, changing nothing, exactly when the note is of another
      target (its text was cut short). */
  lemma TornNoteStopsEveryStart(env: Env, d: Disk, path: string, noted: string)
    requires Discoverable(env, d.live) && OwnsLink(env, d, path) && RecordedLink(d) == Some(path)
    ensures var crashed := Prepared(d).(saved := Some(Saved(Preserved(d), Some((path, noted)))));
      var recovered := Recovered(env, crashed, Work);
      && recovered.live == Preserved(d) && recovered.links == d.links[path := Symlink(noted)]
      && (noted != env.target <==> forall others: Others, newLink ::
            Opened(env, recovered, others, None, Work, newLink) == Halted(recovered))
  {
    var recovered := Recovered(env, Prepared(d).(saved := Some(Saved(Preserved(d), Some((path, noted))))), Work);
    PreservedDiscoverable(env, d);
    var nobody := Others(false, {});
    assert noted == env.target ==> Opened(env, recovered, nobody, None, Work, None).Ready?;
  }
}
