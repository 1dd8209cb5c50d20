/** Whole calls of `install_plugin`, and what any history of them keeps. */
module PluginCalls {
  import opened PluginCrashes
  import opened PluginCuts
  import opened PluginDisk
  import opened PluginTransactions
  import opened Wrappers

  /** What goes wrong while installing: preparing is cut off or fails, which ends the call without
      rollback; or noting the recorded link is or does, likewise; or the environment makes step `at`
      fail, or the device stops there, leaving `residue` of what was being written. A stop at the step
      after the last one hits the deletion of the rollback data. */
  datatype Fault =
    | StopsPreparing(stage: Preparing)
    | StopsNoting(note: Option<(string, string)>)
    | Fails(at: nat, residue: Option<Content>)
    | Crashes(at: nat, residue: Option<Content>)

  /** One call, and everything its course depends on beside the disk. */
  datatype Call =
    Call(pkg: Pkg, others: Others, halt: Option<Stage>, recovery: Undo, fault: Option<Fault>, undo: Undo)

  predicate StopsEarly(fault: Option<Fault>) {
    fault.Some? && (fault.value.StopsPreparing? || fault.value.StopsNoting?)
  }

  predicate StopsInPreparing(fault: Option<Fault>) {
    fault.Some? && fault.value.StopsPreparing?
  }

  predicate Hits(fault: Option<Fault>, i: nat) {
    fault.Some? && !StopsEarly(fault) && fault.value.at == i
  }

  predicate CrashesAt(fault: Option<Fault>, i: nat) {
    fault.Some? && fault.value.Crashes? && fault.value.at == i
  }

  /** Step i stops the install: the environment fails it, or its own path is taken by something else. */
  predicate Stops(env: Env, pkg: Pkg, begun: Disk, steps: seq<Step>, fault: Option<Fault>, i: nat)
    requires i < |steps|
  {
    Hits(fault, i) || BlockedAt(env, pkg, begun, steps, i)
  }

  predicate BlockedAt(env: Env, pkg: Pkg, begun: Disk, steps: seq<Step>, i: nat)
    requires i < |steps|
  {
    Blocked(env, pkg, RecordedLink(begun), Run(env, pkg, RecordedLink(begun), begun, steps[..i]), steps[i])
  }

  /** The first of the first n steps that stops the install, or n. */
  function FirstStop(env: Env, pkg: Pkg, begun: Disk, steps: seq<Step>, fault: Option<Fault>, n: nat): (k: nat)
    requires n <= |steps|
    ensures k <= n && (k < n ==> Stops(env, pkg, begun, steps, fault, k))
    ensures forall i :: 0 <= i < k ==> !Stops(env, pkg, begun, steps, fault, i)
  {
    if n == 0 then 0
    else
      var k := FirstStop(env, pkg, begun, steps, fault, n - 1);
      if k < n - 1 || Stops(env, pkg, begun, steps, fault, n - 1) then k else n
  }

  function StopOf(env: Env, pkg: Pkg, begun: Disk, fault: Option<Fault>): (k: nat)
    ensures k <= |InstallSteps(pkg)|
  {
    FirstStop(env, pkg, begun, InstallSteps(pkg), fault, |InstallSteps(pkg)|)
  }

  function ResidueAt(fault: Option<Fault>, k: nat): Option<Content> {
    if Hits(fault, k) then fault.value.residue else None
  }

  function OpenedFor(env: Env, d: Disk, c: Call): Start {
    Opened(env, d, c.others, c.halt, c.recovery, c.pkg.binPath)
  }

  /** The part of a call from `prepare_rollback` on. */
  function Attempted(env: Env, start: Disk, c: Call): Disk {
    if StopsInPreparing(c.fault) then PreparedUpTo(start, c.fault.value.stage)
    else if ForeignLink(env, start) then Prepared(start)
    else if StopsEarly(c.fault) then Prepared(start).(saved := Some(Saved(Preserved(start), c.fault.value.note)))
    else
      var begun := LinkNoted(env, Prepared(start));
      var k := StopOf(env, c.pkg, begun, c.fault);
      if CrashesAt(c.fault, k) then Interrupted(env, c.pkg, begun, k, ResidueAt(c.fault, k))
      else if k < |InstallSteps(c.pkg)| then AfterFailure(env, c.pkg, start, k, ResidueAt(c.fault, k), c.undo)
      else Run(env, c.pkg, RecordedLink(start), begun, InstallSteps(c.pkg)).(saved := None)
  }

  /** `install_plugin`, from opening the store to rollback or cleanup, or up to a crash. */
  function InstallCall(env: Env, d: Disk, c: Call): Disk {
    match OpenedFor(env, d, c)
    case Halted(disk) => disk
    case Ready(start) => Attempted(env, start, c)
  }

  /** Installing gets to its steps. */
  predicate Begins(env: Env, d: Disk, c: Call) {
    OpenedFor(env, d, c).Ready? && !ForeignLink(env, OpenedFor(env, d, c).disk) && !StopsEarly(c.fault)
  }

  /** Where they stop. */
  function StopIn(env: Env, d: Disk, c: Call): (k: nat)
    ensures k <= |InstallSteps(c.pkg)|
  {
    StopOf(env, c.pkg, LinkNoted(env, Prepared(OpenedFor(env, d, c).disk)), c.fault)
  }

  /** Some step stops the call, and it rolls back. */
  predicate FailsIn(env: Env, d: Disk, c: Call) {
    var k := StopIn(env, d, c);
    Begins(env, d, c) && k < |InstallSteps(c.pkg)| && !CrashesAt(c.fault, k)
  }

  /** The call reports success. */
  predicate Succeeds(env: Env, d: Disk, c: Call) {
    var k := StopIn(env, d, c);
    Begins(env, d, c) && k == |InstallSteps(c.pkg)| && !CrashesAt(c.fault, k)
  }

  function History(env: Env, d: Disk, calls: seq<Call>): Disk {
    if calls == [] then d
    else
      var n := |calls| - 1;
      InstallCall(env, History(env, d, calls[..n]), calls[n])
  }

  /** Calls that get past the checks come with a package the parser accepted. */
  ghost predicate WellFormed(env: Env, c: Call) {
    c.halt.None? ==> Accepted(env, c.pkg)
  }

  // --- opening the store ---

  /** A recovery that is cut off where it loses the plugin. */
  predicate LosesRecovering(env: Env, d: Disk, recovery: Undo) {
    RollsBack(env, d) && recovery.Restoring? && 1 <= recovery.restored <= 6
  }

  /** A recovery that works, or is not needed, makes the plugin there is the live one; one that is cut
      off keeps it, or loses it. */
  lemma RecoveryFinds(env: Env, d: Disk, recovery: Undo)
    ensures var after := Recovered(env, d, recovery);
      && Found(env, after) == (if LosesRecovering(env, d, recovery) then None else Found(env, d))
      && after.record == d.record
      && (Found(env, d).None? ==> after == d)
      && (!(RollsBack(env, d) && RollbackFails(d, recovery)) ==>
            (Found(env, d).Some? ==> after.live == Found(env, d).value) && !RollsBack(env, after))
  {
    if RollsBack(env, d) {
      RollbackFinds(env, d, RecordedLink(d), recovery);
    }
  }

  /** Where opening can end. */
  lemma OpeningStages(env: Env, d: Disk, c: Call)
    ensures var at := OpenedFor(env, d, c); var recovered := Recovered(env, d, c.recovery);
      var found := Discovered(env, c.others, recovered);
      && (at.disk == d || at.disk == recovered || at.disk == found || at.disk == Reconciled(env, found))
      && (at.Ready? ==> at.disk == Reconciled(env, found) && c.halt.None?)
  {
    match c.halt {
      case None =>
      case Some(Opening) =>
      case Some(Recovering) =>
      case Some(Discovering) =>
      case Some(Reconciling) =>
    }
  }

  lemma OpeningStartsThere(env: Env, d: Disk, c: Call)
    ensures var at := OpenedFor(env, d, c); var recovered := Recovered(env, d, c.recovery);
      && (at.disk == d
          || (at.disk.live == recovered.live && at.disk.saved == recovered.saved && at.disk.unit == recovered.unit))
      && (at.Ready? ==> c.halt.None? && at.disk.live == recovered.live)
  {
    OpeningStages(env, d, c);
  }

  /** Once opening is through, the recorded link of an installed binary is ours. */
  lemma OpeningLinks(env: Env, d: Disk, c: Call)
    requires OpenedFor(env, d, c).Ready?
    ensures var start := OpenedFor(env, d, c).disk;
      HasBinary(env, start.live) && RecordedLink(start).Some? ==> OwnsLink(env, start, RecordedLink(start).value)
  {
  }

  /** The call gets to registering the plugin found on disk, and no other plugin has its names. */
  predicate Registers(env: Env, live: Dir, c: Call) {
    && c.halt != Some(Opening) && c.halt != Some(Recovering)
    && Discoverable(env, live) && NamesFree(c.others, ManifestRow(env, live).binPath)
  }

  predicate RecoveryWorks(env: Env, d: Disk, c: Call) {
    !(RollsBack(env, d) && RollbackFails(d, c.recovery))
  }

  lemma OpeningKeepsRow(env: Env, d: Disk, c: Call)
    ensures var at := OpenedFor(env, d, c);
      && (d.record.Some? || Found(env, d).None? ==> at.disk.record == d.record)
      && (d.record.None? && Found(env, d).Some? ==>
            at.disk.record ==
              if Registers(env, Found(env, d).value, c) && RecoveryWorks(env, d, c)
              then Some(ManifestRow(env, Found(env, d).value))
              else None)
  {
    RecoveryFinds(env, d, c.recovery);
  }

  /** Opening loses the plugin exactly when its recovery is cut off between the first restoration and the
      last. */
  predicate LosesOpening(env: Env, d: Disk, c: Call) {
    c.halt != Some(Opening) && LosesRecovering(env, d, c.recovery)
  }

  /** Otherwise opening, however it ends, keeps the plugin there is; once it is through, that plugin is
      live and its recorded link is ours. */
  lemma OpeningKeepsPlugin(env: Env, d: Disk, c: Call)
    requires Found(env, d).Some? || Bare(env, d)
    ensures var at := OpenedFor(env, d, c);
      && Found(env, at.disk) == (if LosesOpening(env, d, c) then None else Found(env, d))
      && (Bare(env, d) ==> Bare(env, at.disk))
      && (at.Ready? ==>
            && c.halt.None? && !ForeignLink(env, at.disk) && !LosesOpening(env, d, c)
            && (Found(env, d).Some? ==> at.disk.live == Found(env, d).value)
            && (Found(env, d).Some? && RecordedLink(at.disk).Some? ==>
                OwnsLink(env, at.disk, RecordedLink(at.disk).value)))
  {
    var at := OpenedFor(env, d, c);
    BareIsUnfound(env, d);
    RecoveryFinds(env, d, c.recovery);
    OpeningStages(env, d, c);
    OpeningKeepsRow(env, d, c);
    if at.Ready? {
      OpeningLinks(env, d, c);
    }
  }

  lemma BareIsUnfound(env: Env, d: Disk)
    ensures Bare(env, d) ==> Found(env, d).None?
  {
    assert Discoverable(env, d.live) ==> Complete(env, d.live);
    assert d.saved.Some? && Discoverable(env, d.saved.value.dir) ==> Complete(env, d.saved.value.dir);
  }

  // --- refusals ---

  /** Installing refuses after setting the plugin aside. */
  predicate Refuses(env: Env, d: Disk, c: Call) {
    OpenedFor(env, d, c).Ready? && ForeignLink(env, OpenedFor(env, d, c).disk) && !StopsInPreparing(c.fault)
  }

  /** A call that nothing else stops refuses exactly when the recorded link is somebody else's, the
      plugin's binary is missing, and no complete plugin is set aside. It then just sets aside what
      is there. */
  lemma RefusesIff(env: Env, d: Disk, c: Call)
    requires c.halt.None? && NamesFree(c.others, c.pkg.binPath) && !StopsInPreparing(c.fault)
    ensures Refuses(env, d, c) <==> ForeignLink(env, d) && !HasBinary(env, d.live) && !RollsBack(env, d)
    ensures Refuses(env, d, c) ==> InstallCall(env, d, c) == Prepared(d)
  {
    RecoveryFinds(env, d, c.recovery);
    if OpenedFor(env, d, c).Ready? {
      OpeningLinks(env, d, c);
    }
  }

  /** What a refusal set aside is never restored, as it has no binary; the next call refuses again and
      deletes it. Only a copy of the systemd unit is left. */
  lemma RefusedFilesAreLost(env: Env, d: Disk, first: Call, second: Call)
    requires first.halt.None? && NamesFree(first.others, first.pkg.binPath) && !StopsInPreparing(first.fault)
    requires second.halt.None? && NamesFree(second.others, second.pkg.binPath) && !StopsInPreparing(second.fault)
    requires Refuses(env, d, first)
    ensures var once := InstallCall(env, d, first); var twice := InstallCall(env, once, second);
      && Found(env, once).None? && Refuses(env, once, second)
      && twice.live == map[]
      && twice.saved == Some(Saved(if d.unit.Some? then map[Service := File(d.unit.value)] else map[], None))
  {
    RefusesIff(env, d, first);
    var once := Prepared(d);
    assert HasBinary(env, Preserved(d)) <==> HasBinary(env, d.live);
    RefusesIff(env, once, second);
  }

  /** Such a disk: a recorded link replaced by a plain file, and a plugin directory without binary. */
  lemma RefusalExample(env: Env, pkg: Pkg, path: string)
    ensures var d := Disk(map[Package := File("zip")], None, None, map[path := Plain],
        Some(Record("1", "", Some(path))));
      var c := Call(pkg, Others(false, {}), None, Work, None, Work);
      && Refuses(env, d, c)
      && Package !in InstallCall(env, d, c).live
      && Package !in InstallCall(env, InstallCall(env, d, c), c).saved.value.dir
  {
    var d := Disk(map[Package := File("zip")], None, None, map[path := Plain], Some(Record("1", "", Some(path))));
    var c := Call(pkg, Others(false, {}), None, Work, None, Work);
    RefusesIff(env, d, c);
    RefusedFilesAreLost(env, d, c, c);
  }

  /** With the recorded link in somebody else's hands and the plugin whole, every call of any history
      stops while opening and nothing changes at all. */
  lemma {:induction false} ForeignLinkStopsEveryCall(env: Env, d: Disk, calls: seq<Call>)
    requires LinkTaken(env, d) && d.saved.None?
    ensures History(env, d, calls) == d
  {
    if calls != [] {
      ForeignLinkStopsEveryCall(env, d, calls[..|calls| - 1]);
    }
  }

  // --- one attempt ---

  lemma CompletedInstall(env: Env, pkg: Pkg, start: Disk)
    requires Accepted(env, pkg)
    ensures var done := Run(env, pkg, RecordedLink(start), LinkNoted(env, Prepared(start)), InstallSteps(pkg));
      && Installed(env, pkg, done.live) && Discoverable(env, done.live)
      && done.unit == Some(pkg.service) && done.record == Some(RowOf(pkg))
  {
    var begun, steps := LinkNoted(env, Prepared(start)), InstallSteps(pkg);
    InterruptedCleanupKeepsNew(env, pkg, begun, None);
    UnitWritten(env, pkg, RecordedLink(start), begun, steps, |steps|);
    UnitStepAmong(pkg, |steps|);
    assert steps[..|steps|] == steps;
    StepsShape(pkg);
    UpsertWrites(env, pkg, RecordedLink(start), begun);
  }

  /** The directory is the other one, but for the text of the service file and for signatures it may have
      lost. */
  predicate Alike(a: Dir, b: Dir) {
    && a - {Service, Sig, Sign} == b - {Service, Sig, Sign}
    && (Sig in a ==> Sig in b && a[Sig] == b[Sig])
    && (Sign in a ==> Sign in b && a[Sign] == b[Sign])
  }

  /** All of a package, but for what the service file says. */
  ghost predicate AllNewButService(env: Env, pkg: Pkg, live: Dir) {
    AllNew(env, pkg, live[Service := File(pkg.service)])
  }

  lemma AlikeKeepsNew(env: Env, pkg: Pkg, a: Dir, b: Dir)
    requires Alike(b, a) && AllNewButService(env, pkg, a)
    ensures AllNewButService(env, pkg, b)
  {
    var a', b' := a[Service := File(pkg.service)], b[Service := File(pkg.service)];
    forall e: Entry
      ensures e in Unsigned(a') <==> e in Unsigned(b')
      ensures e in Unsigned(a') ==> Unsigned(a')[e] == Unsigned(b')[e]
    {
      if e !in {Service, Sig, Sign} {
        AlikeAt(a, b, e);
      }
    }
    assert Unsigned(a') == Unsigned(b');
    NewIgnoresSignatures(env, pkg, a', b');
  }

  lemma AlikeAt(a: Dir, b: Dir, e: Entry)
    requires Alike(b, a) && e !in {Service, Sig, Sign}
    ensures (e in a <==> e in b) && (e in a ==> a[e] == b[e])
  {
    assert e in a - {Service, Sig, Sign} <==> e in b - {Service, Sig, Sign};
    assert e in a - {Service, Sig, Sign} ==> (a - {Service, Sig, Sign})[e] == a[e];
    assert e in b - {Service, Sig, Sign} ==> (b - {Service, Sig, Sign})[e] == b[e];
  }

  lemma PreservedAlike(d: Disk)
    ensures Alike(Preserved(d), d.live)
  {
  }
}
