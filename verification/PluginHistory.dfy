/** What any history of installs keeps: with crashes the plugin is wholly one package's but for its
    service file, and without them so are service file, unit, row and link. */
module PluginHistory {
  import opened PluginCalls
  import opened PluginCrashes
  import opened PluginCuts
  import opened PluginDisk
  import opened PluginTransactions
  import opened Wrappers

  // --- histories with failures and crashes ---

  /** How much of a failed install's directory a rollback that is cut off leaves: all of it, or with the
      binary but without all of the other files. */
  ghost predicate LeavesNew(env: Env, pkg: Pkg, undo: Undo) {
    || (undo.Clearing? && undo.removed == 0)
    || (undo.ClearingCurrent? && env.id in undo.left && NewFiles(env, pkg, |pkg.customFiles|).Keys <= undo.left)
  }

  ghost predicate LeavesMixture(env: Env, pkg: Pkg, undo: Undo) {
    undo.ClearingCurrent? && env.id in undo.left && !(NewFiles(env, pkg, |pkg.customFiles|).Keys <= undo.left)
  }

  /** The call leaves its package in place: it succeeds, or it is cut off late enough, while installing or
      at the start of its rollback. */
  ghost predicate Keeps(env: Env, d: Disk, c: Call) {
    var k := StopIn(env, d, c);
    && Begins(env, d, c)
    && (Succeeds(env, d, c) || NewKept(env, c.pkg, k, ResidueAt(c.fault, k)))
    && (FailsIn(env, d, c) ==> LeavesNew(env, c.pkg, c.undo))
  }

  /** Cut off in the middle of its moves, the call loses the plugin there was. */
  predicate Loses(env: Env, d: Disk, c: Call) {
    || LosesOpening(env, d, c)
    || (OpenedFor(env, d, c).Ready? && LosesPreparing(c.fault))
    || (FailsIn(env, d, c) && c.undo.Restoring? && 1 <= c.undo.restored <= 6)
  }

  predicate LosesPreparing(fault: Option<Fault>) {
    StopsInPreparing(fault) && fault.value.stage.Moving? && 1 <= fault.value.stage.n <= 4
  }

  /** Cut off while the new plugin is removed, the call leaves its binary without all of its files. */
  ghost predicate Mixes(env: Env, d: Disk, c: Call) {
    var k := StopIn(env, d, c);
    FailsIn(env, d, c) && NewKept(env, c.pkg, k, ResidueAt(c.fault, k)) && LeavesMixture(env, c.pkg, c.undo)
  }

  /** Cut off while preparing, the call moves an incomplete plugin away from the bad signature that
      kept it from being found. */
  predicate Revives(env: Env, d: Disk, c: Call) {
    && OpenedFor(env, d, c).Ready? && StopsInPreparing(c.fault) && c.fault.value.stage.Moving?
    && Complete(env, Moved(OpenedFor(env, d, c).disk.live, Away, c.fault.value.stage.n))
  }

  /** The call is not cut off at one of the points where that does harm. */
  ghost predicate Harmless(env: Env, d: Disk, c: Call) {
    !Loses(env, d, c) && !Mixes(env, d, c) && (Bare(env, d) ==> !Revives(env, d, c))
  }

  ghost function KeptBy(env: Env, d: Disk, c: Call): Option<Pkg> {
    if Keeps(env, d, c) then Some(c.pkg) else None
  }

  ghost function LastKept(env: Env, d: Disk, calls: seq<Call>): Option<Pkg> {
    if calls == [] then None
    else
      var n := |calls| - 1;
      if Keeps(env, History(env, d, calls[..n]), calls[n]) then Some(calls[n].pkg) else LastKept(env, d, calls[..n])
  }

  /** The plugin the next start finds is wholly that of `last` but for its service file; without one it is
      the plugin of `first`, or there is none as there was none. */
  ghost predicate Holds(env: Env, first: Disk, last: Option<Pkg>, now: Disk) {
    && (Found(env, now).Some? || Bare(env, now))
    && match last
       case Some(pkg) => Found(env, now).Some? && AllNewButService(env, pkg, Found(env, now).value)
       case None =>
         && (Found(env, now).Some? <==> Found(env, first).Some?)
         && (Found(env, now).Some? ==> Alike(Found(env, now).value, Found(env, first).value))
  }

  lemma HoldsChains(env: Env, first: Disk, last: Option<Pkg>, mid: Disk, newer: Option<Pkg>, now: Disk)
    requires Holds(env, first, last, mid) && Holds(env, mid, newer, now)
    ensures Holds(env, first, if newer.Some? then newer else last, now)
  {
    if newer.None? && last.Some? {
      AlikeKeepsNew(env, last.value, Found(env, mid).value, Found(env, now).value);
    }
  }

  lemma HoldsFrom(env: Env, first: Disk, other: Disk, last: Option<Pkg>, now: Disk)
    requires Found(env, first) == Found(env, other) && Holds(env, other, last, now)
    ensures Holds(env, first, last, now)
  {
  }

  // --- one attempt, by where it stops ---

  lemma BareParts(env: Env, dir: Dir)
    requires !Complete(env, dir)
    ensures forall n: nat :: !Complete(env, Moved(dir, Back, n)) && !Complete(env, Unmoved(dir, Back, n))
    ensures forall n: nat :: !Complete(env, Unmoved(dir, Away, n))
    ensures forall text :: !Complete(env, dir[Service := File(text)])
    ensures forall left :: !Complete(env, Trimmed(dir, left))
  {
    forall n: nat
      ensures !Complete(env, Moved(dir, Back, n)) && !Complete(env, Unmoved(dir, Back, n))
      ensures !Complete(env, Unmoved(dir, Away, n))
    {
      assert n == 0 ==> Unmoved(dir, Back, n) == dir && Unmoved(dir, Away, n) == dir;
      assert n >= 7 ==> Moved(dir, Back, n) == dir;
      assert n <= 6 ==> Checksum !in Moved(dir, Back, n);
      assert n >= 1 ==> Current !in Unmoved(dir, Back, n) && Current !in Unmoved(dir, Away, n);
    }
    forall text
      ensures !Complete(env, dir[Service := File(text)])
    {
      assert dir[Service := File(text)][Service := File("")] == dir[Service := File("")];
    }
  }

  lemma PreparingStopHolds(env: Env, start: Disk, stage: Preparing)
    requires Discoverable(env, start.live) || Bare(env, start)
    requires !(stage.Moving? && 1 <= stage.n <= 4)
    requires Bare(env, start) ==> !(stage.Moving? && Complete(env, Moved(start.live, Away, stage.n)))
    ensures Holds(env, start, None, PreparedUpTo(start, stage))
  {
    BareIsUnfound(env, start);
    BareIsUnfound(env, PreparedUpTo(start, stage));
    if Discoverable(env, start.live) {
      PreparingCutOff(env, start, stage);
    } else {
      BareParts(env, start.live);
      assert !Complete(env, map[]);
    }
  }

  lemma NotingStopHolds(env: Env, start: Disk, note: Option<(string, string)>)
    requires Discoverable(env, start.live) || Bare(env, start)
    ensures Holds(env, start, None, Prepared(start).(saved := Some(Saved(Preserved(start), note))))
  {
    PreservedAlike(start);
    BareIsUnfound(env, start);
    if Discoverable(env, start.live) {
      PreservedDiscoverable(env, start);
    } else {
      BareParts(env, start.live);
      BareIsUnfound(env, Prepared(start).(saved := Some(Saved(Preserved(start), note))));
    }
  }

  lemma CrashedAttemptHolds(env: Env, start: Disk, pkg: Pkg, k: nat, residue: Option<Content>)
    requires Accepted(env, pkg) && k <= |InstallSteps(pkg)|
    requires Discoverable(env, start.live) || Bare(env, start)
    ensures Holds(env, start, if NewKept(env, pkg, k, residue) then Some(pkg) else None,
                  Interrupted(env, pkg, LinkNoted(env, Prepared(start)), k, residue))
  {
    var begun := LinkNoted(env, Prepared(start));
    var now := Interrupted(env, pkg, begun, k, residue);
    InterruptedKeepsSaved(env, pkg, begun, k, residue);
    LiveIsNewOrUndiscoverable(env, pkg, begun, k, residue);
    KeptExactly(env, pkg, begun, k, residue);
    KeptWhateverService(env, pkg, begun, k, residue);
    StepsShape(pkg);
    PreservedAlike(start);
    BareIsUnfound(env, start);
    if Discoverable(env, start.live) {
      PreservedDiscoverable(env, start);
    } else {
      BareParts(env, start.live);
      BareIsUnfound(env, now);
    }
    if NewKept(env, pkg, k, residue) {
      assert now.live[Service := File(pkg.service)] == now.live;
    }
  }

  /** A rollback of a discoverable plugin. */
  lemma RollbackHolds(env: Env, start: Disk, pkg: Pkg, k: nat, residue: Option<Content>, undo: Undo)
    requires Accepted(env, pkg) && k < |InstallSteps(pkg)| && Discoverable(env, start.live)
    requires !(undo.Restoring? && 1 <= undo.restored <= 6)
    requires !(NewKept(env, pkg, k, residue) && LeavesMixture(env, pkg, undo))
    ensures Holds(env, start, if NewKept(env, pkg, k, residue) && LeavesNew(env, pkg, undo) then Some(pkg) else None,
                  AfterFailure(env, pkg, start, k, residue, undo))
  {
    var begun := LinkNoted(env, Prepared(start));
    var broken := Interrupted(env, pkg, begun, k, residue);
    InterruptedKeepsSaved(env, pkg, begun, k, residue);
    KeptExactly(env, pkg, begun, k, residue);
    PreservedAlike(start);
    PreservedDiscoverable(env, start);
    RollbackFinds(env, broken, pkg.binPath, undo);
    if NewKept(env, pkg, k, residue) {
      LiveIsNewOrUndiscoverable(env, pkg, begun, k, residue);
      assert broken.live[Service := File(pkg.service)] == broken.live;
      if undo.ClearingCurrent? && env.id in undo.left {
        TrimmedIsNewIff(env, pkg, broken.live, undo.left);
        var trimmed := Trimmed(broken.live, undo.left);
        assert trimmed[Service := File(pkg.service)] == trimmed;
      }
    }
  }

  lemma BareUndoneHolds(env: Env, start: Disk, pkg: Pkg, k: nat, residue: Option<Content>, undo: Undo)
    requires k < |InstallSteps(pkg)| && Bare(env, start) && !CutOff(undo)
    ensures Holds(env, start, None, AfterFailure(env, pkg, start, k, residue, undo))
  {
    FailureRestoresPreserved(env, pkg, start, k, residue, undo);
    BareParts(env, start.live);
    assert !Complete(env, map[]);
    BareIsUnfound(env, start);
    BareIsUnfound(env, AfterFailure(env, pkg, start, k, residue, undo));
  }

  lemma BareCutHolds(env: Env, start: Disk, pkg: Pkg, broken: Disk, kept: bool, undo: Undo)
    requires Bare(env, start) && CutOff(undo)
    requires broken.record == start.record
    requires broken.saved.Some? && !Complete(env, broken.saved.value.dir)
    requires if kept then AllNew(env, pkg, broken.live) && Discoverable(env, broken.live)
             else !Complete(env, broken.live)
    requires !(kept && LeavesMixture(env, pkg, undo))
    ensures Holds(env, start, if kept && LeavesNew(env, pkg, undo) then Some(pkg) else None, RollbackCut(broken, undo))
  {
    BareIsUnfound(env, start);
    BareIsUnfound(env, RollbackCut(broken, undo));
    BareParts(env, broken.saved.value.dir);
    if kept {
      BareClearing(env, pkg, broken.live, undo);
    } else {
      BareParts(env, broken.live);
    }
  }

  /** A rollback to a directory without a plugin. */
  lemma BareRollbackHolds(env: Env, start: Disk, pkg: Pkg, k: nat, residue: Option<Content>, undo: Undo)
    requires Accepted(env, pkg) && k < |InstallSteps(pkg)| && Bare(env, start)
    requires !(NewKept(env, pkg, k, residue) && LeavesMixture(env, pkg, undo))
    ensures Holds(env, start, if NewKept(env, pkg, k, residue) && LeavesNew(env, pkg, undo) then Some(pkg) else None,
                  AfterFailure(env, pkg, start, k, residue, undo))
  {
    if !CutOff(undo) {
      BareUndoneHolds(env, start, pkg, k, residue, undo);
    } else {
      var begun := LinkNoted(env, Prepared(start));
      InterruptedKeepsSaved(env, pkg, begun, k, residue);
      KeptExactly(env, pkg, begun, k, residue);
      KeptWhateverService(env, pkg, begun, k, residue);
      LiveIsNewOrUndiscoverable(env, pkg, begun, k, residue);
      BareParts(env, start.live);
      var broken := DropOwnedLink(env, Interrupted(env, pkg, begun, k, residue), pkg.binPath);
      BareCutHolds(env, start, pkg, broken, NewKept(env, pkg, k, residue), undo);
    }
  }

  /** What clearing a new plugin leaves. */
  lemma BareClearing(env: Env, pkg: Pkg, live: Dir, undo: Undo)
    requires AllNew(env, pkg, live) && Discoverable(env, live)
    ensures undo.Clearing? ==>
      var left := Unmoved(live, Away, undo.removed);
      if undo.removed == 0 then left == live && AllNewButService(env, pkg, left) else !Complete(env, left)
    ensures undo.ClearingCurrent? ==>
      var left := Trimmed(live, undo.left);
      if env.id !in undo.left then !Complete(env, left)
      else
        && Discoverable(env, left)
        && (NewFiles(env, pkg, |pkg.customFiles|).Keys <= undo.left ==> AllNewButService(env, pkg, left))
  {
    assert live[Service := File(pkg.service)] == live;
    if undo.Clearing? {
      assert undo.removed == 0 ==> Unmoved(live, Away, undo.removed) == live;
    } else if undo.ClearingCurrent? {
      if env.id in undo.left {
        TrimmedIsNewIff(env, pkg, live, undo.left);
        var trimmed := Trimmed(live, undo.left);
        assert trimmed[Service := File(pkg.service)] == trimmed;
      }
    }
  }

  lemma CompletedAttemptHolds(env: Env, start: Disk, pkg: Pkg)
    requires Accepted(env, pkg)
    ensures Holds(env, start, Some(pkg),
      Run(env, pkg, RecordedLink(start), LinkNoted(env, Prepared(start)), InstallSteps(pkg)).(saved := None))
  {
    CompletedInstall(env, pkg, start);
    var live := Run(env, pkg, RecordedLink(start), LinkNoted(env, Prepared(start)), InstallSteps(pkg)).live;
    assert live[Service := File(pkg.service)] == live;
  }

  lemma PreparingCallHolds(env: Env, d: Disk, c: Call)
    requires Found(env, d).Some? || Bare(env, d)
    requires Harmless(env, d, c) && OpenedFor(env, d, c).Ready? && StopsInPreparing(c.fault)
    ensures Holds(env, OpenedFor(env, d, c).disk, None, PreparedUpTo(OpenedFor(env, d, c).disk, c.fault.value.stage))
  {
    OpeningKeepsPlugin(env, d, c);
    BareIsUnfound(env, d);
    PreparingStopHolds(env, OpenedFor(env, d, c).disk, c.fault.value.stage);
  }

  lemma EarlyStopHolds(env: Env, d: Disk, c: Call)
    requires Found(env, d).Some? || Bare(env, d)
    requires Harmless(env, d, c) && OpenedFor(env, d, c).Ready? && StopsEarly(c.fault)
    ensures Holds(env, OpenedFor(env, d, c).disk, None, InstallCall(env, d, c))
  {
    if StopsInPreparing(c.fault) {
      PreparingCallHolds(env, d, c);
    } else {
      OpeningKeepsPlugin(env, d, c);
      BareIsUnfound(env, d);
      NotingStopHolds(env, OpenedFor(env, d, c).disk, c.fault.value.note);
    }
  }

  lemma RolledBackHolds(env: Env, d: Disk, c: Call)
    requires Found(env, d).Some? || Bare(env, d)
    requires WellFormed(env, c) && !Loses(env, d, c) && !Mixes(env, d, c) && FailsIn(env, d, c)
    ensures Holds(env, OpenedFor(env, d, c).disk, KeptBy(env, d, c), InstallCall(env, d, c))
  {
    OpeningKeepsPlugin(env, d, c);
    BareIsUnfound(env, d);
    var start, k := OpenedFor(env, d, c).disk, StopIn(env, d, c);
    if Discoverable(env, start.live) {
      RollbackHolds(env, start, c.pkg, k, ResidueAt(c.fault, k), c.undo);
    } else {
      BareRollbackHolds(env, start, c.pkg, k, ResidueAt(c.fault, k), c.undo);
    }
  }

  lemma AttemptHolds(env: Env, d: Disk, c: Call)
    requires (Found(env, d).Some? || Bare(env, d)) && WellFormed(env, c) && Harmless(env, d, c)
    requires OpenedFor(env, d, c).Ready?
    ensures Holds(env, OpenedFor(env, d, c).disk, KeptBy(env, d, c), InstallCall(env, d, c))
  {
    OpeningKeepsPlugin(env, d, c);
    var start, k := OpenedFor(env, d, c).disk, StopIn(env, d, c);
    if StopsEarly(c.fault) {
      EarlyStopHolds(env, d, c);
    } else if FailsIn(env, d, c) {
      RolledBackHolds(env, d, c);
    } else if CrashesAt(c.fault, k) {
      BareIsUnfound(env, d);
      CrashedAttemptHolds(env, start, c.pkg, k, ResidueAt(c.fault, k));
    } else {
      CompletedAttemptHolds(env, start, c.pkg);
    }
  }

  lemma CallHolds(env: Env, d: Disk, c: Call)
    requires (Found(env, d).Some? || Bare(env, d)) && WellFormed(env, c) && Harmless(env, d, c)
    ensures Holds(env, d, KeptBy(env, d, c), InstallCall(env, d, c))
  {
    OpeningKeepsPlugin(env, d, c);
    BareIsUnfound(env, d);
    if OpenedFor(env, d, c).Ready? {
      AttemptHolds(env, d, c);
      HoldsFrom(env, d, OpenedFor(env, d, c).disk, KeptBy(env, d, c), InstallCall(env, d, c));
    }
  }

  lemma LosingCall(env: Env, d: Disk, c: Call)
    requires Found(env, d).Some? && WellFormed(env, c) && Loses(env, d, c)
    ensures Found(env, InstallCall(env, d, c)).None?
  {
    OpeningKeepsPlugin(env, d, c);
    if OpenedFor(env, d, c).Ready? {
      var start, k := OpenedFor(env, d, c).disk, StopIn(env, d, c);
      if StopsInPreparing(c.fault) {
        PreparingCutOff(env, start, c.fault.value.stage);
      } else {
        RollbackFindsIn(env, start, c.pkg, k, ResidueAt(c.fault, k), c.undo);
      }
    }
  }

  lemma MixingCall(env: Env, d: Disk, c: Call)
    requires Found(env, d).Some? && WellFormed(env, c) && Mixes(env, d, c)
    ensures var now := Found(env, InstallCall(env, d, c)); now.Some? && !AllNew(env, c.pkg, now.value)
  {
    OpeningKeepsPlugin(env, d, c);
    var start, k := OpenedFor(env, d, c).disk, StopIn(env, d, c);
    CutClearingMixes(env, c.pkg, start, k, ResidueAt(c.fault, k), c.undo.left);
  }

  /** The plugin there was is lost exactly by the cuts listed in `Loses`. */
  lemma LostIff(env: Env, d: Disk, c: Call)
    requires Found(env, d).Some? && WellFormed(env, c)
    ensures Found(env, InstallCall(env, d, c)).None? <==> Loses(env, d, c)
  {
    if Loses(env, d, c) {
      LosingCall(env, d, c);
    } else if Mixes(env, d, c) {
      MixingCall(env, d, c);
    } else {
      FoundIsNotBare(env, d);
      CallHolds(env, d, c);
    }
  }

  lemma FoundIsNotBare(env: Env, d: Disk)
    requires Found(env, d).Some?
    ensures !Bare(env, d)
  {
    BareIsUnfound(env, d);
  }

  lemma RollbackFindsIn(env: Env, start: Disk, pkg: Pkg, k: nat, residue: Option<Content>, undo: Undo)
    requires Discoverable(env, start.live) && k < |InstallSteps(pkg)| && undo.Restoring?
    ensures Found(env, AfterFailure(env, pkg, start, k, residue, undo)) ==
      if undo.restored == 0 || undo.restored >= 7 then Some(Preserved(start)) else None
  {
    var begun := LinkNoted(env, Prepared(start));
    InterruptedKeepsSaved(env, pkg, begun, k, residue);
    PreservedDiscoverable(env, start);
    RollbackFinds(env, Interrupted(env, pkg, begun, k, residue), pkg.binPath, undo);
  }

  /** All calls of a history are well formed and harmless where they come. */
  ghost predicate AllHarmless(env: Env, d: Disk, calls: seq<Call>) {
    calls == [] ||
    (var n := |calls| - 1;
     && AllHarmless(env, d, calls[..n])
     && WellFormed(env, calls[n]) && Harmless(env, History(env, d, calls[..n]), calls[n]))
  }

  lemma OneMoreCallHolds(env: Env, first: Disk, last: Option<Pkg>, before: Disk, c: Call)
    requires Holds(env, first, last, before) && WellFormed(env, c) && Harmless(env, before, c)
    ensures Holds(env, first, if Keeps(env, before, c) then Some(c.pkg) else last, InstallCall(env, before, c))
  {
    CallHolds(env, before, c);
    HoldsChains(env, first, last, before, KeptBy(env, before, c), InstallCall(env, before, c));
  }

  /** Over any history of calls, with failures, failing reloads, calls stopped while opening and stops at
      any step of recovering, preparing, installing and rolling back but the harmful ones: but for the
      service file's text and lost signatures, what the next start finds is wholly the plugin of the last
      call that kept its package, or the one there was at first. */
  lemma {:induction false} HistoryWithCrashes(env: Env, d: Disk, calls: seq<Call>)
    requires Found(env, d).Some? || Bare(env, d)
    requires AllHarmless(env, d, calls)
    ensures Holds(env, d, LastKept(env, d, calls), History(env, d, calls))
  {
    if calls == [] {
      BareIsUnfound(env, d);
    } else {
      var n := |calls| - 1;
      HistoryWithCrashes(env, d, calls[..n]);
      OneMoreCallHolds(env, d, LastKept(env, d, calls[..n]), History(env, d, calls[..n]), calls[n]);
    }
  }

  // --- rows over such histories ---

  /** The row, if there is one, says what manifest and checksum of the plugin on disk say. */
  predicate RowDescribes(env: Env, d: Disk) {
    d.record.Some? ==> Found(env, d).Some? && d.record.value == ManifestRow(env, Found(env, d).value)
  }

  /** The call gets to writing its row. */
  predicate Upserts(env: Env, d: Disk, c: Call) {
    Begins(env, d, c) && StopIn(env, d, c) == |InstallSteps(c.pkg)|
  }

  lemma RollbackKeepsRow(env: Env, pkg: Pkg, start: Disk, k: nat, residue: Option<Content>, undo: Undo)
    requires k < |InstallSteps(pkg)|
    ensures AfterFailure(env, pkg, start, k, residue, undo).record == start.record
  {
    InterruptedKeepsSaved(env, pkg, LinkNoted(env, Prepared(start)), k, residue);
  }

  lemma RowOfCall(env: Env, d: Disk, c: Call)
    ensures InstallCall(env, d, c).record ==
      if Upserts(env, d, c) then Some(RowOf(c.pkg)) else OpenedFor(env, d, c).disk.record
  {
    var start, k := OpenedFor(env, d, c).disk, StopIn(env, d, c);
    if Begins(env, d, c) {
      if k == |InstallSteps(c.pkg)| || CrashesAt(c.fault, k) {
        RowLeft(env, c.pkg, LinkNoted(env, Prepared(start)), k, ResidueAt(c.fault, k));
        assert InstallSteps(c.pkg)[..|InstallSteps(c.pkg)|] == InstallSteps(c.pkg);
      } else {
        RollbackKeepsRow(env, c.pkg, start, k, ResidueAt(c.fault, k), c.undo);
      }
    }
  }

  lemma UpsertedRowDescribes(env: Env, d: Disk, c: Call)
    requires Upserts(env, d, c) && WellFormed(env, c)
    ensures RowDescribes(env, InstallCall(env, d, c)) && Keeps(env, d, c)
  {
    OpeningStartsThere(env, d, c);
    StepsShape(c.pkg);
    CompletedInstall(env, c.pkg, OpenedFor(env, d, c).disk);
    TrimOfDigestLine(c.pkg.sha256);
    assert InstallSteps(c.pkg)[..|InstallSteps(c.pkg)|] == InstallSteps(c.pkg);
  }

  lemma AlikeRows(env: Env, a: Dir, b: Dir)
    requires Alike(a, b) && Discoverable(env, a) && Discoverable(env, b)
    ensures ManifestRow(env, a) == ManifestRow(env, b)
  {
    AlikeAt(b, a, Manifest);
    AlikeAt(b, a, Checksum);
  }

  /** The last call that kept its package was cut off before its row was written, and the row there was
      says something else. */
  ghost predicate Stale(env: Env, d: Disk, calls: seq<Call>) {
    if calls == [] then false
    else
      var n := |calls| - 1;
      var before, c := History(env, d, calls[..n]), calls[n];
      var row, now := OpenedFor(env, before, c).disk.record, Found(env, InstallCall(env, before, c));
      if Upserts(env, before, c) then false
      else if Keeps(env, before, c) then row.Some? && now.Some? && row.value != ManifestRow(env, now.value)
      else Stale(env, d, calls[..n])
  }

  lemma CallKeepsRow(env: Env, d: Disk, c: Call)
    requires (Found(env, d).Some? || Bare(env, d)) && WellFormed(env, c) && Harmless(env, d, c)
    requires !Keeps(env, d, c)
    ensures RowDescribes(env, InstallCall(env, d, c)) <==> RowDescribes(env, d)
  {
    var now := InstallCall(env, d, c);
    CallHolds(env, d, c);
    RowOfCall(env, d, c);
    OpeningKeepsRow(env, d, c);
    BareIsUnfound(env, d);
    if Upserts(env, d, c) {
      UpsertedRowDescribes(env, d, c);
    }
    if Found(env, d).Some? {
      AlikeRows(env, Found(env, now).value, Found(env, d).value);
    }
  }

  /** Database and disk agree after such a history exactly when the row is not stale: a call that succeeds,
      or fails, or is cut off before its package is kept or after its row is written, never makes it so;
      nor does any call while there is no row, as the next start makes it from the manifest. */
  lemma {:induction false} RowsOverHistory(env: Env, d: Disk, calls: seq<Call>)
    requires (Found(env, d).Some? || Bare(env, d)) && RowDescribes(env, d)
    requires AllHarmless(env, d, calls)
    ensures RowDescribes(env, History(env, d, calls)) <==> !Stale(env, d, calls)
  {
    if calls != [] {
      var n := |calls| - 1;
      var before, c := History(env, d, calls[..n]), calls[n];
      RowsOverHistory(env, d, calls[..n]);
      HistoryWithCrashes(env, d, calls[..n]);
      RowStep(env, before, c);
    }
  }

  lemma RowStep(env: Env, d: Disk, c: Call)
    requires (Found(env, d).Some? || Bare(env, d)) && WellFormed(env, c) && Harmless(env, d, c)
    ensures var now := InstallCall(env, d, c); var row := OpenedFor(env, d, c).disk.record;
      RowDescribes(env, now) <==>
        if Upserts(env, d, c) then true
        else if Keeps(env, d, c) then
          !(row.Some? && Found(env, now).Some? && row.value != ManifestRow(env, Found(env, now).value))
        else RowDescribes(env, d)
  {
    if Upserts(env, d, c) {
      UpsertedRowDescribes(env, d, c);
    } else if Keeps(env, d, c) {
      CallHolds(env, d, c);
      RowOfCall(env, d, c);
    } else {
      CallKeepsRow(env, d, c);
    }
  }

  // --- histories without crashes ---

  predicate CrashFree(c: Call) {
    (c.fault.Some? ==> c.fault.value.Fails?) && !CutOff(c.undo)
  }

  /** A plugin in order: unit and stored service agree, and it is discoverable or not there at all. */
  ghost predicate InOrder(env: Env, d: Disk) {
    && UnitAgrees(d)
    && (Discoverable(env, d.live)
        || (d.live == map[] && d.record == None && (d.saved.Some? ==> d.saved.value.dir == map[])))
  }

  /** The row of a plugin that may have been found without one. */
  function RowFound(env: Env, first: Disk, registered: bool): Option<Record> {
    if first.record.None? && registered && Discoverable(env, first.live) then Some(ManifestRow(env, first.live))
    else first.record
  }

  /** `now` is in order; files and row are wholly those of `last`, or without one those of `first`, whose
      row may have been made from its manifest. */
  ghost predicate InForce(env: Env, first: Disk, last: Option<Pkg>, registered: bool, now: Disk) {
    && InOrder(env, now)
    && match last
       case None => now.live == first.live && now.record == RowFound(env, first, registered)
       case Some(pkg) =>
         && Installed(env, pkg, now.live)
         && now.record == Some(RowOf(pkg))
  }

  lemma InForceChains(env: Env, first: Disk, last: Option<Pkg>, registered: bool, mid: Disk, newer: Option<Pkg>,
      more: bool, now: Disk)
    requires InForce(env, first, last, registered, mid) && InForce(env, mid, newer, more, now)
    ensures InForce(env, first, if newer.Some? then newer else last, registered || more, now)
  {
  }

  lemma InOrderIsFoundOrBare(env: Env, d: Disk)
    requires InOrder(env, d)
    ensures Found(env, d).Some? || Bare(env, d)
  {
    assert !Complete(env, map[]);
  }

  lemma OpeningInForce(env: Env, d: Disk, c: Call)
    requires InOrder(env, d)
    ensures InForce(env, d, None, Registers(env, d.live, c), OpenedFor(env, d, c).disk)
  {
    RecoveryFinds(env, d, c.recovery);
    OpeningStartsThere(env, d, c);
    OpeningKeepsRow(env, d, c);
  }

  lemma FailureInForce(env: Env, start: Disk, pkg: Pkg, k: nat, residue: Option<Content>, undo: Undo)
    requires InOrder(env, start) && k < |InstallSteps(pkg)| && !CutOff(undo)
    ensures InForce(env, start, None, false, AfterFailure(env, pkg, start, k, residue, undo))
  {
    FailureRestoresPreserved(env, pkg, start, k, residue, undo);
    PreservedIffAgrees(start);
  }

  function InstalledBy(env: Env, d: Disk, c: Call): Option<Pkg> {
    if Succeeds(env, d, c) then Some(c.pkg) else None
  }

  lemma CallKeepsWholePlugin(env: Env, d: Disk, c: Call)
    requires InOrder(env, d) && WellFormed(env, c) && CrashFree(c)
    ensures InForce(env, d, InstalledBy(env, d, c), Registers(env, d.live, c), InstallCall(env, d, c))
  {
    var start, k := OpenedFor(env, d, c).disk, StopIn(env, d, c);
    OpeningInForce(env, d, c);
    OpeningKeepsPlugin(env, d, c);
    if OpenedFor(env, d, c).Ready? {
      if k < |InstallSteps(c.pkg)| {
        FailureInForce(env, start, c.pkg, k, ResidueAt(c.fault, k), c.undo);
      } else {
        CompletedInstall(env, c.pkg, start);
      }
      InForceChains(env, d, None, Registers(env, d.live, c), start, InstalledBy(env, d, c), false,
        InstallCall(env, d, c));
    }
  }

  /** The package of the last call that succeeded. */
  function LastInstalled(env: Env, d: Disk, calls: seq<Call>): Option<Pkg> {
    if calls == [] then None
    else
      var n := |calls| - 1;
      if Succeeds(env, History(env, d, calls[..n]), calls[n]) then Some(calls[n].pkg)
      else LastInstalled(env, d, calls[..n])
  }

  predicate Registered(env: Env, live: Dir, calls: seq<Call>) {
    exists i :: 0 <= i < |calls| && Registers(env, live, calls[i])
  }

  lemma RegisteredSnoc(env: Env, live: Dir, calls: seq<Call>)
    requires calls != []
    ensures var n := |calls| - 1;
      Registered(env, live, calls) <==> Registered(env, live, calls[..n]) || Registers(env, live, calls[n])
  {
    var n := |calls| - 1;
    if Registered(env, live, calls) {
      var i :| 0 <= i < |calls| && Registers(env, live, calls[i]);
      assert i < n ==> calls[..n][i] == calls[i];
    }
    if Registered(env, live, calls[..n]) {
      var i :| 0 <= i < n && Registers(env, live, calls[..n][i]);
      assert calls[..n][i] == calls[i];
    }
  }

  /** The registering flag only matters until a package is installed. */
  lemma FlagAlike(env: Env, first: Disk, mid: Disk, last: Option<Pkg>, registered: bool, c: Call, newer: Option<Pkg>,
      now: Disk)
    requires InForce(env, first, last, registered, mid) && InForce(env, mid, newer, Registers(env, mid.live, c), now)
    ensures InForce(env, mid, newer, Registers(env, first.live, c), now)
  {
  }

  /** Over any history without crashes, whatever else fails in it: the plugin is in order; its files and
      row are wholly those of the last successful package, or its files as they were at first and its
      row as well, or made from its manifest in the first call that got to it. */
  lemma {:induction false} HistoryKeepsWholePlugin(env: Env, d: Disk, calls: seq<Call>)
    requires InOrder(env, d) && forall i :: 0 <= i < |calls| ==> WellFormed(env, calls[i]) && CrashFree(calls[i])
    ensures InForce(env, d, LastInstalled(env, d, calls), Registered(env, d.live, calls), History(env, d, calls))
  {
    if calls != [] {
      var n := |calls| - 1;
      var before, c := History(env, d, calls[..n]), calls[n];
      var last, registered := LastInstalled(env, d, calls[..n]), Registered(env, d.live, calls[..n]);
      var newer := InstalledBy(env, before, c);
      HistoryKeepsWholePlugin(env, d, calls[..n]);
      CallKeepsWholePlugin(env, before, c);
      FlagAlike(env, d, before, last, registered, c, newer, InstallCall(env, before, c));
      InForceChains(env, d, last, registered, before, newer, Registers(env, d.live, c), InstallCall(env, before, c));
      RegisteredSnoc(env, d.live, calls);
    }
  }

  /** Database and disk stay in agreement over every such history. */
  lemma RowAgreesAlways(env: Env, d: Disk, calls: seq<Call>)
    requires InOrder(env, d) && forall i :: 0 <= i < |calls| ==> WellFormed(env, calls[i]) && CrashFree(calls[i])
    requires RowDescribes(env, d)
    ensures RowDescribes(env, History(env, d, calls))
  {
    HistoryKeepsWholePlugin(env, d, calls);
    LastInstalledAccepted(env, d, calls);
    if LastInstalled(env, d, calls).Some? {
      TrimOfDigestLine(LastInstalled(env, d, calls).value.sha256);
    }
  }

  lemma {:induction false} LastInstalledAccepted(env: Env, d: Disk, calls: seq<Call>)
    requires forall i :: 0 <= i < |calls| ==> WellFormed(env, calls[i])
    ensures LastInstalled(env, d, calls).Some? ==> Accepted(env, LastInstalled(env, d, calls).value)
  {
    if calls != [] {
      var n := |calls| - 1;
      LastInstalledAccepted(env, d, calls[..n]);
      OpeningStartsThere(env, History(env, d, calls[..n]), calls[n]);
    }
  }

  // --- links ---

  /** The recorded link of an installed binary points to it. */
  predicate LinkHeld(env: Env, d: Disk) {
    RecordedLink(d).Some? && HasBinary(env, d.live) ==> OwnsLink(env, d, RecordedLink(d).value)
  }

  /** The link steps at the end, if nothing is in the way. */
  lemma LinkStepsCreate(env: Env, pkg: Pkg, recorded: Option<string>, d: Disk)
    requires pkg.binPath.Some? && !Blocked(env, pkg, recorded, d, ClearNewLink)
    ensures OwnsLink(env, Run(env, pkg, recorded, d, [ClearNewLink, CreateNewLink, StartAndPoll]), pkg.binPath.value)
  {
    RunThree(env, pkg, recorded, d, ClearNewLink, CreateNewLink, StartAndPoll);
  }

  lemma StepsEnd(pkg: Pkg)
    ensures var steps, i := InstallSteps(pkg), DropStep(pkg) + 1;
      && i < |steps| && steps[i] == ClearNewLink
      && steps == steps[..i] + [ClearNewLink, CreateNewLink, StartAndPoll] + [Upsert]
  {
    var steps, i := InstallSteps(pkg), DropStep(pkg) + 1;
    StepsShape(pkg);
    assert steps[i..] == [ClearNewLink, CreateNewLink, StartAndPoll] + [Upsert];
    assert steps == steps[..i] + steps[i..];
  }

  lemma LinkCreated(env: Env, pkg: Pkg, begun: Disk, fault: Option<Fault>)
    requires pkg.binPath.Some?
    requires StopOf(env, pkg, begun, fault) == |InstallSteps(pkg)|
    ensures OwnsLink(env, Run(env, pkg, RecordedLink(begun), begun, InstallSteps(pkg)), pkg.binPath.value)
  {
    var steps, recorded := InstallSteps(pkg), RecordedLink(begun);
    var i := DropStep(pkg) + 1;
    StepsEnd(pkg);
    assert !Stops(env, pkg, begun, steps, fault, i);
    var last := [ClearNewLink, CreateNewLink, StartAndPoll];
    LinkStepsCreate(env, pkg, recorded, Run(env, pkg, recorded, begun, steps[..i]));
    RunConcat(env, pkg, recorded, begun, steps[..i], last);
    RunSnoc(env, pkg, recorded, begun, steps[..i] + last, Upsert);
  }

  lemma RollbackHoldsLink(env: Env, start: Disk, pkg: Pkg, k: nat, residue: Option<Content>, undo: Undo)
    requires LinkHeld(env, start) && InOrder(env, start) && !ForeignLink(env, start)
    requires k < |InstallSteps(pkg)| && !CutOff(undo) && !undo.FirstFails?
    ensures LinkHeld(env, AfterFailure(env, pkg, start, k, residue, undo))
  {
    var begun := LinkNoted(env, Prepared(start));
    var broken := Interrupted(env, pkg, begun, k, residue);
    InterruptedKeepsSaved(env, pkg, begun, k, residue);
    InterruptedLinks(env, pkg, begun, k, residue);
    NoteNotStuck(env, pkg, start, broken);
    FailureRestoresPreserved(env, pkg, start, k, residue, undo);
    if RecordedLink(start).Some? {
      RolledBackAt(env, broken, pkg.binPath, undo, RecordedLink(start).value);
    }
    PreservedIffAgrees(start);
  }

  lemma CompletionHoldsLink(env: Env, start: Disk, pkg: Pkg, fault: Option<Fault>)
    requires Accepted(env, pkg) && StopOf(env, pkg, LinkNoted(env, Prepared(start)), fault) == |InstallSteps(pkg)|
    ensures LinkHeld(env,
      Run(env, pkg, RecordedLink(start), LinkNoted(env, Prepared(start)), InstallSteps(pkg)).(saved := None))
  {
    CompletedInstall(env, pkg, start);
    if pkg.binPath.Some? {
      LinkCreated(env, pkg, LinkNoted(env, Prepared(start)), fault);
    }
  }

  /** After every call that was not stopped while opening, successful or not, the recorded link is ours,
      also when it was missing before; only a rollback whose first reload failed can leave it missing. */
  lemma CallHoldsLink(env: Env, d: Disk, c: Call)
    requires InOrder(env, d) && WellFormed(env, c) && CrashFree(c)
    requires OpenedFor(env, d, c).Ready? && (StopIn(env, d, c) < |InstallSteps(c.pkg)| ==> !c.undo.FirstFails?)
    ensures LinkHeld(env, InstallCall(env, d, c))
  {
    var start, k := OpenedFor(env, d, c).disk, StopIn(env, d, c);
    OpeningInForce(env, d, c);
    InOrderIsFoundOrBare(env, d);
    OpeningKeepsPlugin(env, d, c);
    OpeningLinks(env, d, c);
    if k < |InstallSteps(c.pkg)| {
      RollbackHoldsLink(env, start, c.pkg, k, ResidueAt(c.fault, k), c.undo);
    } else {
      CompletionHoldsLink(env, start, c.pkg, c.fault);
    }
  }

  predicate SameAt(a: map<string, LinkNode>, b: map<string, LinkNode>, path: string) {
    (path in a <==> path in b) && (path in a ==> a[path] == b[path])
  }

  lemma OpeningTouchesRecordedLink(env: Env, d: Disk, c: Call, path: string)
    requires !RollsBack(env, d) && RecordedLink(OpenedFor(env, d, c).disk) != Some(path)
    ensures SameAt(OpenedFor(env, d, c).disk.links, d.links, path)
  {
    var found := Discovered(env, c.others, Recovered(env, d, c.recovery));
    OpeningStages(env, d, c);
    assert found.links == d.links;
    assert RecordedLink(Reconciled(env, found)) == RecordedLink(found);
  }

  /** Even then the next call that gets through opening has every link back where the failed one found it
      (but for an unrecorded link of ours at the new path), as opening restores the recorded one. */
  lemma NextCallRestoresLinks(env: Env, d: Disk, c: Call, next: Call, path: string)
    requires InOrder(env, d) && WellFormed(env, c) && CrashFree(c)
    requires OpenedFor(env, d, c).Ready? && StopIn(env, d, c) < |InstallSteps(c.pkg)|
    requires OpenedFor(env, InstallCall(env, d, c), next).Ready?
    requires !(UnrecordedLink(env, c.pkg, OpenedFor(env, d, c).disk) && c.pkg.binPath == Some(path))
    ensures var start := OpenedFor(env, d, c).disk; var again := OpenedFor(env, InstallCall(env, d, c), next).disk;
      && again.live == start.live && LinkHeld(env, again)
      && (RecordedLink(start) == RecordedLink(again) || RecordedLink(again) != Some(path) ==>
          SameAt(again.links, start.links, path))
  {
    var start, k := OpenedFor(env, d, c).disk, StopIn(env, d, c);
    var failed := InstallCall(env, d, c);
    OpeningInForce(env, d, c);
    OpeningKeepsPlugin(env, d, c);
    OpeningLinks(env, d, c);
    FailureInForce(env, start, c.pkg, k, ResidueAt(c.fault, k), c.undo);
    RollbackLinks(env, c.pkg, start, k, ResidueAt(c.fault, k), c.undo, path);
    OpeningInForce(env, failed, next);
    OpeningLinks(env, failed, next);
    if RecordedLink(OpenedFor(env, failed, next).disk) != Some(path) {
      OpeningTouchesRecordedLink(env, failed, next, path);
    }
  }
}
