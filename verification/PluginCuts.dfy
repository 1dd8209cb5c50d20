/** Preparing and rolling back cut off: after how many moves, removals or restorations the next start
    still finds the plugin, and what it finds. */
module PluginCuts {
  import opened PluginCrashes
  import opened PluginDisk
  import opened PluginTransactions
  import opened Wrappers

  // --- preparing ---

  /** After the fifth move only signatures are left behind. */
  lemma MovedButSignatures(live: Dir, n: nat)
    requires n >= 5
    ensures Moved(live, Away, n) == live - (if n == 5 then {Sig, Sign} else if n == 6 then {Sign} else {})
  {
  }

  /** Preparing cut off after n of its seven moves: the plugin is found again exactly if n is 0, or 5 and
      more, when at most its signatures are missing. Cut off while the unit is copied, it comes back
      with what was copied as its service file. */
  lemma PreparingCutOff(env: Env, d: Disk, at: Preparing)
    requires Discoverable(env, d.live)
    ensures Found(env, PreparedUpTo(d, at)) ==
      match at
      case Moving(n) =>
        if n == 0 then Some(d.live)
        else if n < 5 then None
        else Some(d.live - (if n == 5 then {Sig, Sign} else if n == 6 then {Sign} else {}))
      case Copying(text) => Some(if d.unit.Some? then d.live[Service := File(text)] else d.live)
  {
    match at
    case Moving(n) =>
      if n == 0 {
        assert Unmoved(d.live, Away, 0) == d.live;
      } else if n >= 5 {
        MovedButSignatures(d.live, n);
        WithoutSignaturesDiscoverable(env, d.live, n);
      }
    case Copying(text) =>
  }

  lemma WithoutSignaturesDiscoverable(env: Env, live: Dir, n: nat)
    requires Discoverable(env, live) && n >= 5
    ensures Discoverable(env, Moved(live, Away, n))
  {
    assert n == 6 && Sig in live ==> Sig in Moved(live, Away, n) && Moved(live, Away, n)[Sig] == live[Sig];
  }

  /** Cut off between the first move and the fourth the plugin is lost: no start changes anything, and
      the next preparation deletes the binary that was moved away. */
  lemma CutPreparingLosesBinary(env: Env, d: Disk, n: nat, others: Others, halt: Option<Stage>, recovery: Undo,
      link: Option<string>)
    requires Discoverable(env, d.live) && 1 <= n <= 4
    ensures var cut := PreparedUpTo(d, Moving(n)); var next := Opened(env, cut, others, halt, recovery, link).disk;
      && next == cut && HasBinary(env, cut.saved.value.dir)
      && Current !in Prepared(next).live && Current !in Prepared(next).saved.value.dir
  {
    var cut := PreparedUpTo(d, Moving(n));
    PreparingCutOff(env, d, Moving(n));
    assert Current in cut.saved.value.dir && Current !in cut.live;
  }

  /** An incomplete plugin is found after such a cut only if just a signature kept it from being found. */
  lemma RevivedWithoutSignature(env: Env, live: Dir, n: nat)
    requires !Complete(env, live) && Complete(env, Moved(live, Away, n))
    ensures (n == 5 && (Sig in live || Sign in live)) || (n == 6 && Sign in live)
    ensures Complete(env, live - {Sig, Sign}) || (n == 6 && Complete(env, live - {Sign}))
  {
    assert n < 5 ==> Checksum !in Moved(live, Away, n);
    if n >= 5 {
      MovedButSignatures(live, n);
      assert n == 5 && Sig !in live && Sign !in live ==> Moved(live, Away, n) == live;
      assert n == 6 && Sign !in live ==> Moved(live, Away, n) == live;
    }
  }

  // --- rolling back ---

  lemma ClearedIsUndiscoverable(env: Env, live: Dir, n: nat)
    ensures Discoverable(env, Unmoved(live, Away, n)) ==> n == 0 && Unmoved(live, Away, n) == live
  {
    if n == 0 {
      assert Unmoved(live, Away, 0) == live;
    }
  }

  lemma TrimmedDiscoverable(env: Env, live: Dir, left: set<string>)
    ensures Discoverable(env, Trimmed(live, left)) <==> Discoverable(env, live) && env.id in left
  {
  }

  lemma RestoredPart(env: Env, dir: Dir, n: nat)
    requires Discoverable(env, dir)
    ensures Discoverable(env, Moved(dir, Back, n)) <==> n >= 7
    ensures Discoverable(env, Unmoved(dir, Back, n)) <==> n == 0
    ensures n >= 7 ==> Moved(dir, Back, n) == dir
    ensures n == 0 ==> Unmoved(dir, Back, n) == dir
  {
    if n >= 7 {
      assert Moved(dir, Back, n) == dir;
    } else if n == 0 {
      assert Unmoved(dir, Back, n) == dir;
    } else {
      assert Checksum !in Moved(dir, Back, n) && Current !in Unmoved(dir, Back, n);
    }
  }

  lemma CutFinds(env: Env, d: Disk, undo: Undo)
    requires d.saved.Some? && Discoverable(env, d.saved.value.dir) && CutOff(undo)
    ensures Found(env, RollbackCut(d, undo)) ==
      match undo
      case ClearingCurrent(left) =>
        if Discoverable(env, d.live) && env.id in left then Some(Trimmed(d.live, left)) else Some(d.saved.value.dir)
      case Clearing(n) => if Discoverable(env, d.live) && n == 0 then Some(d.live) else Some(d.saved.value.dir)
      case Restoring(n) => if n == 0 || n >= 7 then Some(d.saved.value.dir) else None
  {
    match undo
    case ClearingCurrent(left) => TrimmedDiscoverable(env, d.live, left);
    case Clearing(n) =>
      ClearedIsUndiscoverable(env, d.live, n);
      assert n == 0 ==> Unmoved(d.live, Away, n) == d.live;
    case Restoring(n) => RestoredPart(env, d.saved.value.dir, n);
  }

  lemma DoneFinds(env: Env, d: Disk, undo: Undo)
    requires d.saved.Some? && Discoverable(env, d.saved.value.dir)
    ensures Found(env, RollbackDone(d, undo)) == Some(d.saved.value.dir)
  {
  }

  /** A rollback of a discoverable plugin, however it goes: the plugin is found again unless it stops
      between the first of its restorations and the last, or a discoverable plugin was being removed
      and its binary, or all of it, is still there. */
  lemma RollbackFinds(env: Env, d: Disk, attempted: Option<string>, undo: Undo)
    requires d.saved.Some? && Discoverable(env, d.saved.value.dir)
    ensures Found(env, RolledBack(env, d, attempted, undo)) ==
      match undo
      case ClearingCurrent(left) =>
        if Discoverable(env, d.live) && env.id in left then Some(Trimmed(d.live, left)) else Some(d.saved.value.dir)
      case Clearing(n) => if Discoverable(env, d.live) && n == 0 then Some(d.live) else Some(d.saved.value.dir)
      case Restoring(n) => if n == 0 || n >= 7 then Some(d.saved.value.dir) else None
      case _ => Some(d.saved.value.dir)
  {
    var unlinked := DropOwnedLink(env, d, attempted);
    if CutOff(undo) {
      CutFinds(env, unlinked, undo);
    } else {
      DoneFinds(env, unlinked, undo);
    }
  }

  /** The install failed late enough for the new plugin to be discoverable, and its removal is cut off
      with the binary still there: the new plugin is found, wholly exactly if no file was removed. */
  lemma CutClearingMixes(env: Env, pkg: Pkg, start: Disk, k: nat, residue: Option<Content>, left: set<string>)
    requires Accepted(env, pkg) && k <= |InstallSteps(pkg)|
    requires NewKept(env, pkg, k, residue) && env.id in left
    ensures var stopped := AfterFailure(env, pkg, start, k, residue, ClearingCurrent(left));
      && Found(env, stopped) == Some(stopped.live)
      && (AllNew(env, pkg, stopped.live) <==> NewFiles(env, pkg, |pkg.customFiles|).Keys <= left)
  {
    var begun := LinkNoted(env, Prepared(start));
    var broken := Interrupted(env, pkg, begun, k, residue);
    InterruptedKeepsSaved(env, pkg, begun, k, residue);
    KeptExactly(env, pkg, begun, k, residue);
    LiveIsNewOrUndiscoverable(env, pkg, begun, k, residue);
    TrimmedIsNewIff(env, pkg, broken.live, left);
  }

  lemma TrimmedIsNewIff(env: Env, pkg: Pkg, live: Dir, left: set<string>)
    requires AllNew(env, pkg, live) && Discoverable(env, live) && env.id in left
    ensures Discoverable(env, Trimmed(live, left))
    ensures AllNew(env, pkg, Trimmed(live, left)) <==> NewFiles(env, pkg, |pkg.customFiles|).Keys <= left
  {
    var files := NewFiles(env, pkg, |pkg.customFiles|);
    var trimmed := Trimmed(live, left)[Current].files;
    if files.Keys <= left {
      assert trimmed == files;
    } else {
      var f :| f in files && f !in left;
      assert f !in trimmed;
    }
  }

  lemma RestoredButUnit(env: Env, pkg: Pkg, start: Disk, k: nat, residue: Option<Content>, n: nat)
    requires Discoverable(env, start.live) && k <= |InstallSteps(pkg)| && n >= 7
    ensures var stopped := AfterFailure(env, pkg, start, k, residue, Restoring(n));
      stopped.live == Preserved(start) && stopped.unit == UnitAt(pkg, start, k, residue) && stopped.saved.Some?
  {
    var begun := LinkNoted(env, Prepared(start));
    InterruptedKeepsSaved(env, pkg, begun, k, residue);
    UnitLeft(env, pkg, begun, k, residue);
    PreservedDiscoverable(env, start);
    RestoredPart(env, Preserved(start), n);
  }

  /** Stopped after the last restoration the old plugin is back, with the unit the failed install left:
      the two agree exactly if that is none, or what the old service file says. */
  lemma UnitAfterLastRestoration(env: Env, pkg: Pkg, start: Disk, k: nat, residue: Option<Content>, n: nat,
      recovery: Undo)
    requires Discoverable(env, start.live) && k <= |InstallSteps(pkg)| && n >= 7
    ensures var after := Recovered(env, AfterFailure(env, pkg, start, k, residue, Restoring(n)), recovery);
      var unit := UnitAt(pkg, start, k, residue);
      && after.live == Preserved(start) && after.unit == unit && after.saved == None
      && (UnitAgrees(after) <==> unit.None? || Preserved(start)[Service] == File(unit.value))
  {
    RestoredButUnit(env, pkg, start, k, residue, n);
    PreservedDiscoverable(env, start);
  }
}
