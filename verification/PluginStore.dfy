/** The plugin store as the installer works on it: one plugin's directory, its rollback directory,
    the systemd unit, the bin symlinks and the database row, changed step by step. */
module PluginStore {
  import opened PluginCalls
  import opened PluginDisk
  import opened PluginTransactions
  import opened Wrappers

  /** `CutShort` is a call that neither ran to its end nor rolled back. */
  datatype Outcome = Updated | NotBegun | Refused | RolledBackAt(step: nat) | CutShort

  /** The entries in the order in which they are moved away and removed, and brought back. */
  const AWAY := [Current, Package, Manifest, Service, Checksum, Sig, Sign]
  const BACK := [Current, Package, Manifest, Sig, Sign, Service, Checksum]

  function Min(a: nat, b: nat): nat {
    if a < b then a else b
  }

  lemma RankIsUnique(way: Direction, e: Entry, x: Entry)
    requires Rank(way, e) == Rank(way, x)
    ensures e == x
  {
  }

  /** One more move. */
  lemma MoveNext(whole: Dir, way: Direction, e: Entry, n: nat)
    requires Rank(way, e) == n
    ensures Moved(whole, way, n + 1) == if e in whole then Moved(whole, way, n)[e := whole[e]] else Moved(whole, way, n)
    ensures Unmoved(whole, way, n + 1) == Unmoved(whole, way, n) - {e}
  {
    forall x: Entry | Rank(way, x) == n
      ensures x == e
    {
      RankIsUnique(way, e, x);
    }
  }

  lemma AllMoves(whole: Dir, way: Direction)
    ensures Moved(whole, way, 0) == map[] && Unmoved(whole, way, 0) == whole
    ensures forall n: nat :: n >= 7 ==> Moved(whole, way, n) == whole && Unmoved(whole, way, n) == map[]
  {
  }

  class Store {
    const env: Env
    var live: Dir
    var saved: Option<Saved>
    var unit: Option<Content>
    var links: map<string, LinkNode>
    var record: Option<Record>

    constructor (env: Env, d: Disk)
      ensures this.env == env && View() == d
    {
      this.env := env;
      live, saved, unit, links, record := d.live, d.saved, d.unit, d.links, d.record;
    }

    function View(): Disk
      reads this
    {
      Disk(live, saved, unit, links, record)
    }

    /** `cleanup_rollback`. */
    method CleanupRollback()
      modifies this`saved
      ensures saved == None
    {
      saved := None;
    }

    /** `move_if_exists` from the plugin directory into the rollback directory, as the n-th move. */
    method MoveIfExists(e: Entry, ghost whole: Dir, ghost n: nat)
      requires saved.Some? && Rank(Away, e) == n
      requires saved.value.dir == Moved(whole, Away, n) && live == Unmoved(whole, Away, n)
      modifies this`live, this`saved
      ensures saved == Some(Saved(Moved(whole, Away, n + 1), old(saved.value.link)))
          && live == Unmoved(whole, Away, n + 1)
    {
      MoveNext(whole, Away, e, n);
      if e in live {
        saved := Some(saved.value.(dir := saved.value.dir[e := live[e]]));
        live := live - {e};
      }
    }

    /** The first moves of `prepare_rollback`. */
    method MoveEntries(count: nat)
      requires saved.Some? && saved.value.dir == map[] && count <= 7
      modifies this`live, this`saved
      ensures live == Unmoved(old(live), Away, count)
      ensures saved == Some(Saved(Moved(old(live), Away, count), old(saved.value.link)))
    {
      ghost var whole := live;
      AllMoves(whole, Away);
      for i := 0 to count
        invariant saved == Some(Saved(Moved(whole, Away, i), old(saved.value.link)))
        invariant live == Unmoved(whole, Away, i)
      {
        MoveIfExists(AWAY[i], whole, i);
      }
    }

    /** `prepare_rollback`, to its end or to where it stops. */
    method PrepareRollback(stop: Option<Preparing>)
      modifies this`live, this`saved
      ensures View() == if stop.Some? then PreparedUpTo(old(View()), stop.value) else Prepared(old(View()))
    {
      CleanupRollback();
      saved := Some(Saved(map[], None));
      AllMoves(live, Away);
      if stop.Some? && stop.value.Moving? {
        MoveEntries(Min(stop.value.n, 7));
        return;
      }
      MoveEntries(7);
      if unit.Some? {
        var copied := if stop.Some? then stop.value.text else unit.value;
        saved := Some(saved.value.(dir := saved.value.dir[Service := File(copied)]));
      }
    }

    /** `prepare_bin_path_rollback`. */
    method PrepareBinPathRollback() returns (ok: bool)
      requires saved.Some?
      modifies this`saved
      ensures ok <==> !ForeignLink(env, old(View()))
      ensures View() ==
        if ok then LinkNoted(env, old(View()))
        else old(View()).(saved := Some(Saved(old(saved.value.dir), None)))
    {
      saved := Some(saved.value.(link := None));
      if record.None? || record.value.binPath.None? {
        return true;
      }
      var path := record.value.binPath.value;
      if path !in links {
        return true;
      }
      if links[path] != Symlink(env.target) {
        return false;
      }
      saved := Some(saved.value.(link := Some((path, env.target))));
      ok := true;
    }

    /** `remove_managed_symlink`. */
    method RemoveManagedSymlink(path: string) returns (ok: bool)
      modifies this`links
      ensures ok <==> path !in old(links) || OwnsLink(env, old(View()), path)
      ensures View() == DropOwnedLink(env, old(View()), Some(path))
    {
      if path !in links {
        return true;
      }
      if links[path] != Symlink(env.target) {
        return false;
      }
      links := links - {path};
      ok := true;
    }

    /** `restore_if_exists`, as the n-th restoration. */
    method RestoreIfExists(e: Entry, ghost whole: Dir, ghost n: nat)
      requires saved.Some? && Rank(Back, e) == n
      requires live == Moved(whole, Back, n) && saved.value.dir == Unmoved(whole, Back, n)
      modifies this`live, this`saved
      ensures live == Moved(whole, Back, n + 1)
          && saved == Some(Saved(Unmoved(whole, Back, n + 1), old(saved.value.link)))
    {
      MoveNext(whole, Back, e, n);
      if e in saved.value.dir {
        live := live[e := saved.value.dir[e]];
        saved := Some(saved.value.(dir := saved.value.dir - {e}));
      } else {
        assert saved.value.dir - {e} == saved.value.dir;
      }
    }

    /** `restore_bin_path`. A folder at the noted path survives `remove_file`, and the link cannot be
        created. */
    method RestoreBinPath() returns (ok: bool)
      requires saved.Some?
      modifies this`links, this`saved
      ensures ok <==> !LinkStuck(old(View()))
      ensures View() ==
        if ok then RestoreLink(old(View())).(saved := Some(Saved(old(saved.value.dir), None)))
        else old(View())
    {
      if saved.value.link.None? {
        return true;
      }
      var (path, target) := saved.value.link.value;
      if path in links && !links[path].Folder? {
        links := links - {path};
      }
      if path in links {
        return false;
      }
      links := links[path := Symlink(target)];
      assert links == old(links)[path := Symlink(target)];
      saved := Some(saved.value.(link := None));
      ok := true;
    }

    /** The first removals of `rollback_install`. */
    method ClearEntries(count: nat)
      requires count <= 7
      modifies this`live
      ensures live == Unmoved(old(live), Away, count)
    {
      AllMoves(live, Away);
      for i := 0 to count
        invariant live == Unmoved(old(live), Away, i)
      {
        MoveNext(old(live), Away, AWAY[i], i);
        live := live - {AWAY[i]};
      }
    }

    /** Removing the current directory, as far as it got. */
    method ClearCurrent(left: set<string>)
      modifies this`live
      ensures live == Trimmed(old(live), left)
    {
      if Current in live && live[Current].Tree? {
        var files := live[Current].files;
        live := live[Current := Tree(map f | f in files && f in left :: files[f])];
      }
    }

    /** The first restorations of `rollback_install`. */
    method RestoreEntries(count: nat)
      requires saved.Some? && live == map[] && count <= 7
      modifies this`live, this`saved
      ensures live == Moved(old(saved.value.dir), Back, count)
      ensures saved == Some(Saved(Unmoved(old(saved.value.dir), Back, count), old(saved.value.link)))
    {
      ghost var whole := saved.value.dir;
      AllMoves(whole, Back);
      for i := 0 to count
        invariant live == Moved(whole, Back, i)
        invariant saved == Some(Saved(Unmoved(whole, Back, i), old(saved.value.link)))
      {
        RestoreIfExists(BACK[i], whole, i);
      }
    }

    /** `rollback_install` up to the unit, or to where it stops before. */
    method ReplaceEntries(undo: Undo) returns (done: bool)
      requires saved.Some?
      modifies this`live, this`saved
      ensures done <==> !CutOff(undo)
      ensures var dir := old(saved.value.dir);
        (live, saved) ==
          match undo
          case ClearingCurrent(left) => (Trimmed(old(live), left), old(saved))
          case Clearing(n) => (Unmoved(old(live), Away, n), old(saved))
          case Restoring(n) => (Moved(dir, Back, n), Some(Saved(Unmoved(dir, Back, n), old(saved.value.link))))
          case _ => (dir, Some(Saved(map[], old(saved.value.link))))
    {
      AllMoves(live, Away);
      AllMoves(saved.value.dir, Back);
      done := false;
      match undo {
        case ClearingCurrent(left) =>
          ClearCurrent(left);
        case Clearing(n) =>
          ClearEntries(Min(n, 7));
        case Restoring(n) =>
          ClearEntries(7);
          RestoreEntries(Min(n, 7));
        case _ =>
          ClearEntries(7);
          RestoreEntries(7);
          done := true;
      }
    }

    /** `rollback_install`. */
    method RollbackInstall(attempted: Option<string>, undo: Undo) returns (ok: bool)
      requires saved.Some?
      modifies this
      ensures ok <==> !RollbackFails(old(View()), undo)
      ensures View() == RolledBack(env, old(View()), attempted, undo)
    {
      if attempted.Some? {
        var _ := RemoveManagedSymlink(attempted.value);
      }
      ok := ReplaceEntries(undo);
      if ok {
        ok := FinishRollback(undo);
      }
    }

    /** The rest of `rollback_install`, with all entries restored. */
    method FinishRollback(undo: Undo) returns (ok: bool)
      requires saved.Some? && saved.value.dir == map[] && !CutOff(undo)
      modifies this`unit, this`links, this`saved
      ensures ok <==> !RollbackFails(old(View()), undo)
      ensures var d := old(View());
        View() ==
          if undo.FirstFails? || LinkStuck(d) then d.(unit := None)
          else RestoreLink(d).(unit := None, saved := LeftOver(d, undo))
    {
      if Service in saved.value.dir {
        // the copy back to systemd: never reached, the saved service file was just renamed away
        assert false;
      } else if unit.Some? {
        unit := None;
      }
      if undo.FirstFails? {
        return false;
      }
      ok := RestoreBinPath();
      if !ok {
        return;
      }
      if record.None? {
        unit := None;
        if undo.SecondFails? {
          return false;
        }
      }
      CleanupRollback();
    }

    /** `recover_plugins_after_interruption`, for this plugin. */
    method Recover(undo: Undo) returns (ok: bool)
      modifies this
      ensures ok <==> !(RollsBack(env, old(View())) && RollbackFails(old(View()), undo))
      ensures View() == Recovered(env, old(View()), undo)
    {
      if saved.None? {
        return true;
      }
      ok := true;
      if Discoverable(env, live) {
        CleanupRollback();
      } else if Discoverable(env, saved.value.dir) {
        ok := RollbackInstall(if record.Some? then record.value.binPath else None, undo);
      }
    }

    /** `discover_plugins`, for this plugin. */
    method Discover(others: Others)
      modifies this`record
      ensures View() == Discovered(env, others, old(View()))
    {
      if record.None? && Discoverable(env, live) {
        var row := ManifestRow(env, live);
        if NamesFree(others, row.binPath) {
          record := Some(row);
        }
      }
    }

    /** `install_bin_path` with a new path and no previous one. */
    method InstallBinPath(path: string) returns (ok: bool)
      modifies this`links
      ensures ok <==> path !in old(links) || OwnsLink(env, old(View()), path)
      ensures links == if ok then old(links)[path := Symlink(env.target)] else old(links)
    {
      if path in links {
        if links[path] != Symlink(env.target) {
          return false;
        }
        links := links - {path};
      }
      links := links[path := Symlink(env.target)];
      assert links == old(links)[path := Symlink(env.target)];
      ok := true;
    }

    /** `reconcile_plugin_bin_paths`, for this plugin. */
    method Reconcile() returns (ok: bool)
      modifies this`links
      ensures ok <==> !LinkTaken(env, old(View()))
      ensures View() == Reconciled(env, old(View()))
    {
      ok := true;
      if record.Some? && record.value.binPath.Some? && HasBinary(env, live) {
        ok := InstallBinPath(record.value.binPath.value);
      }
    }

    /** `initialize_store` and the checks that follow it. */
    method Open(others: Others, halt: Option<Stage>, undo: Undo, newLink: Option<string>) returns (ok: bool)
      modifies this
      ensures Opened(env, old(View()), others, halt, undo, newLink) == if ok then Ready(View()) else Halted(View())
    {
      if halt == Some(Opening) {
        return false;
      }
      ok := Recover(undo);
      if !ok || halt == Some(Recovering) {
        return false;
      }
      Discover(others);
      if halt == Some(Discovering) {
        return false;
      }
      ok := Reconcile();
      ok := ok && halt != Some(Reconciling) && NamesFree(others, newLink);
    }

    /** What a step that was cut off left. */
    method Tear(pkg: Pkg, s: Step, residue: Option<Content>)
      modifies this
      ensures View() == Torn(env, pkg, old(View()), s, residue)
    {
      var d := Torn(env, pkg, View(), s, residue);
      live, saved, unit, links, record := d.live, d.saved, d.unit, d.links, d.record;
    }

    method WriteInCurrent(path: string, bytes: Content)
      modifies this`live
      ensures View() == PutInCurrent(old(View()), path, bytes)
    {
      if Current in live && live[Current].Tree? {
        live := live[Current := Tree(live[Current].files[path := bytes])];
      }
    }

    /** The signature files: the new one is written and a legacy one removed, or, without a new one, the
        first of the two that exists is removed. */
    method SettleSignature(signature: Option<Content>)
      modifies this`live
      ensures live == if signature.Some? then old(live)[Sig := File(signature.value)]
                      else if Sig in old(live) then old(live) - {Sig} else old(live) - {Sign}
    {
      if signature.Some? {
        live := live[Sig := File(signature.value)];
      } else if Sig in live {
        live := live - {Sig};
      } else if Sign in live {
        live := live - {Sign};
      }
    }

    /** Creating the link, once nothing is at its path. */
    method CreateLink(path: Option<string>)
      modifies this`links
      ensures links ==
        if path.Some? && path.value !in old(links) then old(links)[path.value := Symlink(env.target)]
        else old(links)
    {
      if path.Some? && path.value !in links {
        links := links[path.value := Symlink(env.target)];
      }
    }

    /** The file steps. */
    method DoFileStep(pkg: Pkg, s: Step)
      requires Builds(s) || s.WriteChecksum? || s.SettleSignature? || s.DropLegacySign?
      modifies this`live
      ensures forall recorded :: View() == Effect(env, pkg, recorded, old(View()), s)
    {
      match s {
        case RemoveCurrent => live := live - {Current};
        case MakeCurrent =>
          if Current !in live {
            live := live[Current := Tree(map[])];
          }
        case WriteBinary => WriteInCurrent(env.id, pkg.binary);
        case WriteCustom(path, bytes) => WriteInCurrent(path, bytes);
        case WritePackage => live := live[Package := File(pkg.zip)];
        case WriteManifest => live := live[Manifest := File(pkg.manifest)];
        case WriteService => live := live[Service := File(pkg.service)];
        case WriteChecksum => live := live[Checksum := File(pkg.sha256 + "\n")];
        case SettleSignature => SettleSignature(pkg.signature);
        case DropLegacySign =>
          if pkg.signature.Some? {
            live := live - {Sign};
          }
      }
    }

    /** One step that the environment does not stop. It fails when its own path is taken. */
    method Do(pkg: Pkg, recorded: Option<string>, s: Step) returns (ok: bool)
      modifies this
      ensures ok <==> !Blocked(env, pkg, recorded, old(View()), s)
      ensures View() == if ok then Effect(env, pkg, recorded, old(View()), s) else old(View())
    {
      ok := true;
      match s {
        case WriteUnit => unit := Some(pkg.service);
        case Reload =>
        case DropRecordedLink =>
          if recorded.Some? {
            ok := RemoveManagedSymlink(recorded.value);
          }
        case ClearNewLink =>
          if pkg.binPath.Some? {
            ok := RemoveManagedSymlink(pkg.binPath.value);
          }
        case CreateNewLink => CreateLink(pkg.binPath);
        case StartAndPoll =>
        case Upsert => record := Some(Record(pkg.version, pkg.sha256, pkg.binPath));
        case _ => DoFileStep(pkg, s);
      }
    }

    /** The steps in order, up to the first that fails. */
    method RunSteps(pkg: Pkg, steps: seq<Step>, fault: Option<Fault>) returns (stop: nat, residue: Option<Content>)
      modifies this
      ensures stop <= |steps| && forall i :: 0 <= i < stop ==> !Stops(env, pkg, old(View()), steps, fault, i)
      ensures stop < |steps| ==> Stops(env, pkg, old(View()), steps, fault, stop)
      ensures residue == ResidueAt(fault, stop)
      ensures var before := Run(env, pkg, RecordedLink(old(View())), old(View()), steps[..stop]);
        View() == if stop < |steps| then Torn(env, pkg, before, steps[stop], residue) else before
    {
      ghost var begun := View();
      var recorded := if record.Some? then record.value.binPath else None;
      for i := 0 to |steps|
        invariant View() == Run(env, pkg, recorded, begun, steps[..i])
        invariant forall j :: 0 <= j < i ==> !Stops(env, pkg, begun, steps, fault, j)
      {
        residue := ResidueAt(fault, i);
        if Hits(fault, i) {
          Tear(pkg, steps[i], residue);
          return i, residue;
        }
        var ok := Do(pkg, recorded, steps[i]);
        if !ok {
          return i, residue;
        }
        assert steps[..i + 1] == steps[..i] + [steps[i]];
        RunSnoc(env, pkg, recorded, begun, steps[..i], steps[i]);
      }
      stop, residue := |steps|, ResidueAt(fault, |steps|);
    }

    /** `install_plugin`. A failed install leaves the plugin's files, its row and its links as opening
        left them, under the conditions that characterise rollback. */
    method Install(c: Call) returns (outcome: Outcome)
      modifies this
      ensures View() == InstallCall(env, old(View()), c)
      ensures var start := OpenedFor(env, old(View()), c).disk; var k := StopIn(env, old(View()), c);
        && (outcome.Updated? <==> Succeeds(env, old(View()), c))
        && (outcome.NotBegun? <==> OpenedFor(env, old(View()), c).Halted?)
        && (outcome.Refused? <==> Refuses(env, old(View()), c))
        && (outcome.CutShort? <==>
              (OpenedFor(env, old(View()), c).Ready?
               && (StopsInPreparing(c.fault)
                   || (!ForeignLink(env, start) && (StopsEarly(c.fault) || CrashesAt(c.fault, k))))))
        && (outcome.RolledBackAt? ==>
              && outcome.step == k < |InstallSteps(c.pkg)|
              && record == start.record
              && (!CutOff(c.undo) ==>
                    && unit == None && (live == start.live <==> UnitAgrees(start))
                    && (links == start.links <==>
                          if c.undo.FirstFails? then NothingDropped(env, c.pkg, start, k)
                          else !UnrecordedLink(env, c.pkg, start))))
    {
      var ok := Open(c.others, c.halt, c.recovery, c.pkg.binPath);
      if !ok {
        return NotBegun;
      }
      ghost var start := View();
      if StopsInPreparing(c.fault) {
        PrepareRollback(Some(c.fault.value.stage));
        return CutShort;
      }
      PrepareRollback(None);
      ok := PrepareBinPathRollback();
      if !ok {
        return Refused;
      }
      if StopsEarly(c.fault) {
        saved := Some(saved.value.(link := c.fault.value.note));
        return CutShort;
      }
      outcome := RunInstall(start, c);
    }

    /** The steps of an install, then rollback or cleanup. */
    method RunInstall(ghost start: Disk, c: Call) returns (outcome: Outcome)
      requires !ForeignLink(env, start) && View() == LinkNoted(env, Prepared(start))
      requires !StopsEarly(c.fault)
      modifies this
      ensures View() == Attempted(env, start, c)
      ensures var k := StopOf(env, c.pkg, LinkNoted(env, Prepared(start)), c.fault);
        && (outcome.Updated? <==> k == |InstallSteps(c.pkg)| && !CrashesAt(c.fault, k))
        && !outcome.NotBegun? && !outcome.Refused?
        && (outcome.CutShort? <==> CrashesAt(c.fault, k))
        && (outcome.RolledBackAt? ==>
              && outcome.step == k < |InstallSteps(c.pkg)|
              && record == start.record
              && (!CutOff(c.undo) ==>
                    && unit == None && (live == start.live <==> UnitAgrees(start))
                    && (links == start.links <==>
                          if c.undo.FirstFails? then NothingDropped(env, c.pkg, start, k)
                          else !UnrecordedLink(env, c.pkg, start))))
    {
      ghost var begun := View();
      var stop, residue := RunSteps(c.pkg, InstallSteps(c.pkg), c.fault);
      assert View() == Interrupted(env, c.pkg, begun, stop, residue);
      FirstStopIs(env, c.pkg, begun, InstallSteps(c.pkg), c.fault, |InstallSteps(c.pkg)|, stop);
      InterruptedKeepsSaved(env, c.pkg, begun, stop, residue);
      if CrashesAt(c.fault, stop) {
        outcome := CutShort;
      } else if stop < |InstallSteps(c.pkg)| {
        var _ := RollbackInstall(c.pkg.binPath, c.undo);
        if !CutOff(c.undo) {
          RollbackUndoesAnyPrefix(env, c.pkg, start, stop, residue, c.undo);
        }
        outcome := RolledBackAt(stop);
      } else {
        assert InstallSteps(c.pkg)[..stop] == InstallSteps(c.pkg);
        CleanupRollback();
        outcome := Updated;
      }
    }
  }

  lemma FirstStopIs(env: Env, pkg: Pkg, begun: Disk, steps: seq<Step>, fault: Option<Fault>, n: nat, k: nat)
    requires k <= n <= |steps| && (k < n ==> Stops(env, pkg, begun, steps, fault, k))
    requires forall i :: 0 <= i < k ==> !Stops(env, pkg, begun, steps, fault, i)
    ensures FirstStop(env, pkg, begun, steps, fault, n) == k
  {
  }
}
