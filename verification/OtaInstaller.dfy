/** Over-the-air update of one built-in binary: backup, replace, health check, rollback, and the
    check at boot that repairs an interrupted update. */
module OtaInstaller {
  import opened OtaFiles
  import opened Text
  import opened Wrappers

  /** One updatable target, its files changed operation by operation. */
  class Target {
    const digest: Digest
    const isGateway: bool
    var metaDir: bool
    var binary: Option<Content>
    var backup: Option<Content>
    var hash: Option<string>
    var version: Option<string>

    constructor (digest: Digest, isGateway: bool, d: Files)
      ensures this.digest == digest && this.isGateway == isGateway && View() == d
    {
      this.digest, this.isGateway := digest, isGateway;
      metaDir, binary, backup, hash, version := d.metaDir, d.binary, d.backup, d.hash, d.version;
    }

    ghost function View(): Files
      reads this
    {
      Files(metaDir, binary, backup, hash, version)
    }

    /** `backup_current`; the copy may fail unnoticed. */
    method BackupCurrent(luck: Luck)
      modifies this`backup
      ensures backup ==
        if binary.None? || luck.Nothing? then old(backup) else if luck.Done? then binary else Some(luck.left)
    {
      if binary.Some? {
        match luck {
          case Done => backup := binary;
          case Nothing =>
          case Partial(left) => backup := Some(left);
        }
      }
    }

    /** `restore_backup`; the copy may fail unnoticed. */
    method RestoreBackup(luck: Luck)
      modifies this`binary
      ensures binary ==
        if backup.None? || luck.Nothing? then old(binary) else if luck.Done? then backup else Some(luck.left)
    {
      if backup.Some? {
        match luck {
          case Done => binary := backup;
          case Nothing =>
          case Partial(left) => binary := Some(left);
        }
      }
    }

    /** Writing a short text, whose failure is ignored. */
    method WriteText(before: Option<string>, text: string, luck: Luck) returns (after: Option<string>)
      ensures after == match luck case Done => Some(text) case Nothing => before case Partial(left) => Some(left)
    {
      match luck {
        case Done => after := Some(text);
        case Nothing => after := before;
        case Partial(left) => after := Some(left);
      }
    }

    /** The health poll: up to ten probes of the service. */
    method PollRunning(probes: seq<bool>) returns (running: bool)
      ensures running <==> exists i :: 0 <= i < |probes| && i < 10 && probes[i]
    {
      var tries := 0;
      while tries < 10 && tries < |probes|
        invariant 0 <= tries <= 10 && tries <= |probes|
        invariant forall i :: 0 <= i < tries ==> !probes[i]
      {
        if probes[tries] {
          return true;
        }
        tries := tries + 1;
      }
      running := false;
    }

    /** The end of `apply_update`: store hash and version, or restore the backup. */
    method Conclude(pkg: Package, running: bool, fate: Fate)
      requires Installable(digest, pkg)
      modifies this`binary, this`hash, this`version
      ensures View() ==
        if running
        then Attempted(pkg, Attempted(pkg, old(View()), StoreHash, fate.hash), StoreVersion, fate.version)
        else Attempted(pkg, old(View()), Restore, fate.restore)
    {
      if running {
        hash := WriteText(hash, Trim(pkg.hash.value), fate.hash);
        version := WriteText(version, Trim(pkg.version.value), fate.version);
      } else {
        RestoreBackup(fate.restore);
      }
    }

    /** Copying the new binary over the installed one. */
    method ReplaceBinary(pkg: Package, luck: Luck)
      requires Installable(digest, pkg)
      modifies this`binary
      ensures View() == Attempted(pkg, old(View()), Replace, luck)
    {
      match luck {
        case Done => binary := pkg.binary;
        case Nothing =>
        case Partial(left) => binary := Some(left);
      }
    }

    /** `apply_update` once the package is accepted. */
    method Install(pkg: Package, probes: seq<bool>, fate: Fate) returns (ok: bool)
      requires Installable(digest, pkg)
      modifies this
      ensures var healthy := isGateway || exists i :: 0 <= i < |probes| && i < 10 && probes[i];
        && View() == RunOps(pkg, old(View()).(metaDir := true), UpdateOps(healthy), Course(healthy, fate))
        && (ok <==> fate.replace.Done? && healthy)
    {
      metaDir := true;
      ghost var begun := View();
      BackupCurrent(fate.backup);
      assert View() == Attempted(pkg, begun, Backup, fate.backup);
      ReplaceBinary(pkg, fate.replace);
      var running := isGateway;
      if fate.replace.Done? && !isGateway {
        running := PollRunning(probes);
      }
      ghost var healthy := isGateway || exists i :: 0 <= i < |probes| && i < 10 && probes[i];
      CourseUnrolled(pkg, begun, healthy, fate);
      if !fate.replace.Done? {
        return false;
      }
      Conclude(pkg, running, fate);
      ok := running;
    }

    /** `apply_update`. The gateway restarts itself and is taken to be running. Success is reported
        whatever became of backup, hash and version. */
    method ApplyUpdate(pkg: Package, probes: seq<bool>, fate: Fate) returns (ok: bool)
      modifies this
      ensures var healthy := isGateway || exists i :: 0 <= i < |probes| && i < 10 && probes[i];
        && View() == Updated(digest, old(View()), pkg, healthy, fate)
        && (ok <==> ReportsSuccess(digest, pkg, healthy, fate))
        && (ok ==> binary == pkg.binary && (fate.hash.Done? ==> Consistent(digest, View())))
        && (ok && !fate.hash.Done? && old(binary).Some? && fate.backup.Done? ==> backup == old(binary))
        && (!healthy ==> hash == old(hash) && version == old(version))
    {
      if pkg.binary.None? || pkg.hash.None? || pkg.version.None? {
        return false;
      }
      if Trim(pkg.hash.value) != digest(pkg.binary.value) || pkg.signatureRejected {
        return false;
      }
      ghost var healthy := isGateway || exists i :: 0 <= i < |probes| && i < 10 && probes[i];
      UpdateLeaves(digest, View(), pkg, healthy, fate);
      ok := Install(pkg, probes, fate);
    }

    /** `validate_on_boot`. */
    method ValidateOnBoot(luck: Luck)
      modifies this
      ensures View() == BootedWith(digest, old(View()), luck)
    {
      if !metaDir {
        metaDir := true;
        return;
      }
      if binary.None? && backup.None? {
        return;
      }
      if hash.None? {
        return;
      }
      var actual := if binary.Some? then digest(binary.value) else "";
      if Trim(hash.value) != actual {
        RestoreBackup(luck);
      }
    }
  }

  /** What a caller sees of an update: after a success the new binary, with its hash if that was written,
      and the old one as backup; without a healthy service hash and version as before. */
  lemma UpdateLeaves(digest: Digest, d: Files, pkg: Package, healthy: bool, fate: Fate)
    requires Installable(digest, pkg)
    ensures var after := Updated(digest, d, pkg, healthy, fate); var ok := ReportsSuccess(digest, pkg, healthy, fate);
      && (ok ==> after.binary == pkg.binary && (fate.hash.Done? ==> Consistent(digest, after)))
      && (ok && !fate.hash.Done? && d.binary.Some? && fate.backup.Done? ==> after.backup == d.binary)
      && (!healthy ==> after.hash == d.hash && after.version == d.version)
  {
    CourseUnrolled(pkg, d.(metaDir := true), healthy, fate);
    TrimTwice(pkg.hash.value);
  }
}
