/** What updates guarantee when they stop anywhere, and when writes fail unnoticed. */
module OtaSafety {
  import opened OtaFiles
  import opened Text
  import opened Wrappers

  // --- crash safety ---

  /** Stop the operations anywhere, let any number of boots go as they may, complete one: the binary
      left has the old digest or the new one. */
  ghost predicate CrashSafe(digest: Digest, pkg: Package, d: Files, ops: seq<Op>, old': string)
    requires pkg.binary.Some? && pkg.hash.Some? && pkg.version.Some?
  {
    forall lucks: seq<Luck>, boots: seq<Luck> ::
      IsCourse(pkg, ops, lucks) && Noticed(lucks) ==>
        EitherDigest(digest, pkg, old', Booted(digest, BootedAll(digest, RunOps(pkg, d, ops, lucks), boots)))
  }

  predicate EitherDigest(digest: Digest, pkg: Package, old': string, d: Files)
    requires pkg.binary.Some?
  {
    d.binary.Some? && (digest(d.binary.value) == old' || digest(d.binary.value) == digest(pkg.binary.value))
  }

  /** What every reachable state keeps: the boot check passes on a good binary, or the backup is
      good and the hash accepts nothing but a good binary. */
  ghost predicate Recoverable(digest: Digest, pkg: Package, old': string, d: Files)
    requires pkg.binary.Some?
  {
    && d.metaDir && d.binary.Some? && d.hash.Some?
    && ((digest(d.binary.value) == old' && Trim(d.hash.value) == old')
        || Guarded(digest, pkg, old', d))
  }

  predicate GoodBackup(digest: Digest, pkg: Package, old': string, d: Files)
    requires pkg.binary.Some?
  {
    d.backup.Some? && (digest(d.backup.value) == old' || digest(d.backup.value) == digest(pkg.binary.value))
  }

  predicate HashAcceptsOnlyGood(digest: Digest, pkg: Package, old': string, h: string)
    requires pkg.binary.Some?
  {
    h == old' || h == digest(pkg.binary.value) || |h| < 64
  }

  /** A good backup, an installed binary and a hash that accepts only good binaries. */
  ghost predicate Guarded(digest: Digest, pkg: Package, old': string, d: Files)
    requires pkg.binary.Some?
  {
    && d.metaDir && d.binary.Some? && d.hash.Some? && GoodBackup(digest, pkg, old', d)
    && HashAcceptsOnlyGood(digest, pkg, old', Trim(d.hash.value))
  }

  lemma AttemptStaysGuarded(digest: Digest, pkg: Package, old': string, d: Files, op: Op, luck: Luck)
    requires HexDigests(digest) && Installable(digest, pkg) && Guarded(digest, pkg, old', d)
    requires !op.Backup? && Possible(pkg, op, luck)
    ensures Guarded(digest, pkg, old', Attempted(pkg, d, op, luck))
  {
    TrimDigest(digest(pkg.binary.value));
  }

  /** Wherever operations other than the backup stop, and whichever of them fail unnoticed, the state
      stays guarded. */
  lemma {:induction false} CourseIsGuarded(digest: Digest, pkg: Package, old': string, d: Files, ops: seq<Op>,
      lucks: seq<Luck>)
    requires HexDigests(digest) && Installable(digest, pkg) && Guarded(digest, pkg, old', d)
    requires Backup !in ops && IsCourse(pkg, ops, lucks)
    ensures Guarded(digest, pkg, old', RunOps(pkg, d, ops, lucks))
    decreases |lucks|
  {
    if lucks != [] {
      assert Possible(pkg, ops[0], lucks[0]);
      AttemptStaysGuarded(digest, pkg, old', d, ops[0], lucks[0]);
      RestIsCourse(pkg, ops, lucks);
      CourseIsGuarded(digest, pkg, old', Attempted(pkg, d, ops[0], lucks[0]), ops[1..], lucks[1..]);
    }
  }

  lemma RestIsCourse(pkg: Package, ops: seq<Op>, lucks: seq<Luck>)
    requires pkg.hash.Some? && IsCourse(pkg, ops, lucks) && lucks != []
    ensures IsCourse(pkg, ops[1..], lucks[1..])
  {
    forall i | 0 <= i < |lucks[1..]|
      ensures Possible(pkg, ops[1..][i], lucks[1..][i])
      ensures i < |lucks[1..]| - 1 && ops[1..][i].Replace? ==> lucks[1..][i].Done?
    {
      assert Possible(pkg, ops[i + 1], lucks[i + 1]);
    }
  }

  lemma {:induction false} BootsKeepRecoverable(digest: Digest, pkg: Package, old': string, d: Files, boots: seq<Luck>)
    requires HexDigests(digest) && pkg.binary.Some? && Recoverable(digest, pkg, old', d)
    ensures Recoverable(digest, pkg, old', BootedAll(digest, d, boots))
    decreases |boots|
  {
    if boots != [] {
      BootsKeepRecoverable(digest, pkg, old', BootedWith(digest, d, boots[0]), boots[1..]);
    }
  }

  lemma RecoverableBoots(digest: Digest, pkg: Package, old': string, d: Files)
    requires HexDigests(digest) && pkg.binary.Some? && Recoverable(digest, pkg, old', d)
    ensures EitherDigest(digest, pkg, old', Booted(digest, d))
  {
    assert IsDigestText(digest(d.binary.value));
  }

  /** From a consistent installation, an update that stops anywhere, and in which any write but the
      backup may also fail unnoticed, is repaired by the next completed boot to the old binary or the
      new one: as long as the backup file is good once the backup step is over. */
  lemma ConsistentIsCrashSafe(digest: Digest, pkg: Package, d: Files, healthy: bool, lucks: seq<Luck>, boots: seq<Luck>)
    requires HexDigests(digest) && Installable(digest, pkg) && Consistent(digest, d)
    requires IsCourse(pkg, UpdateOps(healthy), lucks)
    requires |lucks| <= 1 || GoodBackup(digest, pkg, digest(d.binary.value), Attempted(pkg, d, Backup, lucks[0]))
    ensures EitherDigest(digest, pkg, digest(d.binary.value),
                         Booted(digest, BootedAll(digest, RunOps(pkg, d, UpdateOps(healthy), lucks), boots)))
  {
    var old', ops := digest(d.binary.value), UpdateOps(healthy);
    var stopped := RunOps(pkg, d, ops, lucks);
    if |lucks| > 1 {
      RestIsCourse(pkg, ops, lucks);
      CourseIsGuarded(digest, pkg, old', Attempted(pkg, d, Backup, lucks[0]), ops[1..], lucks[1..]);
    } else if |lucks| == 1 {
      assert RunOps(pkg, d, ops, lucks) == Attempted(pkg, d, Backup, lucks[0]);
    }
    BootsKeepRecoverable(digest, pkg, old', stopped, boots);
    RecoverableBoots(digest, pkg, old', BootedAll(digest, stopped, boots));
  }

  /** Crash safety needs the stored hash: with any other stored hash, or none, there is a stop after
      which a completed boot leaves a binary that is neither old nor new. */
  lemma CrashSafeIffConsistent(digest: Digest, pkg: Package, d: Files, healthy: bool, junk: Content)
    requires HexDigests(digest) && Installable(digest, pkg)
    requires d.metaDir && d.binary.Some?
    requires digest(junk) != digest(d.binary.value) && digest(junk) != digest(pkg.binary.value)
    ensures CrashSafe(digest, pkg, d, UpdateOps(healthy), digest(d.binary.value)) <==> Consistent(digest, d)
  {
    var old', ops := digest(d.binary.value), UpdateOps(healthy);
    if Consistent(digest, d) {
      forall lucks: seq<Luck>, boots: seq<Luck> | IsCourse(pkg, ops, lucks) && Noticed(lucks)
        ensures EitherDigest(digest, pkg, old', Booted(digest, BootedAll(digest, RunOps(pkg, d, ops, lucks), boots)))
      {
        assert |lucks| > 1 ==> lucks[0].Done?;
        ConsistentIsCrashSafe(digest, pkg, d, healthy, lucks, boots);
      }
    } else {
      var lucks := if d.hash.None? then [Done, Partial(junk)] else [Partial(junk)];
      RunOne(pkg, d, ops, Partial(junk));
      RunTwo(pkg, d, ops, Done, Partial(junk));
      assert IsCourse(pkg, ops, lucks) && Noticed(lucks);
      assert !EitherDigest(digest, pkg, old', Booted(digest, BootedAll(digest, RunOps(pkg, d, ops, lucks), [])));
    }
  }

  /** The backup copy may fail without being noticed. What follows it is crash safe exactly when the
      backup file then holds the old binary or the new one, by digest. */
  lemma CrashSafeIffBackupGood(digest: Digest, pkg: Package, d: Files, healthy: bool, junk: Content)
    requires HexDigests(digest) && Installable(digest, pkg) && Consistent(digest, d)
    requires digest(junk) != digest(d.binary.value) && digest(junk) != digest(pkg.binary.value)
    ensures CrashSafe(digest, pkg, d, UpdateOps(healthy)[1..], digest(d.binary.value))
      <==> GoodBackup(digest, pkg, digest(d.binary.value), d)
  {
    var old', ops := digest(d.binary.value), UpdateOps(healthy)[1..];
    if GoodBackup(digest, pkg, old', d) {
      forall lucks: seq<Luck>, boots: seq<Luck> | IsCourse(pkg, ops, lucks) && Noticed(lucks)
        ensures EitherDigest(digest, pkg, old', Booted(digest, BootedAll(digest, RunOps(pkg, d, ops, lucks), boots)))
      {
        CourseIsGuarded(digest, pkg, old', d, ops, lucks);
        BootsKeepRecoverable(digest, pkg, old', RunOps(pkg, d, ops, lucks), boots);
        RecoverableBoots(digest, pkg, old', BootedAll(digest, RunOps(pkg, d, ops, lucks), boots));
      }
    } else {
      RunOne(pkg, d, ops, Partial(junk));
      assert IsCourse(pkg, ops, [Partial(junk)]) && Noticed([Partial(junk)]);
      assert !EitherDigest(digest, pkg, old',
          Booted(digest, BootedAll(digest, RunOps(pkg, d, ops, [Partial(junk)]), [])));
    }
  }

  // --- what fails unnoticed ---

  /** A reported success survives the next boot, by digest, exactly when the hash write took effect, or
      did nothing while old and new digest agree, or the backup file is missing or has the new digest. */
  lemma SuccessSurvivesBootIff(digest: Digest, d: Files, pkg: Package, fate: Fate)
    requires HexDigests(digest) && Consistent(digest, d)
    requires ReportsSuccess(digest, pkg, true, fate) && PossibleFate(pkg, fate)
    ensures var booted := Booted(digest, Updated(digest, d, pkg, true, fate));
      var backup := Attempted(pkg, d, Backup, fate.backup).backup;
      var old', new' := digest(d.binary.value), digest(pkg.binary.value);
      && booted.binary.Some?
      && (digest(booted.binary.value) == new' <==>
            || fate.hash.Done? || (fate.hash.Nothing? && old' == new')
            || backup.None? || digest(backup.value) == new')
      && (digest(booted.binary.value) != new' ==> booted.binary == backup)
  {
    CourseUnrolled(pkg, d, true, fate);
    assert d.(metaDir := true) == d;
    TrimDigest(digest(pkg.binary.value));
    TrimDigest(digest(d.binary.value));
  }

  /** With a whole backup: exactly when the hash write took effect or the digests agree. Otherwise the
      next boot puts the old binary back, beside whatever version text was written. */
  lemma SuccessNeedsHash(digest: Digest, d: Files, pkg: Package, fate: Fate)
    requires HexDigests(digest) && Consistent(digest, d) && fate.backup.Done?
    requires ReportsSuccess(digest, pkg, true, fate) && PossibleFate(pkg, fate)
    ensures var after := Updated(digest, d, pkg, true, fate); var booted := Booted(digest, after);
      var agree := digest(d.binary.value) == digest(pkg.binary.value);
      && booted.binary.Some?
      && (digest(booted.binary.value) == digest(pkg.binary.value) <==> fate.hash.Done? || agree)
      && (!fate.hash.Done? && !agree ==> booted.binary == d.binary)
      && (fate.version.Done? ==> booted.version == Some(Trim(pkg.version.value)))
      && (Consistent(digest, booted) <==> !fate.hash.Partial?)
  {
    SuccessSurvivesBootIff(digest, d, pkg, fate);
    CourseUnrolled(pkg, d, true, fate);
    assert d.(metaDir := true) == d;
    TrimDigest(digest(pkg.binary.value));
  }

  /** A failed health check leaves hash and version alone. It restores another binary exactly when one
      was installed, the restoring copy is whole, and the backup file holds that binary. */
  lemma FailureRestoresIff(digest: Digest, d: Files, pkg: Package, fate: Fate)
    requires Installable(digest, pkg) && fate.replace.Done? && pkg.binary != d.binary
    requires fate.restore.Partial? ==> Some(fate.restore.left) != d.binary
    ensures var after := Updated(digest, d, pkg, false, fate);
      && (after.binary == d.binary <==>
            d.binary.Some? && fate.restore.Done? && Attempted(pkg, d, Backup, fate.backup).backup == d.binary)
      && after.hash == d.hash && after.version == d.version
      && (fate.backup.Done? && d.binary.Some? ==> after.backup == d.binary)
  {
    CourseUnrolled(pkg, d.(metaDir := true), false, fate);
  }

  /** A boot after the failed health check of a consistent installation makes up for a failed
      restoration exactly when the backup file has the old digest. */
  lemma BootAfterFailure(digest: Digest, d: Files, pkg: Package, fate: Fate)
    requires HexDigests(digest) && Consistent(digest, d) && Installable(digest, pkg) && fate.replace.Done?
    ensures var after := Updated(digest, d, pkg, false, fate); var booted := Booted(digest, after);
      var backup := Attempted(pkg, d, Backup, fate.backup).backup;
      && after.binary.Some? && booted.binary.Some?
      && (digest(booted.binary.value) == digest(d.binary.value) <==>
            || digest(after.binary.value) == digest(d.binary.value)
            || (backup.Some? && digest(backup.value) == digest(d.binary.value)))
  {
    CourseUnrolled(pkg, d, false, fate);
    assert d.(metaDir := true) == d;
  }

  /** The state after a history of updates in which nothing fails. */
  function UpdatedAll(digest: Digest, d: Files, calls: seq<(Package, bool)>): Files {
    if calls == [] then d
    else
      var n := |calls| - 1;
      Updated(digest, UpdatedAll(digest, d, calls[..n]), calls[n].0, calls[n].1, SMOOTH)
  }

  /** What should be installed: the last package that was installable and came up healthy. */
  function Expected(digest: Digest, d: Files, calls: seq<(Package, bool)>): (Option<Content>, Option<string>) {
    if calls == [] then (d.binary, d.version)
    else
      var n := |calls| - 1;
      if Installable(digest, calls[n].0) && calls[n].1
      then (calls[n].0.binary, Some(Trim(calls[n].0.version.value)))
      else Expected(digest, d, calls[..n])
  }

  /** From a consistent installation, after any updates in any order whose writes all take effect, the
      installed binary and version are those of the last healthy package, the hash is its digest, and
      the boot check does nothing. */
  lemma {:induction false} UpdatesKeepConsistent(digest: Digest, d: Files, calls: seq<(Package, bool)>)
    requires HexDigests(digest) && Consistent(digest, d)
    ensures var after := UpdatedAll(digest, d, calls);
      && Consistent(digest, after) && (after.binary, after.version) == Expected(digest, d, calls)
      && Booted(digest, after) == after && !NeedsRestore(digest, after)
  {
    if calls != [] {
      var n := |calls| - 1;
      UpdatesKeepConsistent(digest, d, calls[..n]);
      var before, pkg := UpdatedAll(digest, d, calls[..n]), calls[n].0;
      if Installable(digest, pkg) {
        CourseUnrolled(pkg, before.(metaDir := true), calls[n].1, SMOOTH);
        TrimDigest(digest(pkg.binary.value));
      }
    }
  }

  // --- histories of updates that are cut off, fail unnoticed, and are followed by boots ---

  /** One update as far as it got, boots that went as they did, and one that completed. */
  datatype Round = Round(pkg: Package, healthy: bool, lucks: seq<Luck>, boots: seq<Luck>)

  predicate IsRound(digest: Digest, r: Round) {
    Installable(digest, r.pkg) ==> IsCourse(r.pkg, UpdateOps(r.healthy), r.lucks)
  }

  function AfterRound(digest: Digest, d: Files, r: Round): Files
    requires IsRound(digest, r)
  {
    var stopped :=
      if Installable(digest, r.pkg) then RunOps(r.pkg, d.(metaDir := true), UpdateOps(r.healthy), r.lucks) else d;
    Booted(digest, BootedAll(digest, stopped, r.boots))
  }

  function AfterRounds(digest: Digest, d: Files, rounds: seq<Round>): Files
    requires forall i :: 0 <= i < |rounds| ==> IsRound(digest, rounds[i])
  {
    if rounds == [] then d
    else
      var n := |rounds| - 1;
      AfterRound(digest, AfterRounds(digest, d, rounds[..n]), rounds[n])
  }

  /** The round got to the hash write, and it went like this. */
  predicate HashGoes(digest: Digest, r: Round, luck: Luck) {
    Installable(digest, r.pkg) && r.healthy && |r.lucks| > 2 && r.lucks[2] == luck
  }

  predicate Commits(digest: Digest, r: Round) {
    HashGoes(digest, r, Done)
  }

  predicate TearsHash(digest: Digest, r: Round) {
    Installable(digest, r.pkg) && r.healthy && |r.lucks| > 2 && r.lucks[2].Partial?
  }

  /** The hash was torn and not written since. */
  predicate HashTorn(digest: Digest, rounds: seq<Round>) {
    if rounds == [] then false
    else
      var n := |rounds| - 1;
      TearsHash(digest, rounds[n]) || (HashTorn(digest, rounds[..n]) && !Commits(digest, rounds[n]))
  }

  /** The digest that should be installed: that of the last package whose hash was written. */
  function LastCommitted(digest: Digest, first: string, rounds: seq<Round>): string {
    if rounds == [] then first
    else
      var n := |rounds| - 1;
      if Commits(digest, rounds[n]) then digest(rounds[n].pkg.binary.value)
      else LastCommitted(digest, first, rounds[..n])
  }

  /** The backup did not fail unnoticed, and was not cut short if it mattered. */
  predicate BackupWhole(digest: Digest, r: Round, torn: bool) {
    Installable(digest, r.pkg) && r.lucks != [] && !r.lucks[0].Done? ==>
      |r.lucks| == 1 && (torn ==> r.lucks[0].Nothing?)
  }

  ghost predicate BackupsWhole(digest: Digest, rounds: seq<Round>) {
    forall i :: 0 <= i < |rounds| ==> BackupWhole(digest, rounds[i], HashTorn(digest, rounds[..i]))
  }

  /** The binary has this digest; the hash says so, or is torn and the backup has the digest, too. */
  ghost predicate Stands(digest: Digest, d: Files, h: string, torn: bool) {
    && d.metaDir && d.binary.Some? && d.hash.Some? && digest(d.binary.value) == h
    && if torn then |Trim(d.hash.value)| < 64 && d.backup.Some? && digest(d.backup.value) == h
       else Trim(d.hash.value) == h
  }

  /** Between the backup and the hash write: the backup has the digest, the hash is as it was. */
  ghost predicate Underway(digest: Digest, d: Files, h: string, torn: bool) {
    && d.metaDir && d.binary.Some? && d.hash.Some? && d.backup.Some? && digest(d.backup.value) == h
    && if torn then |Trim(d.hash.value)| < 64 else Trim(d.hash.value) == h
  }

  lemma {:induction false} BootsEndUnderway(digest: Digest, d: Files, h: string, torn: bool, boots: seq<Luck>)
    requires HexDigests(digest) && Underway(digest, d, h, torn)
    ensures Stands(digest, Booted(digest, BootedAll(digest, d, boots)), h, torn)
    decreases |boots|
  {
    assert IsDigestText(digest(d.binary.value));
    if boots != [] {
      BootsEndUnderway(digest, BootedWith(digest, d, boots[0]), h, torn, boots[1..]);
    }
  }

  lemma {:induction false} BootsIdle(digest: Digest, d: Files, boots: seq<Luck>)
    requires d.metaDir && !NeedsRestore(digest, d)
    ensures Booted(digest, BootedAll(digest, d, boots)) == d
    decreases |boots|
  {
    if boots != [] {
      BootsIdle(digest, d, boots[1..]);
    }
  }

  /** Attempts other than the hash write, after the backup. */
  lemma StaysUnderway(digest: Digest, pkg: Package, d: Files, op: Op, luck: Luck, h: string, torn: bool)
    requires Installable(digest, pkg) && Underway(digest, d, h, torn) && !op.Backup? && !op.StoreHash?
    ensures Underway(digest, Attempted(pkg, d, op, luck), h, torn)
  {
  }

  /** The state a round stops in. */
  lemma RoundStops(digest: Digest, d: Files, r: Round, h: string, torn: bool)
    requires HexDigests(digest) && Stands(digest, d, h, torn) && Installable(digest, r.pkg)
    requires IsRound(digest, r) && BackupWhole(digest, r, torn) && |r.lucks| > 1
    ensures var stopped := RunOps(r.pkg, d, UpdateOps(r.healthy), r.lucks);
      if Commits(digest, r) then Stands(digest, stopped, digest(r.pkg.binary.value), false)
      else Underway(digest, stopped, h, torn || TearsHash(digest, r))
  {
    var pkg, ops, lucks := r.pkg, UpdateOps(r.healthy), r.lucks;
    var d1 := Attempted(pkg, d, Backup, lucks[0]);
    var d2 := Attempted(pkg, d1, Replace, lucks[1]);
    StaysUnderway(digest, pkg, d1, Replace, lucks[1], h, torn);
    TrimDigest(digest(pkg.binary.value));
    assert lucks[1..][1..] == lucks[2..] && ops[1..][1..] == ops[2..];
    assert RunOps(pkg, d, ops, lucks) == RunOps(pkg, d2, ops[2..], lucks[2..]);
    if |lucks| > 2 {
      assert Possible(pkg, ops[2], lucks[2]);
      assert ops[1].Replace? && lucks[1].Done?;
      var d3 := Attempted(pkg, d2, ops[2], lucks[2]);
      if !r.healthy {
        RestOfRound(pkg, d2, ops, lucks);
        StaysUnderway(digest, pkg, d2, Restore, lucks[2], h, torn);
      } else {
        RestOfRound(pkg, d2, ops, lucks);
        assert lucks[2].Partial? ==> |Trim(lucks[2].left)| < |Trim(pkg.hash.value)|;
        if |lucks| > 3 && !Commits(digest, r) {
          StaysUnderway(digest, pkg, d3, StoreVersion, lucks[3], h, torn || TearsHash(digest, r));
        }
      }
    }
  }

  lemma RestOfRound(pkg: Package, d: Files, ops: seq<Op>, lucks: seq<Luck>)
    requires pkg.binary.Some? && pkg.hash.Some? && pkg.version.Some?
    requires 2 < |lucks| <= |ops| && |lucks| <= 4
    ensures var third := Attempted(pkg, d, ops[2], lucks[2]);
      RunOps(pkg, d, ops[2..], lucks[2..]) == if |lucks| == 3 then third else Attempted(pkg, third, ops[3], lucks[3])
  {
    if |lucks| == 3 {
      assert lucks[2..] == [lucks[2]];
      RunOne(pkg, d, ops[2..], lucks[2]);
    } else {
      assert lucks[2..] == [lucks[2], lucks[3]];
      RunTwo(pkg, d, ops[2..], lucks[2], lucks[3]);
    }
  }

  lemma RoundStands(digest: Digest, d: Files, r: Round, h: string, torn: bool)
    requires HexDigests(digest) && Stands(digest, d, h, torn)
    requires IsRound(digest, r) && BackupWhole(digest, r, torn)
    ensures Stands(digest, AfterRound(digest, d, r), if Commits(digest, r) then digest(r.pkg.binary.value) else h,
                   TearsHash(digest, r) || (torn && !Commits(digest, r)))
  {
    var pkg := r.pkg;
    assert IsDigestText(h);
    assert d.(metaDir := true) == d;
    if !Installable(digest, pkg) || |r.lucks| <= 1 {
      var stopped := if Installable(digest, pkg) && |r.lucks| == 1 then Attempted(pkg, d, Backup, r.lucks[0]) else d;
      if Installable(digest, pkg) && |r.lucks| == 1 {
        RunOne(pkg, d, UpdateOps(r.healthy), r.lucks[0]);
        assert r.lucks == [r.lucks[0]];
      }
      if torn {
        BootsEndUnderway(digest, stopped, h, torn, r.boots);
      } else {
        BootsIdle(digest, stopped, r.boots);
      }
    } else {
      RoundStops(digest, d, r, h, torn);
      var stopped := RunOps(pkg, d, UpdateOps(r.healthy), r.lucks);
      if Commits(digest, r) {
        BootsIdle(digest, stopped, r.boots);
      } else {
        BootsEndUnderway(digest, stopped, h, torn || TearsHash(digest, r), r.boots);
      }
    }
  }

  /** From a consistent installation, over any history of updates cut off anywhere or failing unnoticed
      after the backup, each followed by boots of which the last completes: the installed binary has the
      digest of the last package whose hash was written, and the installation is consistent exactly when
      no hash write was torn since. A backup must only not be cut short while the hash is torn. */
  lemma {:induction false} InterruptedHistory(digest: Digest, d: Files, rounds: seq<Round>)
    requires HexDigests(digest) && Consistent(digest, d)
    requires (forall i :: 0 <= i < |rounds| ==> IsRound(digest, rounds[i])) && BackupsWhole(digest, rounds)
    ensures var after := AfterRounds(digest, d, rounds);
      && after.binary.Some? && digest(after.binary.value) == LastCommitted(digest, digest(d.binary.value), rounds)
      && (Consistent(digest, after) <==> !HashTorn(digest, rounds))
    ensures Stands(digest, AfterRounds(digest, d, rounds), LastCommitted(digest, digest(d.binary.value), rounds),
        HashTorn(digest, rounds))
  {
    if rounds != [] {
      var n := |rounds| - 1;
      assert forall i :: 0 <= i < n ==> rounds[..n][..i] == rounds[..i];
      InterruptedHistory(digest, d, rounds[..n]);
      assert BackupWhole(digest, rounds[n], HashTorn(digest, rounds[..n]));
      RoundStands(digest, AfterRounds(digest, d, rounds[..n]), rounds[n],
          LastCommitted(digest, digest(d.binary.value), rounds[..n]), HashTorn(digest, rounds[..n]));
    }
    CommittedIsDigest(digest, d.binary.value, rounds);
  }

  lemma {:induction false} CommittedIsDigest(digest: Digest, first: Content, rounds: seq<Round>)
    requires HexDigests(digest)
    ensures IsDigestText(LastCommitted(digest, digest(first), rounds))
  {
    if rounds != [] {
      CommittedIsDigest(digest, first, rounds[..|rounds| - 1]);
    }
  }

  // --- which packages are taken, and what a boot does, over the files themselves ---

  /** A package that lacks a file, whose hash is not its binary's, or whose signature was rejected leaves
      everything untouched and is not reported as a success; any other one is, if the copy is whole and the
      service comes up, and then is the installed binary. */
  lemma RefusedIffFaulty(digest: Digest, d: Files, pkg: Package, healthy: bool, fate: Fate)
    ensures var faulty := || pkg.binary == None || pkg.hash == None || pkg.version == None || pkg.signatureRejected
                          || Trim(pkg.hash.value) != digest(pkg.binary.value);
      && (faulty ==> Updated(digest, d, pkg, healthy, fate) == d && !ReportsSuccess(digest, pkg, healthy, fate))
      && (!faulty ==>
            && (ReportsSuccess(digest, pkg, healthy, fate) <==> fate.replace == Done && healthy)
            && (ReportsSuccess(digest, pkg, healthy, fate) ==>
                Updated(digest, d, pkg, healthy, fate).binary == pkg.binary))
  {
    if Installable(digest, pkg) {
      CourseUnrolled(pkg, d.(metaDir := true), healthy, fate);
    }
  }

  /** A completed update, file by file. */
  lemma UpdateFileByFile(digest: Digest, d: Files, pkg: Package, healthy: bool)
    requires pkg.binary.Some? && pkg.hash.Some? && pkg.version.Some? && !pkg.signatureRejected
    requires Trim(pkg.hash.value) == digest(pkg.binary.value)
    ensures var backup := if d.binary.Some? then d.binary else d.backup;
      Updated(digest, d, pkg, healthy, Fate(Done, Done, Done, Done, Done)) ==
        if healthy then Files(true, pkg.binary, backup, Some(digest(pkg.binary.value)), Some(Trim(pkg.version.value)))
        else Files(true, if backup.Some? then backup else pkg.binary, backup, d.hash, d.version)
  {
    CourseUnrolled(pkg, d.(metaDir := true), healthy, SMOOTH);
  }

  /** A boot copies the backup over the binary exactly if there is one, and a stored hash that is not that
      of the installed binary, or the binary is missing; without a metadata directory it only makes that. */
  lemma BootFileByFile(digest: Digest, d: Files)
    requires forall c :: digest(c) != ""
    ensures Booted(digest, d) ==
      if !d.metaDir then Files(true, d.binary, d.backup, d.hash, d.version)
      else if d.backup.Some? && d.hash.Some?
          && Trim(d.hash.value) != (if d.binary.Some? then digest(d.binary.value) else "")
      then Files(true, d.backup, d.backup, d.hash, d.version)
      else d
  {
  }

  /** What a write that stops part way leaves: that part, in the file it was for, and nothing else. */
  lemma CutOffWrites(digest: Digest, pkg: Package, d: Files, left: Content)
    requires pkg.binary.Some? && pkg.hash.Some? && pkg.version.Some?
    ensures Attempted(pkg, d, Backup, Partial(left)) ==
      Files(d.metaDir, d.binary, if d.binary.Some? then Some(left) else d.backup, d.hash, d.version)
    ensures Attempted(pkg, d, Replace, Partial(left)) == Files(d.metaDir, Some(left), d.backup, d.hash, d.version)
    ensures Attempted(pkg, d, StoreHash, Partial(left)) == Files(d.metaDir, d.binary, d.backup, Some(left), d.version)
    ensures Attempted(pkg, d, StoreVersion, Partial(left)) == Files(d.metaDir, d.binary, d.backup, d.hash, Some(left))
    ensures Attempted(pkg, d, Restore, Partial(left)) ==
      Files(d.metaDir, if d.backup.Some? then Some(left) else d.binary, d.backup, d.hash, d.version)
    ensures BootedWith(digest, d, Partial(left)) ==
      if NeedsRestore(digest, d) && d.backup.Some? then Files(d.metaDir, Some(left), d.backup, d.hash, d.version)
      else Booted(digest, d)
    ensures forall op :: Attempted(pkg, d, op, Nothing) == d
  {
  }

  /** Every call that is not cut off is a course of its operations, and so is every such call cut off after
      any of them or inside the next. */
  lemma EveryStopIsCourse(pkg: Package, healthy: bool, fate: Fate, n: nat, luck: Luck)
    requires pkg.hash.Some? && PossibleFate(pkg, fate)
    requires n < |Course(healthy, fate)| && Possible(pkg, UpdateOps(healthy)[n], luck)
    ensures IsCourse(pkg, UpdateOps(healthy), Course(healthy, fate))
    ensures IsCourse(pkg, UpdateOps(healthy), Course(healthy, fate)[..n] + [luck])
    ensures IsCourse(pkg, UpdateOps(healthy), Course(healthy, fate)[..n])
  {
  }
}
