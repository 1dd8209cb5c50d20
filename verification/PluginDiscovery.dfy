/** What discovery demands, file by file, and what follows for recovery, for the rows it makes and for
    every history: the binary found is always the one its checksum file spells. */
module PluginDiscovery {
  import opened PluginCalls
  import opened PluginDisk
  import opened PluginHistory
  import opened PluginTransactions
  import opened Text
  import opened Wrappers

  /** The binary is there, and the checksum file, without surrounding white space, is its digest: 64
      hexadecimal digits, capital or small. */
  predicate BinaryAsSpelled(env: Env, d: Dir) {
    && Current in d && d[Current].Tree? && env.id in d[Current].files
    && Checksum in d && d[Checksum].File?
    && var text := Trim(d[Checksum].content);
      && |text| == 64 && (forall i :: 0 <= i < 64 ==> text[i] in "0123456789abcdefABCDEF")
      && env.digest(d[Current].files[env.id]) == AsciiLower(text)
  }

  /** The manifest is there, valid, and names this binary; the service file is there. */
  predicate PapersInOrder(env: Env, d: Dir) {
    && Manifest in d && d[Manifest].File? && env.manifestId(d[Manifest].content) == Some(env.id)
    && Service in d && d[Service].File?
  }

  /** The signature to check, the newer name before the older one, is good, or there is none, or no
      certificate to check it with. */
  predicate SignatureInOrder(env: Env, d: Dir, binary: Content) {
    if !env.certPresent then true
    else if Sig in d && d[Sig].File? then env.verify(binary, d[Sig].content)
    else Sign in d && d[Sign].File? ==> env.verify(binary, d[Sign].content)
  }

  /** Discovery finds a plugin exactly if all of this holds. */
  lemma DiscoverableFileByFile(env: Env, d: Dir)
    ensures Discoverable(env, d) <==>
      BinaryAsSpelled(env, d) && PapersInOrder(env, d) && SignatureInOrder(env, d, d[Current].files[env.id])
  {
    if Checksum in d && d[Checksum].File? {
      DigestByDigit(Trim(d[Checksum].content));
    }
  }

  /** A live plugin is replaced by the whole one set aside exactly if something is wrong with it; in
      particular if its binary is not the one its checksum file spells. Otherwise it stays, and what was
      set aside is dropped. */
  lemma RecoveryChoosesByFiles(env: Env, d: Disk, recovery: Undo)
    requires d.saved.Some? && !CutOff(recovery)
    requires var aside := d.saved.value.dir;
      && BinaryAsSpelled(env, aside) && PapersInOrder(env, aside)
      && SignatureInOrder(env, aside, aside[Current].files[env.id])
    ensures var after := Recovered(env, d, recovery);
      if BinaryAsSpelled(env, d.live) && PapersInOrder(env, d.live)
         && SignatureInOrder(env, d.live, d.live[Current].files[env.id])
      then after == d.(saved := None)
      else after.live == d.saved.value.dir && after.unit == None
  {
    DiscoverableFileByFile(env, d.live);
    DiscoverableFileByFile(env, d.saved.value.dir);
  }

  /** Without a whole plugin in either place recovery changes nothing. */
  lemma RecoveryLeavesBroken(env: Env, d: Disk, recovery: Undo)
    requires !BinaryAsSpelled(env, d.live)
    requires d.saved.Some? ==> !BinaryAsSpelled(env, d.saved.value.dir)
    ensures Recovered(env, d, recovery) == d
  {
    DiscoverableFileByFile(env, d.live);
    if d.saved.Some? {
      DiscoverableFileByFile(env, d.saved.value.dir);
    }
  }

  /** A row is made exactly for a plugin without one that is in order, if no other plugin's row has its
      service or its link; it says what manifest and checksum file say. */
  lemma RowMadeFor(env: Env, others: Others, d: Disk)
    ensures var found := Discovered(env, others, d);
      var inOrder := BinaryAsSpelled(env, d.live) && PapersInOrder(env, d.live)
                     && SignatureInOrder(env, d.live, d.live[Current].files[env.id]);
      if d.record == None && inOrder && !others.serviceTaken
         && (env.manifestLink(d.live[Manifest].content).Some? ==>
               env.manifestLink(d.live[Manifest].content).value !in others.links)
      then found == d.(record := Some(Record(env.manifestVersion(d.live[Manifest].content),
                                             Trim(d.live[Checksum].content),
                                             env.manifestLink(d.live[Manifest].content))))
      else found == d
  {
    DiscoverableFileByFile(env, d.live);
  }

  /** A call whose plugin is in order and registered, with nothing else stopping it, gets through opening
      exactly if its recorded link is free or its own and no other plugin's row has its service or its
      new link. It then has its recorded link. */
  lemma OpeningDecides(env: Env, d: Disk, others: Others, recovery: Undo, newLink: Option<string>)
    requires d.record.Some? && d.saved == None && BinaryAsSpelled(env, d.live)
    ensures var link := d.record.value.binPath;
      var free := link.Some? && link.value in d.links ==> d.links[link.value] == Symlink(env.target);
      var named := !others.serviceTaken && (newLink.Some? ==> newLink.value !in others.links);
      var linked := if link.Some? then d.(links := d.links[link.value := Symlink(env.target)]) else d;
      Opened(env, d, others, None, recovery, newLink) ==
        if !free then Halted(d) else if named then Ready(linked) else Halted(linked)
  {
  }

  lemma FoundIsSpelled(env: Env, d: Disk)
    ensures Found(env, d).Some? ==> BinaryAsSpelled(env, Found(env, d).value)
  {
    if Found(env, d).Some? {
      DiscoverableFileByFile(env, Found(env, d).value);
    }
  }

  /** After any harmless history a plugin that was there, or was installed, is found, and its binary is
      the one its checksum file spells; after any other one it is, if it is found at all. */
  lemma FoundBinaryMatchesChecksum(env: Env, d: Disk, calls: seq<Call>)
    ensures var found := Found(env, History(env, d, calls)); found.Some? ==> BinaryAsSpelled(env, found.value)
    ensures
      ((Found(env, d).Some? || Bare(env, d)) && AllHarmless(env, d, calls)
       && (Found(env, d).Some? || LastKept(env, d, calls).Some?)) ==>
      Found(env, History(env, d, calls)).Some?
  {
    FoundIsSpelled(env, History(env, d, calls));
    if (Found(env, d).Some? || Bare(env, d)) && AllHarmless(env, d, calls) {
      HistoryWithCrashes(env, d, calls);
    }
  }

  // --- when an install goes through ---

  /** The signature steps: a new signature is the one file left of the two names; without a new one the first of
      the two that exists is removed. */
  lemma SignatureSteps(env: Env, pkg: Pkg, recorded: Option<string>, d: Disk)
    ensures var settled := Effect(env, pkg, recorded, d, SettleSignature);
      var live := Effect(env, pkg, recorded, settled, DropLegacySign).live;
      live ==
        if pkg.signature.Some? then (d.live - {Sign})[Sig := File(pkg.signature.value)]
        else if Sig in d.live then d.live - {Sig}
        else d.live - {Sign}
  {
    if pkg.signature.Some? {
      assert d.live[Sig := File(pkg.signature.value)] - {Sign} == (d.live - {Sign})[Sig := File(pkg.signature.value)];
    }
  }

  /** A link step fails by itself exactly if something that is not ours is at its path. */
  lemma BlockedByOthers(env: Env, pkg: Pkg, recorded: Option<string>, d: Disk, s: Step)
    ensures Blocked(env, pkg, recorded, d, s) <==>
      || (s == DropRecordedLink && recorded.Some? && recorded.value in d.links
          && d.links[recorded.value] != Symlink(env.target))
      || (s == ClearNewLink && pkg.binPath.Some? && pkg.binPath.value in d.links
          && d.links[pkg.binPath.value] != Symlink(env.target))
  {
  }

  lemma {:induction false} LinksUntouched(env: Env, pkg: Pkg, recorded: Option<string>, d: Disk, steps: seq<Step>)
    requires forall i :: 0 <= i < |steps| ==> !IsLinkStep(steps[i])
    ensures Run(env, pkg, recorded, d, steps).links == d.links
  {
    if steps != [] {
      LinksUntouched(env, pkg, recorded, d, steps[..|steps| - 1]);
    }
  }

  lemma LinksAtDrop(env: Env, pkg: Pkg, recorded: Option<string>, d: Disk)
    ensures DropStep(pkg) + 1 < |InstallSteps(pkg)|
    ensures InstallSteps(pkg)[DropStep(pkg)] == DropRecordedLink && InstallSteps(pkg)[DropStep(pkg) + 1] == ClearNewLink
    ensures Run(env, pkg, recorded, d, InstallSteps(pkg)[..DropStep(pkg)]).links == d.links
    ensures Run(env, pkg, recorded, d, InstallSteps(pkg)[..DropStep(pkg) + 1]).links ==
        DropOwnedLink(env, d, recorded).links
  {
    var steps, i := InstallSteps(pkg), DropStep(pkg);
    StepsShape(pkg);
    forall j | 0 <= j < i
      ensures !IsLinkStep(steps[..i][j])
    {
      NoLinkStepBefore(pkg, j);
    }
    LinksUntouched(env, pkg, recorded, d, steps[..i]);
    assert steps[..i + 1] == steps[..i] + [DropRecordedLink];
    RunSnoc(env, pkg, recorded, d, steps[..i], DropRecordedLink);
  }

  lemma NoLinkStepBefore(pkg: Pkg, j: nat)
    requires j < DropStep(pkg)
    ensures j < |InstallSteps(pkg)| && !IsLinkStep(InstallSteps(pkg)[j])
  {
    StepsShape(pkg);
    var pre := StepsBeforeChecksum(pkg);
    if j < |pre| {
      assert InstallSteps(pkg)[j] == pre[j] && Builds(pre[j]);
    }
  }

  lemma OnlyLinkStepsBlock(pkg: Pkg, i: nat)
    requires i < |InstallSteps(pkg)| && i != DropStep(pkg) && i != DropStep(pkg) + 1
    ensures !InstallSteps(pkg)[i].DropRecordedLink? && !InstallSteps(pkg)[i].ClearNewLink?
  {
    StepsShape(pkg);
    if i < |StepsBeforeChecksum(pkg)| {
      assert Builds(StepsBeforeChecksum(pkg)[i]);
    }
  }

  /** Which steps stop an install that nothing else fails: the new link's, exactly if something that is not
      ours is at its path, and no other. */
  lemma OwnStops(env: Env, pkg: Pkg, start: Disk, i: nat)
    requires !ForeignLink(env, start) && i < |InstallSteps(pkg)|
    ensures Stops(env, pkg, LinkNoted(env, Prepared(start)), InstallSteps(pkg), None, i) <==>
      i == DropStep(pkg) + 1 && pkg.binPath.Some? && pkg.binPath.value in start.links
      && start.links[pkg.binPath.value] != Symlink(env.target)
  {
    var begun := LinkNoted(env, Prepared(start));
    LinksAtDrop(env, pkg, RecordedLink(begun), begun);
    if i != DropStep(pkg) && i != DropStep(pkg) + 1 {
      OnlyLinkStepsBlock(pkg, i);
    }
  }

  /** A call that gets through opening and that nothing fails succeeds exactly if its new path is free or
      already a link of ours; else it is rolled back at that step. */
  lemma SucceedsIffPathFree(env: Env, d: Disk, c: Call)
    requires OpenedFor(env, d, c).Ready? && c.fault == None && (Found(env, d).Some? || Bare(env, d))
    ensures var links, path := OpenedFor(env, d, c).disk.links, c.pkg.binPath;
      Succeeds(env, d, c) <==> (path.Some? && path.value in links ==> links[path.value] == Symlink(env.target))
    ensures !Succeeds(env, d, c) ==> FailsIn(env, d, c) && StopIn(env, d, c) == DropStep(c.pkg) + 1
  {
    OpeningKeepsPlugin(env, d, c);
    var start, k := OpenedFor(env, d, c).disk, StopIn(env, d, c);
    var steps := InstallSteps(c.pkg);
    StepsShape(c.pkg);
    OwnStops(env, c.pkg, start, DropStep(c.pkg) + 1);
    if k < |steps| {
      OwnStops(env, c.pkg, start, k);
    }
  }

  /** Where a call stops that gets to its steps: at the step the environment fails or the device stops at, or
      before it at the new link's step if something that is not ours is at that path; else at the end. It
      succeeds exactly if it gets to the end and the device does not stop there, and then leaves no rollback
      data. */
  lemma StopsWhere(env: Env, d: Disk, c: Call)
    requires OpenedFor(env, d, c).Ready? && (Found(env, d).Some? || Bare(env, d))
    requires c.fault.Some? ==> c.fault.value.Fails? || c.fault.value.Crashes?
    ensures var links, path := OpenedFor(env, d, c).disk.links, c.pkg.binPath;
      var taken := path.Some? && path.value in links && links[path.value] != Symlink(env.target);
      var n := |InstallSteps(c.pkg)|;
      var struck := if c.fault.Some? && c.fault.value.at < n then c.fault.value.at else n;
      && StopIn(env, d, c) == (if taken && DropStep(c.pkg) + 1 < struck then DropStep(c.pkg) + 1 else struck)
      && (Succeeds(env, d, c) <==>
            StopIn(env, d, c) == n && !(c.fault.Some? && c.fault.value.Crashes? && c.fault.value.at == n))
      && (FailsIn(env, d, c) <==>
            StopIn(env, d, c) < n
            && !(c.fault.Some? && c.fault.value.Crashes? && c.fault.value.at == StopIn(env, d, c)))
      && (Succeeds(env, d, c) ==> InstallCall(env, d, c).saved == None)
  {
    OpeningKeepsPlugin(env, d, c);
    var start, k := OpenedFor(env, d, c).disk, StopIn(env, d, c);
    var steps := InstallSteps(c.pkg);
    StepsShape(c.pkg);
    StopsOrStruck(env, c.pkg, start, c.fault, DropStep(c.pkg) + 1);
    if c.fault.Some? && c.fault.value.at < |steps| {
      StopsOrStruck(env, c.pkg, start, c.fault, c.fault.value.at);
    }
    if k < |steps| {
      StopsOrStruck(env, c.pkg, start, c.fault, k);
    }
  }

  lemma StopsOrStruck(env: Env, pkg: Pkg, start: Disk, fault: Option<Fault>, i: nat)
    requires !ForeignLink(env, start) && i < |InstallSteps(pkg)|
    requires fault.Some? ==> fault.value.Fails? || fault.value.Crashes?
    ensures Stops(env, pkg, LinkNoted(env, Prepared(start)), InstallSteps(pkg), fault, i) <==>
      || (fault.Some? && fault.value.at == i)
      || (i == DropStep(pkg) + 1 && pkg.binPath.Some? && pkg.binPath.value in start.links
          && start.links[pkg.binPath.value] != Symlink(env.target))
  {
    OwnStops(env, pkg, start, i);
  }
}
