/** One plugin on disk, and what every step of installing, rolling back and recovering does to it. */
module PluginDisk {
  import opened Text
  import opened Wrappers

  /** File contents, one character per byte. */
  type Content = string

  /** The names a plugin directory holds; all derive from the plugin's one binary name. */
  datatype Entry = Current | Package | Manifest | Service | Checksum | Sig | Sign

  datatype Node = File(content: Content) | Tree(files: map<string, Content>)

  type Dir = map<Entry, Node>

  /** The `.rollback` directory: the moved entries and the two lines of `bin_path.rollback`. */
  datatype Saved = Saved(dir: Dir, link: Option<(string, string)>)

  /** What a path outside the store may hold. A folder cannot be removed like a file. */
  datatype LinkNode = Symlink(target: string) | Plain | Folder

  /** The database row, as far as installing looks at it. */
  datatype Record = Record(version: string, sha256: string, binPath: Option<string>)

  datatype Disk = Disk(live: Dir, saved: Option<Saved>, unit: Option<Content>, links: map<string, LinkNode>,
      record: Option<Record>)

  /** What lies outside the disk: the plugin's names, SHA-256 in hex, what a valid manifest says
      (binary name, version, symlink), signature checking, and whether the official certificate is
      present. */
  datatype Env = Env(
    id: string,
    target: string,
    digest: Content -> string,
    manifestId: Content -> Option<string>,
    manifestVersion: Content -> string,
    manifestLink: Content -> Option<string>,
    verify: (Content, Content) -> bool,
    certPresent: bool)

  datatype Pkg = Pkg(
    binary: Content,
    customFiles: seq<(string, Content)>,
    zip: Content,
    manifest: Content,
    service: Content,
    sha256: string,
    signature: Option<Content>,
    binPath: Option<string>,
    version: string)

  // --- discovery ---

  /** The checksum file holds a digest, up to case and surrounding blanks, of these bytes. */
  predicate ChecksumMatches(env: Env, checksum: Content, binary: Content) {
    IsDigestText(Trim(checksum)) && env.digest(binary) == AsciiLower(Trim(checksum))
  }

  predicate HasFile(d: Dir, e: Entry) {
    e in d && d[e].File?
  }

  predicate HasBinary(env: Env, d: Dir) {
    Current in d && d[Current].Tree? && env.id in d[Current].files
  }

  predicate SignatureAccepted(env: Env, d: Dir, binary: Content) {
    if HasFile(d, Sig) then !env.certPresent || env.verify(binary, d[Sig].content)
    else if HasFile(d, Sign) then !env.certPresent || env.verify(binary, d[Sign].content)
    else true
  }

  /** `discover_plugin_record` succeeds. Every file it looks for is named after the binary the
      manifest leads to, so a manifest for another binary finds nothing here. */
  predicate Discoverable(env: Env, d: Dir) {
    && HasFile(d, Manifest) && env.manifestId(d[Manifest].content) == Some(env.id)
    && HasBinary(env, d) && HasFile(d, Service) && HasFile(d, Checksum)
    && ChecksumMatches(env, d[Checksum].content, d[Current].files[env.id])
    && SignatureAccepted(env, d, d[Current].files[env.id])
  }

  // --- preparing ---

  /** What `prepare_rollback` sets aside: the live entries, with the service file overwritten by
      the systemd unit when there is one. */
  function Preserved(d: Disk): Dir {
    if d.unit.Some? then d.live[Service := File(d.unit.value)] else d.live
  }

  function Prepared(d: Disk): Disk {
    d.(live := map[], saved := Some(Saved(Preserved(d), None)))
  }

  /** Whether entries are being moved into the rollback directory or back, and the place of each in that
      order. Entries are removed in the order of moving away. */
  datatype Direction = Away | Back

  function Rank(way: Direction, e: Entry): nat {
    match e
    case Current => 0
    case Package => 1
    case Manifest => 2
    case Service => if way.Away? then 3 else 5
    case Checksum => if way.Away? then 4 else 6
    case Sig => if way.Away? then 5 else 3
    case Sign => if way.Away? then 6 else 4
  }

  /** The entries that have been moved after n of the seven moves, and those that have not. */
  function Moved(dir: Dir, way: Direction, n: nat): Dir {
    map e | e in dir && Rank(way, e) < n :: dir[e]
  }

  function Unmoved(dir: Dir, way: Direction, n: nat): Dir {
    map e | e in dir && Rank(way, e) >= n :: dir[e]
  }

  /** Where `prepare_rollback` can stop before its end: after some of its moves, or while the systemd
      unit is copied over the saved service file. */
  datatype Preparing = Moving(n: nat) | Copying(text: Content)

  function PreparedUpTo(d: Disk, at: Preparing): Disk {
    match at
    case Moving(n) => d.(live := Unmoved(d.live, Away, n), saved := Some(Saved(Moved(d.live, Away, n), None)))
    case Copying(text) =>
      d.(live := map[], saved := Some(Saved(if d.unit.Some? then d.live[Service := File(text)] else d.live, None)))
  }

  predicate OwnsLink(env: Env, d: Disk, path: string) {
    path in d.links && d.links[path] == Symlink(env.target)
  }

  function RecordedLink(d: Disk): Option<string> {
    if d.record.Some? then d.record.value.binPath else None
  }

  /** The recorded link is somebody else's. */
  predicate ForeignLink(env: Env, d: Disk) {
    RecordedLink(d).Some? && RecordedLink(d).value in d.links && !OwnsLink(env, d, RecordedLink(d).value)
  }

  function LinkNoted(env: Env, d: Disk): Disk
    requires d.saved.Some?
  {
    var note := if RecordedLink(d).Some? && OwnsLink(env, d, RecordedLink(d).value)
                then Some((RecordedLink(d).value, env.target)) else None;
    d.(saved := Some(d.saved.value.(link := note)))
  }

  // --- installing ---

  datatype Step =
    | RemoveCurrent
    | MakeCurrent
    | WriteBinary
    | WriteCustom(path: string, bytes: Content)
    | WritePackage
    | WriteManifest
    | WriteService
    | WriteChecksum
    | SettleSignature
    | DropLegacySign
    | WriteUnit
    | Reload
    | DropRecordedLink
    | ClearNewLink
    | CreateNewLink
    | StartAndPoll
    | Upsert

  function CustomSteps(files: seq<(string, Content)>): (r: seq<Step>)
    ensures |r| == |files| && forall i :: 0 <= i < |r| ==> r[i].WriteCustom?
  {
    seq(|files|, i requires 0 <= i < |files| => WriteCustom(files[i].0, files[i].1))
  }

  function StepsBeforeChecksum(pkg: Pkg): seq<Step> {
    [RemoveCurrent, MakeCurrent, WriteBinary] + CustomSteps(pkg.customFiles) +
    [WritePackage, WriteManifest, WriteService]
  }

  function StepsAfterChecksum(): seq<Step> {
    [SettleSignature, DropLegacySign, WriteUnit, Reload, DropRecordedLink, ClearNewLink, CreateNewLink,
     StartAndPoll, Upsert]
  }

  function InstallSteps(pkg: Pkg): seq<Step> {
    StepsBeforeChecksum(pkg) + [WriteChecksum] + StepsAfterChecksum()
  }

  function PutFile(d: Disk, e: Entry, content: Content): Disk {
    d.(live := d.live[e := File(content)])
  }

  function PutInCurrent(d: Disk, path: string, content: Content): Disk {
    if Current in d.live && d.live[Current].Tree?
    then d.(live := d.live[Current := Tree(d.live[Current].files[path := content])])
    else d
  }

  function Without(d: Disk, e: Entry): Disk {
    d.(live := d.live - {e})
  }

  function DropOwnedLink(env: Env, d: Disk, path: Option<string>): Disk {
    if path.Some? && OwnsLink(env, d, path.value) then d.(links := d.links - {path.value}) else d
  }

  /** A step that runs to completion. `recorded` is the link of the row loaded before installing. */
  function Effect(env: Env, pkg: Pkg, recorded: Option<string>, d: Disk, s: Step): Disk {
    match s
    case RemoveCurrent => Without(d, Current)
    case MakeCurrent => if Current in d.live then d else d.(live := d.live[Current := Tree(map[])])
    case WriteBinary => PutInCurrent(d, env.id, pkg.binary)
    case WriteCustom(path, bytes) => PutInCurrent(d, path, bytes)
    case WritePackage => PutFile(d, Package, pkg.zip)
    case WriteManifest => PutFile(d, Manifest, pkg.manifest)
    case WriteService => PutFile(d, Service, pkg.service)
    case WriteChecksum => PutFile(d, Checksum, pkg.sha256 + "\n")
    case SettleSignature =>
      if pkg.signature.Some? then PutFile(d, Sig, pkg.signature.value)
      else if Sig in d.live then Without(d, Sig)
      else Without(d, Sign)
    case DropLegacySign => if pkg.signature.Some? then Without(d, Sign) else d
    case WriteUnit => d.(unit := Some(pkg.service))
    case Reload => d
    case DropRecordedLink => DropOwnedLink(env, d, recorded)
    case ClearNewLink => DropOwnedLink(env, d, pkg.binPath)
    case CreateNewLink =>
      if pkg.binPath.Some? && pkg.binPath.value !in d.links
      then d.(links := d.links[pkg.binPath.value := Symlink(env.target)])
      else d
    case StartAndPoll => d
    case Upsert => d.(record := Some(Record(pkg.version, pkg.sha256, pkg.binPath)))
  }

  /** A step that stops part way. Writes may leave any bytes in place of the file; the other steps
      are single file system operations and leave nothing. */
  function Torn(env: Env, pkg: Pkg, d: Disk, s: Step, residue: Option<Content>): Disk {
    if residue.None? then d
    else
      match s
      case WriteBinary => PutInCurrent(d, env.id, residue.value)
      case WriteCustom(path, _) => PutInCurrent(d, path, residue.value)
      case WritePackage => PutFile(d, Package, residue.value)
      case WriteManifest => PutFile(d, Manifest, residue.value)
      case WriteService => PutFile(d, Service, residue.value)
      case WriteChecksum => PutFile(d, Checksum, residue.value)
      case SettleSignature => if pkg.signature.Some? then PutFile(d, Sig, residue.value) else d
      case WriteUnit => d.(unit := Some(residue.value))
      case _ => d
  }

  /** The conflicts that make a link step fail by itself. */
  predicate Blocked(env: Env, pkg: Pkg, recorded: Option<string>, d: Disk, s: Step) {
    match s
    case DropRecordedLink => recorded.Some? && recorded.value in d.links && !OwnsLink(env, d, recorded.value)
    case ClearNewLink => pkg.binPath.Some? && pkg.binPath.value in d.links && !OwnsLink(env, d, pkg.binPath.value)
    case _ => false
  }

  function Run(env: Env, pkg: Pkg, recorded: Option<string>, d: Disk, steps: seq<Step>): Disk {
    if steps == [] then d
    else Effect(env, pkg, recorded, Run(env, pkg, recorded, d, steps[..|steps| - 1]), steps[|steps| - 1])
  }

  /** The disk when installing stopped at step k: before it when nothing was left behind. */
  function Interrupted(env: Env, pkg: Pkg, d: Disk, k: nat, residue: Option<Content>): Disk
    requires k <= |InstallSteps(pkg)|
  {
    var steps := InstallSteps(pkg);
    var before := Run(env, pkg, RecordedLink(d), d, steps[..k]);
    if k == |steps| then before else Torn(env, pkg, before, steps[k], residue)
  }

  // --- rolling back and recovering ---

  /** How a rollback goes. It works; or its first or second reload of systemd fails (the second takes
      place only without a row); or it stops before: while the current directory is being removed, some
      of its files left, after some of the seven removals, or after some of the seven restorations. */
  datatype Undo =
    | Work
    | FirstFails
    | SecondFails
    | ClearingCurrent(left: set<string>)
    | Clearing(removed: nat)
    | Restoring(restored: nat)

  /** It stops before the unit is removed. */
  predicate CutOff(undo: Undo) {
    undo.ClearingCurrent? || undo.Clearing? || undo.Restoring?
  }

  function Note(d: Disk): Option<(string, string)> {
    if d.saved.Some? then d.saved.value.link else None
  }

  /** The noted path has become a folder, which `restore_bin_path` cannot replace. */
  predicate LinkStuck(d: Disk) {
    Note(d).Some? && Note(d).value.0 in d.links && d.links[Note(d).value.0].Folder?
  }

  function RestoreLink(d: Disk): Disk {
    if Note(d).Some? then d.(links := d.links[Note(d).value.0 := Symlink(Note(d).value.1)]) else d
  }

  /** What of the rollback directory is left once its entries and its note are used up: nothing, or
      the empty directory when the second reload ends the rollback early. */
  function LeftOver(d: Disk, undo: Undo): Option<Saved> {
    if d.record.None? && undo.SecondFails? then Some(Saved(map[], None)) else None
  }

  /** The rollback does not get to its end, leaving its directory behind. */
  predicate RollbackFails(d: Disk, undo: Undo) {
    CutOff(undo) || undo.FirstFails? || LinkStuck(d) || (d.record.None? && undo.SecondFails?)
  }

  function Trimmed(live: Dir, left: set<string>): Dir {
    if Current in live && live[Current].Tree?
    then live[Current := Tree(map f | f in live[Current].files && f in left :: live[Current].files[f])]
    else live
  }

  /** `rollback_install` up to where it is cut off. */
  function RollbackCut(d: Disk, undo: Undo): Disk
    requires d.saved.Some? && CutOff(undo)
  {
    var dir := d.saved.value.dir;
    match undo
    case ClearingCurrent(left) => d.(live := Trimmed(d.live, left))
    case Clearing(n) => d.(live := Unmoved(d.live, Away, n))
    case Restoring(n) => d.(live := Moved(dir, Back, n), saved := Some(Saved(Unmoved(dir, Back, n), Note(d))))
  }

  /** `rollback_install` past the restorations: the saved entries have replaced the live ones. The saved
      service file has been renamed away by the time the unit is looked at, so the unit is removed. A
      failing reload, or a folder where the link should be, ends it before the link is restored. */
  function RollbackDone(d: Disk, undo: Undo): Disk
    requires d.saved.Some?
  {
    var undone := d.(live := d.saved.value.dir, unit := None, saved := Some(Saved(map[], Note(d))));
    if undo.FirstFails? || LinkStuck(d) then undone
    else RestoreLink(undone).(saved := LeftOver(d, undo))
  }

  /** `rollback_install`, which first removes the attempted link. */
  function RolledBack(env: Env, d: Disk, attempted: Option<string>, undo: Undo): Disk
    requires d.saved.Some?
  {
    var unlinked := DropOwnedLink(env, d, attempted);
    if CutOff(undo) then RollbackCut(unlinked, undo) else RollbackDone(unlinked, undo)
  }

  /** Recovery finds the live plugin broken and the one set aside whole. */
  predicate RollsBack(env: Env, d: Disk) {
    d.saved.Some? && !Discoverable(env, d.live) && Discoverable(env, d.saved.value.dir)
  }

  /** `recover_plugins_after_interruption`, for this plugin. */
  function Recovered(env: Env, d: Disk, undo: Undo): Disk {
    if d.saved.None? then d
    else if Discoverable(env, d.live) then d.(saved := None)
    else if RollsBack(env, d) then RolledBack(env, d, RecordedLink(d), undo)
    else d
  }

  // --- opening the store ---

  /** What the rows of other plugins occupy: whether one has this plugin's service name, and the
      links they recorded. */
  datatype Others = Others(serviceTaken: bool, links: set<string>)

  predicate NamesFree(others: Others, link: Option<string>) {
    !others.serviceTaken && (link.Some? ==> link.value !in others.links)
  }

  /** The row `discover_plugin_record` makes of a plugin found on disk. */
  function ManifestRow(env: Env, live: Dir): Record
    requires Discoverable(env, live)
  {
    var manifest := live[Manifest].content;
    Record(env.manifestVersion(manifest), Trim(live[Checksum].content), env.manifestLink(manifest))
  }

  /** `discover_plugins`, for this plugin: a row for a discoverable plugin without one. */
  function Discovered(env: Env, others: Others, d: Disk): Disk {
    if d.record.None? && Discoverable(env, d.live) && NamesFree(others, ManifestRow(env, d.live).binPath)
    then d.(record := Some(ManifestRow(env, d.live)))
    else d
  }

  /** `reconcile_plugin_bin_paths` fails on this plugin. */
  predicate LinkTaken(env: Env, d: Disk) {
    HasBinary(env, d.live) && ForeignLink(env, d)
  }

  /** `reconcile_plugin_bin_paths`, for this plugin: the recorded link of an installed binary exists. */
  function Reconciled(env: Env, d: Disk): Disk {
    if RecordedLink(d).Some? && HasBinary(env, d.live) && !ForeignLink(env, d)
    then d.(links := d.links[RecordedLink(d).value := Symlink(env.target)])
    else d
  }

  /** Where something other than this plugin ends the opening: another plugin's directory or link, the
      database, or, at last, the uploaded package itself. */
  datatype Stage = Opening | Recovering | Discovering | Reconciling

  datatype Start = Ready(disk: Disk) | Halted(disk: Disk)

  /** `initialize_store` and the checks before installing touches anything: what they leave, and
      whether installing goes on. */
  function Opened(env: Env, d: Disk, others: Others, halt: Option<Stage>, undo: Undo, newLink: Option<string>): Start {
    if halt == Some(Opening) then Halted(d)
    else
      var recovered := Recovered(env, d, undo);
      if halt == Some(Recovering) || (RollsBack(env, d) && RollbackFails(d, undo)) then Halted(recovered)
      else
        var found := Discovered(env, others, recovered);
        if halt == Some(Discovering) || LinkTaken(env, found) then Halted(found)
        else
          var start := Reconciled(env, found);
          if halt == Some(Reconciling) || !NamesFree(others, newLink) then Halted(start) else Ready(start)
  }

  /** The plugin on disk that the next start finds: the live one, or else the one set aside. */
  function Found(env: Env, d: Disk): Option<Dir> {
    if Discoverable(env, d.live) then Some(d.live)
    else if d.saved.Some? && Discoverable(env, d.saved.value.dir) then Some(d.saved.value.dir)
    else None
  }

  /** The entries are those of a discoverable plugin, whatever its service file says or whether there is
      one. */
  predicate Complete(env: Env, d: Dir) {
    Discoverable(env, d[Service := File("")])
  }

  /** No plugin was ever registered or completely written. */
  predicate Bare(env: Env, d: Disk) {
    d.record == None && !Complete(env, d.live) && (d.saved.Some? ==> !Complete(env, d.saved.value.dir))
  }
}
