/** The files of one built-in binary, what each operation of an over-the-air update and of the check
    at boot does to them, and how each of these can fail. */
module OtaFiles {
  import opened Text
  import opened Wrappers

  type Content = string

  /** The files of one target. Backup, hash and version live in the metadata directory. */
  datatype Files = Files(
    metaDir: bool,
    binary: Option<Content>,
    backup: Option<Content>,
    hash: Option<string>,
    version: Option<string>)

  /** An extracted OTA package: any of its files may be missing. */
  datatype Package = Package(
    binary: Option<Content>,
    hash: Option<string>,
    version: Option<string>,
    signatureRejected: bool)

  type Digest = Content -> string

  /** SHA-256 in hex: 64 hexadecimal digits, so never blank and never a proper prefix of another digest. */
  ghost predicate HexDigests(digest: Digest) {
    forall c :: IsDigestText(digest(c))
  }

  /** The stored hash is the digest of the installed binary. */
  predicate Consistent(digest: Digest, d: Files) {
    d.metaDir && d.binary.Some? && d.hash.Some? && Trim(d.hash.value) == digest(d.binary.value)
  }

  /** The checks `apply_update` makes before it touches anything. */
  predicate Installable(digest: Digest, pkg: Package) {
    && pkg.binary.Some? && pkg.hash.Some? && pkg.version.Some?
    && Trim(pkg.hash.value) == digest(pkg.binary.value)
    && !pkg.signatureRejected
  }

  lemma TrimDigest(s: string)
    requires IsDigestText(s)
    ensures Trim(s) == s
  {
  }

  // --- the file operations ---

  datatype Op = Backup | Replace | StoreHash | StoreVersion | Restore

  function Effect(pkg: Package, d: Files, op: Op): Files
    requires pkg.binary.Some? && pkg.hash.Some? && pkg.version.Some?
  {
    match op
    case Backup => if d.binary.Some? then d.(backup := d.binary) else d
    case Replace => d.(binary := pkg.binary)
    case StoreHash => d.(hash := Some(Trim(pkg.hash.value)))
    case StoreVersion => d.(version := Some(Trim(pkg.version.value)))
    case Restore => if d.backup.Some? then d.(binary := d.backup) else d
  }

  /** How an operation goes: it completes, or fails or is cut off with nothing done or with only part
      of the file written. A copied file may then hold anything; a text of a few bytes is cut short. */
  datatype Luck = Done | Nothing | Partial(left: Content)

  predicate Possible(pkg: Package, op: Op, luck: Luck)
    requires pkg.hash.Some?
  {
    op.StoreHash? && luck.Partial? ==> luck.left < Trim(pkg.hash.value)
  }

  function Attempted(pkg: Package, d: Files, op: Op, luck: Luck): Files
    requires pkg.binary.Some? && pkg.hash.Some? && pkg.version.Some?
  {
    match luck
    case Done => Effect(pkg, d, op)
    case Nothing => d
    case Partial(left) =>
      match op
      case Backup => if d.binary.Some? then d.(backup := Some(left)) else d
      case Replace => d.(binary := Some(left))
      case StoreHash => d.(hash := Some(left))
      case StoreVersion => d.(version := Some(left))
      case Restore => if d.backup.Some? then d.(binary := Some(left)) else d
  }

  function UpdateOps(healthy: bool): seq<Op> {
    if healthy then [Backup, Replace, StoreHash, StoreVersion] else [Backup, Replace, Restore]
  }

  /** How the first |lucks| of the operations went. Only the replacement stops an update when it
      fails, all other failures are ignored; a crash can come anywhere. */
  predicate IsCourse(pkg: Package, ops: seq<Op>, lucks: seq<Luck>)
    requires pkg.hash.Some?
  {
    && |lucks| <= |ops|
    && (forall i :: 0 <= i < |lucks| ==> Possible(pkg, ops[i], lucks[i]))
    && (forall i :: 0 <= i < |lucks| - 1 ==> ops[i].Replace? ==> lucks[i].Done?)
  }

  /** Nothing fails unnoticed: at most the last operation did not complete. */
  predicate Noticed(lucks: seq<Luck>) {
    forall i :: 0 <= i < |lucks| - 1 ==> lucks[i].Done?
  }

  function RunOps(pkg: Package, d: Files, ops: seq<Op>, lucks: seq<Luck>): Files
    requires pkg.binary.Some? && pkg.hash.Some? && pkg.version.Some? && |lucks| <= |ops|
    decreases |lucks|
  {
    if lucks == [] then d else RunOps(pkg, Attempted(pkg, d, ops[0], lucks[0]), ops[1..], lucks[1..])
  }

  // --- boot ---

  function ActualHash(digest: Digest, d: Files): string {
    if d.binary.Some? then digest(d.binary.value) else ""
  }

  predicate NeedsRestore(digest: Digest, d: Files) {
    && d.metaDir && (d.binary.Some? || d.backup.Some?) && d.hash.Some?
    && Trim(d.hash.value) != ActualHash(digest, d)
  }

  /** `validate_on_boot`; its copy may fail unnoticed or be cut off. */
  function BootedWith(digest: Digest, d: Files, luck: Luck): Files {
    if !d.metaDir then d.(metaDir := true)
    else if NeedsRestore(digest, d) && d.backup.Some? then
      match luck
      case Done => d.(binary := d.backup)
      case Nothing => d
      case Partial(left) => d.(binary := Some(left))
    else d
  }

  /** `validate_on_boot`, completed. */
  function Booted(digest: Digest, d: Files): Files {
    BootedWith(digest, d, Done)
  }

  function BootedAll(digest: Digest, d: Files, boots: seq<Luck>): Files
    decreases |boots|
  {
    if boots == [] then d else BootedAll(digest, BootedWith(digest, d, boots[0]), boots[1..])
  }

  lemma RunOne(pkg: Package, d: Files, ops: seq<Op>, luck: Luck)
    requires pkg.binary.Some? && pkg.hash.Some? && pkg.version.Some? && ops != []
    ensures RunOps(pkg, d, ops, [luck]) == Attempted(pkg, d, ops[0], luck)
  {
    assert [luck][1..] == [];
  }

  lemma RunTwo(pkg: Package, d: Files, ops: seq<Op>, a: Luck, b: Luck)
    requires pkg.binary.Some? && pkg.hash.Some? && pkg.version.Some? && |ops| >= 2
    ensures RunOps(pkg, d, ops, [a, b]) == Attempted(pkg, Attempted(pkg, d, ops[0], a), ops[1], b)
  {
    assert [a, b][1..] == [b];
    RunOne(pkg, Attempted(pkg, d, ops[0], a), ops[1..], b);
  }

  // --- calls that are not cut off ---

  /** How the operations of a call that is not cut off go. */
  datatype Fate = Fate(backup: Luck, replace: Luck, hash: Luck, version: Luck, restore: Luck)

  const SMOOTH := Fate(Done, Done, Done, Done, Done)

  function Course(healthy: bool, fate: Fate): seq<Luck> {
    if !fate.replace.Done? then [fate.backup, fate.replace]
    else if healthy then [fate.backup, fate.replace, fate.hash, fate.version]
    else [fate.backup, fate.replace, fate.restore]
  }

  predicate PossibleFate(pkg: Package, fate: Fate)
    requires pkg.hash.Some?
  {
    fate.hash.Partial? ==> fate.hash.left < Trim(pkg.hash.value)
  }

  /** One call of `apply_update` that is not cut off. */
  function Updated(digest: Digest, d: Files, pkg: Package, healthy: bool, fate: Fate): Files {
    if Installable(digest, pkg) then RunOps(pkg, d.(metaDir := true), UpdateOps(healthy), Course(healthy, fate)) else d
  }

  /** It reports success whatever became of backup, hash and version. */
  predicate ReportsSuccess(digest: Digest, pkg: Package, healthy: bool, fate: Fate) {
    Installable(digest, pkg) && fate.replace.Done? && healthy
  }

  lemma CourseUnrolled(pkg: Package, d: Files, healthy: bool, fate: Fate)
    requires pkg.binary.Some? && pkg.hash.Some? && pkg.version.Some?
    ensures var replaced := Attempted(pkg, Attempted(pkg, d, Backup, fate.backup), Replace, fate.replace);
      RunOps(pkg, d, UpdateOps(healthy), Course(healthy, fate)) ==
        if !fate.replace.Done? then replaced
        else if healthy then Attempted(pkg, Attempted(pkg, replaced, StoreHash, fate.hash), StoreVersion, fate.version)
        else Attempted(pkg, replaced, Restore, fate.restore)
  {
    var ops, lucks := UpdateOps(healthy), Course(healthy, fate);
    var d1 := Attempted(pkg, d, Backup, fate.backup);
    var d2 := Attempted(pkg, d1, Replace, fate.replace);
    if !fate.replace.Done? {
      RunTwo(pkg, d, ops, fate.backup, fate.replace);
    } else {
      assert lucks[1..][1..] == lucks[2..] && ops[1..][1..] == ops[2..];
      assert RunOps(pkg, d, ops, lucks) == RunOps(pkg, d2, ops[2..], lucks[2..]);
      if healthy {
        assert lucks[2..] == [fate.hash, fate.version];
        RunTwo(pkg, d2, ops[2..], fate.hash, fate.version);
      } else {
        assert lucks[2..] == [fate.restore];
        RunOne(pkg, d2, ops[2..], fate.restore);
      }
    }
  }
}
