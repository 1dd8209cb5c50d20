# Kaonic gateway: verified models

Dafny models of the state-carrying parts of the Kaonic gateway workspace, with proofs of what they
promise.

- **VPN routing** (`Cidr`, `RouteTable`, `RoutesByPeers`): peers' advertised prefixes are folded into a conflict-free
  table; resolving is longest-prefix match (RFC 4632, section 5.1) over uniquely claimed routes.
- **VPN wire format** (`MessagePack`, `VpnCodec`): announces and control frames; the MessagePack
  layer is written out from the MessagePack specification (format families nil to map).
- **Plugin installation** (`PluginDisk`, `PluginTransactions`, `PluginCrashes`, `PluginCuts`,
  `PluginCalls`, `PluginHistory`, `PluginDiscovery`, `PluginStore`): opening the store (recovery, discovery, links),
  preparing, install steps and rollback on one plugin's directory, cut off or failing at any move,
  removal, step or restoration, with torn writes.
- **OTA updates** (`OtaFiles`, `OtaSafety`, `OtaInstaller`): backup, replace, health check, rollback and
  the boot check, with crashes and with writes that fail unnoticed.
- **Service units** (`ServiceUnit`): the working directory rewrite, on lines.
- **Push to talk** (`PttPacket`, `BurstTx`, `PttStream`, `PttReceiver`, `TxSession`,
  `TxLedger`): packets, bursts
  over a shared counter, reception with drop accounting, and transmit session ownership.
- **Arithmetic** (`Resampler`, `RateSampler`): sample rate conversion and traffic rates.
- **Event tracker** (`EventTracker`): counters, links and the event ring as folds of the history.

`Arithmetic`, `ByteStrings`, `Text` and `Wrappers` are shared. Code that updates state in place is
modelled by classes and methods proved against specification functions; the properties are lemmas
about those functions. `dafny verify dfyconfig.toml` checks everything.

## What the outside decides

Results of system calls and timing are parameters: whether a send found a link, how the wait for the
playback queue ended, probe results, the clock, the order in which hash maps are drained, which step of
an install fails and what bytes a cut-off write leaves. SHA-256, manifest parsing, signature checking
and the Codec2 decoder are function values handed in; digests are assumed to be 64 hexadecimal digits
in `OtaSafety`, and nothing is assumed about collisions. Other plugins appear as the names their rows
occupy and as the stage at which they end a call.

## Where the code does not do what one might expect

- Rolling a plugin back removes its systemd unit instead of restoring it: the saved service file has
  been renamed away before it is looked for (plugins.rs:1779-1807). `RollbackUndoesAnyPrefix` states it.
- The saved service file is overwritten by the systemd unit (plugins.rs:1721-1724), so the plugin's files
  come back unchanged exactly when the two agreed or there was no unit.
- A crash after the checksum is written and before the unit is leaves the two in disagreement
  (`AgreementAfterCrash`, `DisagreementIffServiceChanges`), and the next failing install then puts the old
  unit's text beside the new binary (`FailedInstallMixes`).
- A new symlink path that already was an unrecorded link to the plugin is removed by rollback
  (plugins.rs:1738-1740).
- When the recorded symlink belongs to somebody else, every call stops while opening as long as the binary
  is there (`ForeignLinkStopsEveryCall`). Without the binary, installing returns with the files set aside
  and no rollback (plugins.rs:417-425); they are not restored, and the next call deletes them
  (`RefusesIff`, `RefusedFilesAreLost`).
- A reload of systemd that fails inside a rollback ends it before the recorded link is restored
  (plugins.rs:1808-1809); the next call that gets through opening restores it (`NextCallRestoresLinks`).
- Preparing that is cut off or fails after 1 to 4 of its seven moves, and a rollback or recovery after 1 to 6
  of its seven restorations, lose the plugin (`LostIff`): neither directory is whole, and the next call
  deletes what is set aside. After 5 or 6 moves the plugin comes back without signatures
  (`PreparingCutOff`), so one with a bad signature may then be found (`RevivedWithoutSignature`).
- A rollback cut off while the new plugin's files are removed may leave the new binary without all its other
  files, and the next start keeps it (`CutClearingMixes`); cut off after its last restoration it leaves the
  new unit beside the old plugin (`UnitAfterLastRestoration`).
- A link note cut short by a crash makes recovery create a link to a cut-off target, on which every later
  start fails (`TornNoteStopsEveryStart`).
- The OTA backup, hash, version and restore writes ignore errors (installer.rs:224-226, 391, 402).
  `CrashSafeIffBackupGood`, `SuccessSurvivesBootIff`, `FailureRestoresIff` and `BootAfterFailure` say what
  then holds: an update reported as successful may be undone by the next boot.
- A hash file cut short by a crash is only repaired by the next update whose hash is written
  (`InterruptedHistory`); a backup cut short before that is not crash safe (`CrashSafeIffConsistent`).
- A failed first OTA installation leaves the failed binary, or a stale backup (`FailureRestoresIff`).
- Byte counters are read before the sampler's lock (metrics.rs:55-57), so racing readings can make bytes
  count twice (`RacingSnapshotsCountTwice`); `RatesAddUp` is the exact account and `RatesWithinBytesIff`
  says exactly when the rates stay within the bytes.
- Two remote peers with one tunnel address make resolution depend on iteration order.

## Model

| member | source | states |
|---|---|---|
| Cidr.ContainsIffLeadingBitsAgree | kaonic-vpn/src/vpn/router.rs:52 | an address lies in a canonical prefix exactly when the leading `len` bits agree |
| Cidr.SameLengthOverlapIsEqual | kaonic-vpn/src/vpn/router.rs:68-72 | two canonical prefixes of equal length that share an address are equal, so tie order in the sort cannot matter |
| Cidr.LongerOverlapIsNested | kaonic-vpn/src/vpn/router.rs:84-88 | two canonical prefixes that share an address are nested, the longer inside the shorter |
| Cidr.CanonicalIffHostBitsZero | kaonic-vpn/src/vpn/codec.rs:58-62 | a prefix is accepted exactly if it has at most 32 bits and all host bits are zero |
| Cidr.BitsSpellNumber | kaonic-vpn/src/vpn/router.rs:52 | the bits of an address are those of its binary numeral |
| RouteTable.RecordClaim | kaonic-vpn/src/vpn/router.rs:50-65 | one pass of the inner loop keeps the claimed and conflict maps in step with the set of claims seen |
| RouteTable.Collect | kaonic-vpn/src/vpn/router.rs:68-71 | draining the claimed map in any order keeps exactly the unconflicted entries |
| RouteTable.Build | kaonic-vpn/src/vpn/router.rs:29-78 | for every list of peers the table holds exactly the claims nobody else makes and that leave the local tunnel address alone, sorted by prefix length, and the remote tunnel addresses |
| RouteTable.Resolve | kaonic-vpn/src/vpn/router.rs:80-90 | the loop returns the tunnel owner, else the first subnet that contains the address |
| RouteTable.FirstMatchIsLongest | kaonic-vpn/src/vpn/router.rs:80-90 | the first match in any table `build` may return is a longest match among the surviving claims |
| RouteTable.LongestMatchIsUnique | kaonic-vpn/src/vpn/router.rs:68-90 | there is at most one longest-match answer |
| RouteTable.LongestMatchIsMostSpecific | kaonic-vpn/src/vpn/router.rs:72-90 | the chosen prefix lies inside every other surviving prefix that contains the address |
| RouteTable.LookupIsLongestPrefixMatch | kaonic-vpn/src/vpn/router.rs:37-90 | for an address that is no remote tunnel address, resolving gives h if and only if h is the longest-prefix answer over uniquely claimed live routes, and nothing if and only if no such route contains it |
| RouteTable.LookupAtTunnelIp | kaonic-vpn/src/vpn/router.rs:80-83 | a remote tunnel address resolves to the last remote peer that has it, whatever the prefixes say |
| RoutesByPeers.LookupOverPeers | kaonic-vpn/src/vpn/router.rs:37-90 | the same over the peers' own fields: the answer is h exactly if h alone offers, unexpired, a prefix around the address but not around our tunnel address, and no longer such prefix is owned by anybody; nothing exactly if there is none |
| RoutesByPeers.TunnelAddressOverPeers | kaonic-vpn/src/vpn/router.rs:41-47 | at another peer's tunnel address the last such peer answers |
| RouteTable.OrderFreeIffUnambiguous | kaonic-vpn/src/vpn/router.rs:37-90 | resolution is independent of peer order, map iteration order and tie order if and only if no two remote peers with different hashes share a tunnel address |
| RouteTable.NewPeerIsLocal | kaonic-vpn/src/vpn/router.rs:37-90 | inserting a peer anywhere changes resolution only at its tunnel address and inside its routes |
| RouteTable.Router.Swap | kaonic-vpn/src/vpn/router.rs:112-114 | the freshly built table replaces the stored one |
| MessagePack.HeadRoundTrip | kaonic-vpn/src/vpn/codec.rs:99-100 | every header of every format family is read back, followed by anything |
| MessagePack.ArgumentHeads | kaonic-vpn/src/vpn/codec.rs:110-111 | what every format byte with a big-endian argument stands for |
| MessagePack.SingleByteHeads | kaonic-vpn/src/vpn/codec.rs:110-111 | what every format byte without one stands for |
| MessagePack.ShortestHead | kaonic-vpn/src/vpn/codec.rs:99-100 | no spelling of a header is shorter than the encoder's |
| MessagePack.ParseFraming | kaonic-vpn/src/vpn/codec.rs:110-111 | whatever parses is parsed alike in front of anything else, and cut short anywhere it is no value |
| MessagePack.ParseEncode | kaonic-vpn/src/vpn/codec.rs:99-116 | every encodable value, followed by anything, parses to itself and leaves what followed |
| VpnCodec.ToCidrsExact | kaonic-vpn/src/vpn/codec.rs:57-62 | checking received subnets succeeds exactly when all are canonical, keeps their order, and otherwise reports the prefix length of the first bad one |
| VpnCodec.EncodeAnnounce | kaonic-vpn/src/vpn/codec.rs:92-102 | the bytes are magic, version and body in order, and decode to the routes |
| VpnCodec.AnnounceRoundTrip | kaonic-vpn/src/vpn/codec.rs:92-122 | decoding an announce gives back every canonical route list, ignores trailing bytes, and announces are not control frames |
| VpnCodec.EncodeCtrl | kaonic-vpn/src/vpn/codec.rs:126-131 | the bytes are the tag and the body in order, and decode to the message |
| VpnCodec.CtrlRoundTrip | kaonic-vpn/src/vpn/codec.rs:126-160 | hello, routes and ping decode to themselves and are told apart from announces and IP packets |
| VpnCodec.IpPacketsAreNotCtrl | kaonic-vpn/src/vpn/codec.rs:147-160 | no frame that starts like an IPv4 or IPv6 packet is a control frame or decodes as one |
| VpnCodec.CtrlIffTag | kaonic-vpn/src/vpn/codec.rs:151-160 | control frames are those that start with 0xfb, only they decode, and the error tells which check failed |
| VpnCodec.CtrlAcceptedIff | kaonic-vpn/src/vpn/codec.rs:151-155 | for all bytes: a control frame decodes to a message exactly if the tag is followed by a value that carries it, by names or by position |
| VpnCodec.CtrlByteByByte | kaonic-vpn/src/vpn/codec.rs:126-148 | the bytes of every control frame |
| VpnCodec.AnnounceByteByByte | kaonic-vpn/src/vpn/codec.rs:92-102 | the bytes of every announce |
| VpnCodec.AnnounceErrors | kaonic-vpn/src/vpn/codec.rs:104-122 | the error is the first of length, magic, version and body that is wrong |
| VpnCodec.AnnounceAcceptedIff | kaonic-vpn/src/vpn/codec.rs:104-118 | for all bytes: an announce decodes to these prefixes exactly if the header is right and a body follows that carries them, or nothing |
| VpnCodec.RouteMessageRoundTrip | kaonic-vpn/src/vpn/codec.rs:133-155 | a hello or refresh built from canonical routes gives the receiver those routes |
| VpnCodec.AnnounceForms | kaonic-vpn/src/vpn/codec.rs:70-74 | the routes by position, and no routes as an empty map or array, decode to the same announce |
| VpnCodec.AcceptedAnnounceIsCanonical | kaonic-vpn/src/vpn/codec.rs:104-118 | for all input bytes: an announce is accepted exactly when header and body are well formed, the body by name or by position, and every subnet canonical; it carries exactly those subnets, and a bad subnet is reported by its length |
| PluginStore.Store.MoveIfExists | kaonic-installer/src/plugins.rs:1836-1846 | moving one entry leaves it in exactly one of the two directories |
| PluginStore.Store.PrepareRollback | kaonic-installer/src/plugins.rs:1669-1727 | all entries move to the rollback directory in order, up to where preparing stops; the saved service is overwritten by the systemd unit when there is one |
| PluginStore.Store.PrepareBinPathRollback | kaonic-installer/src/plugins.rs:1480-1519 | refuses exactly when the recorded link is not ours; notes it exactly when it is |
| PluginStore.Store.RemoveManagedSymlink | kaonic-installer/src/plugins.rs:1575-1602 | removes a link exactly when it points to this plugin; fails exactly when something else is there |
| PluginStore.Store.RestoreIfExists | kaonic-installer/src/plugins.rs:1848-1858 | restoring one entry leaves it in exactly one of the two directories |
| PluginStore.Store.RestoreBinPath | kaonic-installer/src/plugins.rs:1604-1630 | the noted link exists again in place of any file or link there; fails exactly when a folder is |
| PluginStore.Store.ReplaceEntries | kaonic-installer/src/plugins.rs:1741-1797 | the removals and restorations in order, up to where the rollback stops |
| PluginStore.Store.RollbackInstall | kaonic-installer/src/plugins.rs:1729-1828 | once all saved entries are the live ones the unit is removed; the noted link is back unless the first reload fails or a folder is in the way, and it fails exactly then, when it stops before, or when the second reload does |
| PluginStore.Store.Recover | kaonic-installer/src/plugins.rs:876-957 | keeps a discoverable plugin, else restores a discoverable rollback directory, else changes nothing; fails exactly when that rollback does |
| PluginStore.Store.Discover | kaonic-installer/src/plugins.rs:807-874 | a discoverable plugin without a row gets the row of its manifest, unless another plugin has its service or link |
| PluginStore.Store.InstallBinPath | kaonic-installer/src/plugins.rs:1521-1573 | the path links to this plugin, or something else is there and nothing changes |
| PluginStore.Store.Reconcile | kaonic-installer/src/plugins.rs:2075-2090 | the recorded link of an installed binary exists, or is somebody else's and nothing changes |
| PluginStore.Store.Open | kaonic-installer/src/plugins.rs:213-233 | recovery, discovery and reconciliation in order, up to whatever ends the call |
| PluginStore.Store.Do | kaonic-installer/src/plugins.rs:431-551 | one step changes what it should, and fails exactly when its own path is taken by something else |
| PluginStore.Store.RunSteps | kaonic-installer/src/plugins.rs:431-551 | steps run in order up to the first that the environment or a link conflict stops, which may leave a torn file |
| PluginStore.Store.Install | kaonic-installer/src/plugins.rs:339-588 | one call is opening, preparation, the steps up to the first that stops, then rollback or cleanup; each outcome has its exact condition; a failed one leaves files, links and row as opening left them under the conditions of rollback |
| PluginDiscovery.DiscoverableFileByFile | kaonic-installer/src/plugins.rs:959-1007 | discovery succeeds exactly if manifest and service file are there, the binary's digest is the one its checksum file spells, and the signature to check, if any, is good |
| PluginDiscovery.RecoveryChoosesByFiles | kaonic-installer/src/plugins.rs:904-957 | a live plugin with anything of that wrong is replaced by a whole one set aside, any other one stays |
| PluginDiscovery.RecoveryLeavesBroken | kaonic-installer/src/plugins.rs:938-950 | with a wrong binary in both places recovery changes nothing |
| PluginDiscovery.RowMadeFor | kaonic-installer/src/plugins.rs:807-874 | discovery makes a row exactly for a plugin in order without one whose names are free, from its manifest and checksum file |
| PluginDiscovery.OpeningDecides | kaonic-installer/src/plugins.rs:213-233 | with a plugin in order and registered, opening goes through exactly if the recorded link is free or its own and no other row has its service or new link |
| PluginDiscovery.FoundBinaryMatchesChecksum | kaonic-installer/src/plugins.rs:876-957 | after any history, if a plugin is found its binary is the one its checksum file spells; after any harmless one it is found if there was one |
| PluginDiscovery.SucceedsIffPathFree | kaonic-installer/src/plugins.rs:431-559 | a call that gets through opening and that nothing fails succeeds exactly if its new path is free or already a link of ours; else it is rolled back at that step |
| PluginDiscovery.StopsWhere | kaonic-installer/src/plugins.rs:431-566 | at which step a call stops, in terms of the fault and of what is at its new path, and when it succeeds |
| PluginDiscovery.BlockedByOthers | kaonic-installer/src/plugins.rs:1521-1602 | a link step fails by itself exactly if something that is not ours is at its path |
| PluginDiscovery.SignatureSteps | kaonic-installer/src/plugins.rs:462-478 | a new signature is the one file left of the two names; without one the first of the two that exists is removed |
| PluginTransactions.RollbackUndoesAnyPrefix | kaonic-installer/src/plugins.rs:411-566 | preparing, failing at any step and a rollback that gets to the unit: files are as before if and only if the unit agreed with the stored service (or was absent); links if and only if the new path was not an unrecorded link of ours or, when the first reload fails, no link of ours had been dropped; the row always; the unit is removed, never restored |
| PluginTransactions.LinksRestored | kaonic-installer/src/plugins.rs:1738-1809 | the symlink half when the first reload works, for any state the install steps can leave |
| PluginTransactions.LinksIfReloadFails | kaonic-installer/src/plugins.rs:1808-1809 | the symlink half when it fails |
| PluginTransactions.NewPluginBuilt | kaonic-installer/src/plugins.rs:432-459 | the steps before the checksum put every file of the package in place |
| PluginTransactions.LiveIsNewOrUndiscoverable | kaonic-installer/src/plugins.rs:959-1007 | at every point a crash can reach, also inside a write, the live directory is not discoverable or is all new |
| PluginTransactions.CrashLeavesOldOrNew | kaonic-installer/src/plugins.rs:876-957 | a crash anywhere after `prepare_rollback` returned, then a recovery that is not itself cut off: everything set aside is back, or everything is the new package, never a mix |
| PluginTransactions.InterruptedCleanupKeepsNew | kaonic-installer/src/plugins.rs:909-917 | a finished install is discoverable, so a crash while rollback data is deleted is recovered to the new plugin whatever is left of it |
| PluginTransactions.SignatureSettled | kaonic-installer/src/plugins.rs:462-478 | from the signature step on the signature file is the package's, or there is none |
| PluginCrashes.KeptExactly | kaonic-installer/src/plugins.rs:459-478 | which crash points, and which cut-off checksums and signatures, leave the new plugin discoverable |
| PluginCrashes.AgreementAfterCrash | kaonic-installer/src/plugins.rs:459-483 | by crash step, cut-off text and previous unit: exactly when unit and stored service disagree after recovery |
| PluginCrashes.RowAfterCrash | kaonic-installer/src/plugins.rs:508-551 | the row is the new package's exactly when the crash came after it was written, and as before otherwise, whichever plugin is kept |
| PluginCrashes.DisagreementIffServiceChanges | kaonic-installer/src/plugins.rs:459-483 | without cut-off writes some crash point leads there if and only if the plugin had another unit than the new service |
| PluginCrashes.FailedInstallMixes | kaonic-installer/src/plugins.rs:1721-1724 | from there any failing install leaves the kept package's files beside the old or cut-off unit's text |
| PluginCrashes.TornNoteStopsEveryStart | kaonic-installer/src/plugins.rs:1604-1630 | recovery follows the link note; every later start fails without changing anything if and only if the note names another target, as one cut short does |
| PluginCuts.PreparingCutOff | kaonic-installer/src/plugins.rs:1679-1724 | preparing cut off after n of its seven moves: the plugin is found again if and only if n is 0, or 5 and more, when at most its signatures are missing; cut off while the unit is copied it has that text as service file |
| PluginCuts.CutPreparingLosesBinary | kaonic-installer/src/plugins.rs:1679-1713 | for n from 1 to 4 no start changes anything and the next preparation deletes the binary |
| PluginCuts.RevivedWithoutSignature | kaonic-installer/src/plugins.rs:1703-1719 | an incomplete plugin is found after such a cut only if its signature had kept it from being found |
| PluginCuts.RollbackFinds | kaonic-installer/src/plugins.rs:1738-1797 | what the next start finds after a rollback that stops anywhere: the old plugin, unless it stops after 1 to 6 of the seven restorations, or a discoverable new plugin still has its binary |
| PluginCuts.CutClearingMixes | kaonic-installer/src/plugins.rs:1741-1744 | a new plugin whose removal is cut off with its binary left is found, wholly if and only if no file was removed |
| PluginCuts.UnitAfterLastRestoration | kaonic-installer/src/plugins.rs:1797-1807 | stopped after the last restoration the old plugin is back with the unit the failed install left; when the two agree |
| PluginCalls.OpeningKeepsPlugin | kaonic-installer/src/plugins.rs:213-233 | opening keeps the plugin there is, however it ends, unless its recovery is cut off between the first restoration and the last; once it is through, that plugin is live and its recorded link ours |
| PluginCalls.OpeningLinks | kaonic-installer/src/plugins.rs:2075-2090 | once opening is through, the recorded link of an installed binary is ours |
| PluginCalls.OpeningKeepsRow | kaonic-installer/src/plugins.rs:807-874 | the row after opening, exactly |
| PluginCalls.RefusesIff | kaonic-installer/src/plugins.rs:417-425 | with nothing else stopping the call, it refuses if and only if the recorded link is somebody else's, the binary is missing and no whole plugin is set aside |
| PluginCalls.RefusedFilesAreLost | kaonic-installer/src/plugins.rs:1679-1724 | what a refusal set aside is not restored, the next call refuses again and deletes it, leaving only a copy of the unit |
| PluginCalls.RefusalExample | kaonic-installer/src/plugins.rs:417-425 | such a disk |
| PluginCalls.ForeignLinkStopsEveryCall | kaonic-installer/src/plugins.rs:2075-2090 | with a whole plugin whose link is somebody else's, no call of any history changes anything |
| PluginHistory.CallHolds | kaonic-installer/src/plugins.rs:339-588 | the theorem below for one call |
| PluginHistory.LostIff | kaonic-installer/src/plugins.rs:339-957 | a call loses the plugin there was if and only if its preparing, rollback or recovery is cut off in the middle of the moves |
| PluginHistory.HistoryWithCrashes | kaonic-installer/src/plugins.rs:339-957 | over any history of calls with failures, failing reloads, calls stopped while opening and cuts in recovery, preparing, installing and rollback other than the harmful ones: but for the service text and lost signatures, what the next start finds is wholly the package of the last call that kept it, or what there was at first |
| PluginHistory.RowsOverHistory | kaonic-installer/src/plugins.rs:508-551 | over such histories the row describes the plugin on disk if and only if the last call that kept its package wrote its row, or there was no row, or the same one |
| PluginHistory.HistoryKeepsWholePlugin | kaonic-installer/src/plugins.rs:339-588 | over any history without crashes, whatever else fails: files and row are wholly those of the last successful package, or as at first with the row discovery made; unit and stored service agree |
| PluginHistory.RowAgreesAlways | kaonic-installer/src/plugins.rs:807-874 | over such histories the row says what the live manifest and checksum say |
| PluginHistory.CallHoldsLink | kaonic-installer/src/plugins.rs:1521-1573 | after every call not stopped while opening, successful or rolled back, the recorded link is ours, unless the rollback's first reload failed |
| PluginHistory.NextCallRestoresLinks | kaonic-installer/src/plugins.rs:1808-1809 | and then the next call that gets through opening has the links back |
| ServiceUnit.InsertedLineIsDirectory | kaonic-installer/src/plugins.rs:1413 | the inserted line reads as a working directory setting, whatever the directory |
| Text.TrimIs | kaonic-installer/src/plugins.rs:1420 | trimming takes exactly the white space off both ends |
| Text.TrimParts | kaonic-installer/src/plugins.rs:1420 | every text is its trimmed part between white space |
| Text.SpacesByCode | kaonic-installer/src/plugins.rs:1420 | which characters are white space |
| Text.LowerByLetter | kaonic-installer/src/plugins.rs:1427 | lower case, letter by letter |
| ServiceUnit.KindsOfLines | kaonic-installer/src/plugins.rs:1420-1437 | which lines are [Service] headers, other headers and settings, character by character |
| ServiceUnit.Normalize | kaonic-installer/src/plugins.rs:1406-1453 | fails exactly without a line that spells [Service], else computes the rewritten lines |
| ServiceUnit.NewLineIsPlaced | kaonic-installer/src/plugins.rs:1419-1447 | the new line comes after the first [Service] header and the lines of its section up to an old setting, the next section or the end |
| ServiceUnit.RewrittenSetsOneDirectory | kaonic-installer/src/plugins.rs:1419-1453 | exactly one setting over all [Service] sections, the new one, in the first; all other lines unchanged and in order |
| ServiceUnit.RewriteIsIdempotent | kaonic-installer/src/plugins.rs:1419-1453 | rewriting twice is rewriting once |
| OtaSafety.CourseIsGuarded | kaonic-installer/src/installer.rs:192-245 | with a good backup, replacing, storing and restoring leave a repairable state wherever they stop and whichever of them fails unnoticed |
| OtaSafety.BootsKeepRecoverable | kaonic-installer/src/installer.rs:46-90 | boots that are cut off or whose copy fails keep the state repairable |
| OtaSafety.ConsistentIsCrashSafe | kaonic-installer/src/installer.rs:185-245 | from a consistent installation, an update stopped anywhere or failing unnoticed after a good backup, any number of boots and one completed boot leave the old digest or the new one |
| OtaSafety.CrashSafeIffConsistent | kaonic-installer/src/installer.rs:46-245 | when nothing fails unnoticed, that holds if and only if the stored hash is the digest of the installed binary |
| OtaSafety.CrashSafeIffBackupGood | kaonic-installer/src/installer.rs:384-393 | the backup copy may fail unnoticed: the rest is crash safe if and only if the backup file holds the old or the new binary |
| OtaSafety.SuccessSurvivesBootIff | kaonic-installer/src/installer.rs:223-233 | a reported success survives the next boot if and only if the hash write took effect, or did nothing while the digests agree, or the backup is missing or has the new digest |
| OtaSafety.SuccessNeedsHash | kaonic-installer/src/installer.rs:223-233 | with a whole backup: if and only if the hash write took effect or the digests agree; otherwise the boot puts the old binary back beside the version text written |
| OtaSafety.FailureRestoresIff | kaonic-installer/src/installer.rs:235-244 | a failed health check never touches hash and version, and restores the binary if and only if one was installed, the restoring copy is whole and the backup file holds it |
| OtaSafety.BootAfterFailure | kaonic-installer/src/installer.rs:46-90 | the next boot makes up for a failed restoration if and only if the backup has the old digest |
| OtaSafety.RefusedIffFaulty | kaonic-installer/src/installer.rs:129-166 | a package that lacks a file, has another hash or a rejected signature leaves everything untouched; any other one is reported as a success exactly if it is copied and comes up |
| OtaSafety.UpdateFileByFile | kaonic-installer/src/installer.rs:185-245 | what a completed update leaves in each file |
| OtaSafety.BootFileByFile | kaonic-installer/src/installer.rs:46-90 | a boot restores the backup exactly if there is one and the stored hash is not that of the installed binary |
| OtaSafety.CutOffWrites | kaonic-installer/src/installer.rs:384-405 | what a write that stops part way leaves |
| OtaSafety.EveryStopIsCourse | kaonic-installer/src/installer.rs:185-245 | every call, and every call cut off after any operation or inside the next, is among those the theorems speak of |
| OtaSafety.UpdatesKeepConsistent | kaonic-installer/src/installer.rs:93-245 | after any history of updates whose writes take effect the installed binary and version are those of the last healthy package, the hash is its digest, and the boot check does nothing |
| OtaSafety.RoundStands | kaonic-installer/src/installer.rs:46-245 | the same for one update and the boots after it |
| OtaSafety.InterruptedHistory | kaonic-installer/src/installer.rs:46-245 | over any history of updates cut off anywhere or failing unnoticed, each followed by boots of which the last completes: the binary has the digest of the last package whose hash was written, and the installation is consistent if and only if no hash write was torn since |
| OtaInstaller.Target.BackupCurrent | kaonic-installer/src/installer.rs:384-393 | an installed binary is copied to the backup, whole, in part or not at all without notice; otherwise the backup stays |
| OtaInstaller.Target.RestoreBackup | kaonic-installer/src/installer.rs:395-405 | a backup replaces the binary, whole, in part or not at all without notice; otherwise the binary stays |
| OtaInstaller.Target.PollRunning | kaonic-installer/src/installer.rs:374-382 | running exactly when one of the first ten probes succeeds |
| OtaInstaller.Target.ApplyUpdate | kaonic-installer/src/installer.rs:93-245 | reports success exactly for an installable package that is copied and comes up, whatever became of backup, hash and version; the installation is then consistent if the hash was written; a failure leaves hash and version |
| OtaInstaller.Target.ValidateOnBoot | kaonic-installer/src/installer.rs:46-90 | restores the backup exactly on a hash mismatch with something to check; its copy may fail unnoticed |
| PttPacket.EncodePacket | kaonic-audio-ptt/src/main.rs:1621-1629 | the bytes are magic, base, flags, count and payload in order, and decode to them |
| PttPacket.PacketRoundTrip | kaonic-audio-ptt/src/main.rs:1621-1653 | decoding an encoded packet gives header and payload back |
| PttPacket.DecodedPacketIsEncoding | kaonic-audio-ptt/src/main.rs:1637-1653 | a packet that decodes is the encoding of what it decodes to |
| PttPacket.PacketByteByByte | kaonic-audio-ptt/src/main.rs:1621-1629 | the ten bytes of a header |
| PttPacket.PacketIffMagic | kaonic-audio-ptt/src/main.rs:1637-1645 | bytes are a packet exactly if there are ten and the first four are the magic |
| PttPacket.ChunkOfFlatten | kaonic-audio-ptt/src/main.rs:1779-1781 | slicing a payload of equal frames gives each frame back, inside the payload |
| BurstTx.Sender.constructor | kaonic-audio-ptt/src/main.rs:1541-1553 | the packet size is clamped to 1..255 and the sender is empty |
| BurstTx.Sender.Flush | kaonic-audio-ptt/src/main.rs:1573-1618 | the pending frames leave as one packet numbered from the shared counter; an empty flush does nothing; a send without a link drops the frames, reports it and still takes the numbers |
| BurstTx.SendingIsCounted | kaonic-audio-ptt/src/main.rs:1582-1612 | numbers are taken whether a packet finds a link or not; packets and bytes are counted exactly for those that do |
| BurstTx.Sender.PushPcm | kaonic-audio-ptt/src/main.rs:1559-1571 | a frame of the wrong size is refused; a full buffer ships |
| BurstTx.Sender.Transmit | kaonic-audio-ptt/src/main.rs:1476-1497 | the wire receives exactly the packets of the burst, or those before the first that found no link |
| PttStream.EndedBurstShape | kaonic-audio-ptt/src/main.rs:1559-1618 | in every interleaving an ended burst of N frames with nothing lost shipped ceil(N/T) packets, full but possibly the last, START only on the first, END on the last exactly when T does not divide N |
| PttStream.EventsMoveBursts | kaonic-audio-ptt/src/main.rs:1559-1618 | what starting, pushing and shipping do to a burst in an interleaving, and that they touch no other |
| PttStream.AlwaysOneWayOn | kaonic-audio-ptt/src/main.rs:1559-1581 | a burst may start with any packet size from 1 to 255, and a running one takes any frame or ends unless its buffer is full, and then ships it |
| PttStream.RangesTileTheCounter | kaonic-audio-ptt/src/main.rs:1582-1584 | in every interleaving the ranges taken number all frames consecutively modulo 2^32, also as the 64-bit counter wraps |
| PttStream.ShippedRangesAreReserved | kaonic-audio-ptt/src/main.rs:1582-1598 | every packet shipped carries the range its own step took from the counter |
| PttStream.SlotsAreDistinct | kaonic-audio-ptt/src/main.rs:1582-1598 | no two packets carry the same range |
| PttStream.FramesShareNumberIff | kaonic-audio-ptt/src/main.rs:1582-1584 | frames of different packets of any interleaving share a number if and only if a non-zero multiple of 2^32 frames were numbered from one to the other |
| PttStream.PacketDecodes | kaonic-audio-ptt/src/main.rs:1759-1783 | a packet decodes to its header and a payload that splits into its frames |
| PttStream.LosslessStream | kaonic-audio-ptt/src/main.rs:1759-1783 | all packets of a burst, received in order, split into exactly its frames |
| PttStream.InterleavedLosslessStream | kaonic-audio-ptt/src/main.rs:1559-1783 | the same for every burst of every interleaving |
| PttStream.SenderLosslessStream | kaonic-audio-ptt/src/main.rs:1559-1783 | the same for what one sender put on the wire |
| PttReceiver.Receiver.DecodeInto | kaonic-audio-ptt/src/codec.rs:79-96 | the frame size check, and one decoder step otherwise |
| PttReceiver.Receiver.PlayFrames | kaonic-audio-ptt/src/main.rs:1779-1818 | frames are decoded, broadcast and queued up to the first that playback refuses; no slice or size check fails |
| PttReceiver.Receiver.Handle | kaonic-audio-ptt/src/main.rs:1746-1829 | all outcomes of a packet: counted only, rejected, played, partly dropped, or playback gone |
| PttReceiver.FramesAreAccountedFor | kaonic-audio-ptt/src/main.rs:1779-1828 | over any run with playback open and ALSA output, frames of accepted packets are frames queued plus playback drops |
| PttReceiver.TalkingPacketsAreOnlyCounted | kaonic-audio-ptt/src/main.rs:1752-1758 | in every run packets arriving while transmitting are counted once and change nothing else, the run is that of the other packets |
| PttReceiver.QuietPacketsAreReceived | kaonic-audio-ptt/src/main.rs:1779-1828 | with playback open every well-formed other packet is counted as received |
| PttReceiver.RejectionIs | kaonic-audio-ptt/src/main.rs:1759-1778 | when a packet is rejected, and why, in terms of its bytes |
| PttReceiver.FramesLieInPacket | kaonic-audio-ptt/src/main.rs:1779-1783 | where the frames of a well-formed packet lie in it |
| PttReceiver.UnplayedPacket | kaonic-audio-ptt/src/main.rs:1752-1778 | any other packet changes at most the count of those that came while talking |
| PttReceiver.PlayedPacket | kaonic-audio-ptt/src/main.rs:1779-1829 | everything one well-formed packet changes, by the first frame playback does not take |
| PttReceiver.BrowserPacket | kaonic-audio-ptt/src/main.rs:1779-1829 | the same with browser output |
| PttReceiver.BytesAndSenderNoted | kaonic-audio-ptt/src/main.rs:1820-1828 | over any run with playback open, the bytes counted are those of the packets received and the sender shown is that of the last |
| TxSession.Session.NextBrowserSessionId | kaonic-audio-ptt/src/main.rs:971-973 | a fresh number |
| TxSession.Session.OpenBrowserSession | kaonic-audio-ptt/src/main.rs:1217-1236 | refused exactly while ALSA transmits, otherwise stored in place of an older browser session |
| TxSession.Session.FinishBrowserSession | kaonic-audio-ptt/src/main.rs:1401-1407 | clears the session only if it is the one finished |
| TxSession.Session.StartAlsaSession | kaonic-audio-ptt/src/main.rs:1331-1352 | starts exactly when nothing is active |
| TxSession.Session.StopAlsaSession | kaonic-audio-ptt/src/main.rs:1369-1390 | takes and cancels an ALSA session, puts a browser session back |
| TxSession.Session.ShutdownSession | kaonic-audio-ptt/src/main.rs:1392-1399 | takes whatever is stored and cancels ALSA |
| TxSession.StoredSessionIsLive | kaonic-audio-ptt/src/main.rs:1217-1407 | in every interleaving a stored browser session is open and not finished, a stored ALSA session not cancelled |
| TxSession.SessionStaysUntilEnded | kaonic-audio-ptt/src/main.rs:1217-1407 | a session stays stored until its own finish or stop, a newer browser session for a browser one, or the shutdown, whatever else is interleaved |
| TxSession.ChangeMeansEnded | kaonic-audio-ptt/src/main.rs:1217-1407 | if the stored session changed, one of those events happened |
| TxSession.FinishedStaysFinished | kaonic-audio-ptt/src/main.rs:1401-1407 | a finished browser session is never stored again |
| TxSession.Handover | kaonic-audio-ptt/src/main.rs:1217-1407 | in every interleaving, what is stored after each event: the session stays exactly if the event does not end it, a stop cancels it and leaves none, an open or a start stores its own |
| TxLedger.StartedTokenIsNew | kaonic-audio-ptt/src/main.rs:1331-1352 | a start stores a session that was never stored before |
| TxLedger.CancelledIff | kaonic-audio-ptt/src/main.rs:1369-1399 | an ALSA session is cancelled exactly if a stop or the shutdown found it stored |
| TxLedger.FinishedIff | kaonic-audio-ptt/src/main.rs:1217-1407 | a browser session is finished exactly if its handler finished it, and open exactly if it got in and did not finish |
| TxLedger.WaitingIff | kaonic-audio-ptt/src/main.rs:1217-1236 | a number waits exactly if it was drawn and its handler has not come to the lock yet |
| TxLedger.NumbersAreCounted | kaonic-audio-ptt/src/main.rs:971-973 | the k-th number drawn is k |
| Resampler.ResampleMonoPcm | kaonic-audio-ptt/src/audio.rs:474-487 | the loop with its clamp computes the resampled signal without one |
| Resampler.SourceInRange | kaonic-audio-ptt/src/audio.rs:481-485 | every source index is inside the input |
| Resampler.SourceNonDecreasing | kaonic-audio-ptt/src/audio.rs:481-484 | source indices never decrease |
| Resampler.UpThenDown | kaonic-audio-ptt/src/audio.rs:474-487 | raising the rate by an integer factor and lowering it again returns the input |
| Resampler.SurvivesIffMultiple | kaonic-audio-ptt/src/audio.rs:474-487 | for two samples or more, there and back is lossless for all signals if and only if the other rate is a multiple |
| Resampler.SurvivesSingle | kaonic-audio-ptt/src/audio.rs:478-479 | a single sample comes back alone if and only if the rate is less than twice the other |
| Resampler.ConvertPlaybackFrame | kaonic-audio-ptt/src/audio.rs:456-471 | the bytes are every resampled sample, once per channel |
| Resampler.ChannelHoldsSignal | kaonic-audio-ptt/src/audio.rs:463-470 | reading any one channel back gives the resampled signal |
| RateSampler.Metrics.RecordTx | kaonic-vpn/src/vpn/metrics.rs:38-42 | packets, bytes and time of sending, wrapping at 64 bits |
| RateSampler.Metrics.RecordRx | kaonic-vpn/src/vpn/metrics.rs:44-48 | the same for receiving |
| RateSampler.Metrics.RefreshRates | kaonic-vpn/src/vpn/metrics.rs:74-95 | both directions behave as separate tracks of one sampler |
| RateSampler.Metrics.TakeSnapshot | kaonic-vpn/src/vpn/metrics.rs:54-69 | the counters as they stand and the refreshed rates |
| RateSampler.ReportOf | kaonic-vpn/src/vpn/metrics.rs:74-95 | every call's report: 0 until a time is known, the rate of the window it ends in bits per second rounded down, and inside a window what the call before reported |
| RateSampler.TrackHoldsReading | kaonic-vpn/src/vpn/metrics.rs:74-95 | which reading a window begins with |
| RateSampler.RatesAddUp | kaonic-vpn/src/vpn/metrics.rs:74-95 | over any run, with clocks that stall or step back and readings in any order: reported rates times windows plus what each division rounded away are exactly the bits counted when nothing saturates, and never more when something does; rounding loses less than a bit per second in each window |
| RateSampler.OneSecondRatesIff | kaonic-vpn/src/vpn/metrics.rs:54-95 | with one-second windows the rates stay within the bytes between first and last sample if and only if no sampled reading fell back, and else exceed them by exactly what fell back |
| RateSampler.RatesWithinBytesIff | kaonic-vpn/src/vpn/metrics.rs:54-95 | with any windows, if and only if rounding lost at least what fell back |
| RateSampler.MonotoneRatesAddUp | kaonic-vpn/src/vpn/metrics.rs:74-95 | with a monotone counter the sum is at most eight times the bytes between samples and short of it by less than the total window length |
| RateSampler.RacingSnapshotsCountTwice | kaonic-vpn/src/vpn/metrics.rs:54-57 | a run in which a reading overtaken by a later one before the lock makes its bytes count twice |
| EventTracker.GatewayReticulum.PushEvent | kaonic-gateway/src/gateway_reticulum.rs:346-349 | in front, at most 256 kept |
| EventTracker.GatewayReticulum.RecordInterfaceError | kaonic-gateway/src/gateway_reticulum.rs:61-103 | keeps the tracker a fold of the history extended by this error |
| EventTracker.GatewayReticulum.HandleLinkEvent | kaonic-gateway/src/gateway_reticulum.rs:166-216 | the same for a link event |
| EventTracker.GatewayReticulum.HandleReceivedData | kaonic-gateway/src/gateway_reticulum.rs:218-231 | the same for received data |
| EventTracker.GatewayReticulum.HandleAnnounce | kaonic-gateway/src/gateway_reticulum.rs:233-253 | the same for an announce |
| EventTracker.GatewayReticulum.TakeSnapshot | kaonic-gateway/src/gateway_reticulum.rs:36-59 | the lists are the maps' links, each once, latest first and by id among equals |
| EventTracker.FileLink | kaonic-gateway/src/gateway_reticulum.rs:178-203 | the entry has count and sum of its data events and the description of the last event filed under it |
| EventTracker.FiledEventKeepsLinks | kaonic-gateway/src/gateway_reticulum.rs:192-203 | filing one event turns the fold of a history into the fold of the longer one |
| EventTracker.SnocNewest | kaonic-gateway/src/gateway_reticulum.rs:346-349 | pushing and truncating yields the newest 256 events of the longer history |
| EventTracker.NewestEntries | kaonic-gateway/src/gateway_reticulum.rs:346-349 | the ring holds at most 256 entries, the newest first, each telling its event |
| EventTracker.LinkTellsHistory | kaonic-gateway/src/gateway_reticulum.rs:166-216 | a link is there for each id events were filed under, with number and bytes of its data events and what its last event said |
| EventTracker.BytesSnoc | kaonic-gateway/src/gateway_reticulum.rs:192-203 | the bytes of a link grow by those of each data event filed under it, and only those |
| EventTracker.StatsTellHistory | kaonic-gateway/src/gateway_reticulum.rs:61-103 | the counters are the numbers of errors of each kind, the totals their sums |
| EventTracker.ListingShowsAll | kaonic-gateway/src/gateway_reticulum.rs:36-59 | a listing shows every link once, later seen links first and smaller ids first among equals |
| EventTracker.InsertListed | kaonic-gateway/src/gateway_reticulum.rs:39-51 | inserting a link keeps a listing sorted and complete |
| EventTracker.ListLinks | kaonic-gateway/src/gateway_reticulum.rs:39-51 | cloning a map's values in any order and sorting them lists the map |

## Left out

- PluginStore.Store.RunSteps: does not generate TLS files; they depend on the device identity and discovery regenerates them (plugins.rs:449-453 and 974-978).
- Failing removals inside a rollback, which are ignored there, failing reads while opening, a rollback directory that is half deleted, and file modes.
- `delete_plugin`, built-in plugin records (`sync_core_plugins`), listing and control: single calls without a protocol.
- The other plugins themselves: they appear as the names their rows occupy and as the stage at which their directories or links end a call.
- OtaInstaller.Target.ApplyUpdate: creating the metadata directory is taken to succeed, though its error is ignored as well.
- PluginHistory.HistoryWithCrashes: says nothing of links and units; after any history `OpeningLinks` gives the link once opening is through, and `AgreementAfterCrash` the unit for one crash.
- VpnCodec.AcceptedAnnounceIsCanonical: the nesting limit of the decoder is not modelled; serde and rmp-serde are not part of this model.
- How serde buffers the content of a control frame that comes before its tag: both orders are read alike here.
- Route lists of 2^32 or more entries: the array format family cannot count them.
- ServiceUnit.RewriteIsIdempotent: on lines only; splitting into lines and joining them again shortens trailing blank lines.
- Cidr.ContainsIffLeadingBitsAgree: the cidr crate is not part of this model; containment is first address <= ip <= last address.
- The sort in `build` and in `snapshot` is an insertion sort standing for the library's; only sortedness and contents are used.
- Peers are read once per `build`, so concurrent changes of a peer's routes during one call are not modelled.
- EventTracker.GatewayReticulum.HandleLinkEvent: counters are unbounded, 64-bit overflow is not modelled; texts are kept as constructors.
- Resampler.ResampleMonoPcm: 64-bit overflow of length times rate is not modelled; rates are positive.
- The `transmitting` flag as a mirror of the stored session, and waiting for a cancelled ALSA task: both happen outside the lock.
- BurstTx.Sender.PushPcm: the Codec2 encoder's output is an arbitrary frame of the fixed size.
- OTA package extraction, version hydration from a manifest and finding the signature file: their results are the fields of `Package`.
- HTTP handlers, web pages, WebSocket plumbing, TLS certificates, radio client, ATAK bridge, network settings and system metrics: I/O and user interface.
- `platform.rs` and the VPN runtime: their effects depend on the kernel and on timers.
