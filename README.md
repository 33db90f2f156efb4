# proxmox-installer front end, modelled in Dafny

This project models the Rust front end of the Proxmox installer and proves properties of the model. The model covers:

- the shared installer library (`proxmox-installer-common`): RAID requirements, file-system names, interface pinning, FQDN and CIDR parsing, the start-up data and the checks on a disk selection;
- the automated installer (`proxmox-auto-installer`): answer-file validation, matching disks and NICs by udev filters, and building the low-level `InstallConfig` from an answer;
- the assistant (`proxmox-auto-install-assistant`) and the helper (`proxmox-autoinst-helper`): argument rules, filter matching, and parsing of tool output;
- the HTTP answer-URL discovery of `proxmox-fetch-answer`: ISO settings, DHCP lease options and DNS TXT records;
- the mount and unmount plan of `proxmox-chroot`;
- the report computations of `proxmox-post-hook`: kernel package, image and version, CPU summary, disk and NIC lists;
- the TUI's option summary, its conversion to `InstallConfig`, its CIDR type and the tab/focus state of `TabbedView`.

Each source file is one module:

| module | models |
|---|---|
| `OptionTypes`, `CommonOptions` | `proxmox-installer-common/src/options.rs` (the data types, then their behaviour) |
| `CommonSetup` | `proxmox-installer-common/src/setup.rs` |
| `CommonUtils` | `proxmox-installer-common/src/utils.rs` |
| `DiskChecks` | `proxmox-installer-common/src/disk_checks.rs` |
| `Answer` | `proxmox-auto-installer/src/answer.rs` |
| `AutoUtils` | `proxmox-auto-installer/src/utils.rs` |
| `Assistant` | `proxmox-auto-install-assistant/src/main.rs` |
| `AutoinstHelper` | `proxmox-autoinst-helper/src/main.rs` |
| `HttpFetch` | `proxmox-fetch-answer/src/fetch_plugins/http.rs` |
| `Chroot` | `proxmox-chroot/src/main.rs` |
| `PostHook` | `proxmox-post-hook/src/main.rs` |
| `TuiOptions`, `TuiSetup`, `TuiUtils`, `TabbedViews` | `proxmox-tui-installer/src/{options,setup,utils}.rs`, `views/tabbed_view.rs` |

Four modules hold shared building blocks:

- `Wrappers`: `Option` and `Result`.
- `Text`: the Rust string primitives on `seq<char>`, such as `trim`, `split_once`, `split`, `lines` and `usize` parsing.
- `Seqs`: first and last match in a sequence, counting, filtering and collecting.
- `Ordered`: the key order of `BTreeMap`.

The helper's `match` subcommand (`match_filter`, `proxmox-autoinst-helper/src/main.rs:152-188`) is the same as the assistant's and is covered by the `Assistant.ParseFilterArgs` and `Assistant.MatchFilter` rows.

How the Rust code is carried over:

- Loops in the source become `while` or `for` loops. Each is proved against a specification function, and the properties are proved as lemmas about that function.
- `TabbedView` is a class whose methods update its fields.
- Panics (`unwrap`, `expect`, indexing out of range, `assert!`) become error values: `Panic`, `SetupPanic`, `TabPanic`.
- External commands, files, udev, and opaque libraries become parameters. These include `glob::Pattern`, regular expressions, `IpAddr` parsing and display, `str::to_lowercase` and UTF-8 decoding.
- `HashMap` order is unspecified, so the model picks an arbitrary element.
- `BTreeMap` keys are visited in ascending order.

Where the surrounding code has drifted between versions, the model follows that code:

- `InstallConfig` is not part of this model's source files. It is modelled in `CommonSetup` with the fields the TUI and the auto-installer set.
- The answer file's `Network` section in this revision has no interface pinning. `AutoUtils.ParseAnswer` takes the pinning options as a separate input.
- The TUI's conversion gives no value for `network_interface_pin_map`. The model sets it to the empty map.
- `MAX_IFNAME_LEN` is 15, the value the pinning tests rely on. `net.rs` is not part of this model.

## Model

| member | source | states |
|---|---|---|
| Answer.AsSystemdTargetName | proxmox-auto-installer/src/answer.rs:145-153 | each first-boot ordering names one of the three systemd targets network-pre, network-online, multi-user |
| Answer.AsSystemdTargetNameInjective | proxmox-auto-installer/src/answer.rs:147-153 | different orderings name different targets |
| Answer.KeyboardLayoutName | proxmox-auto-installer/src/answer.rs:416-446 | the displayed kebab-case name of a layout is 2 to 5 characters long |
| Answer.KeyboardLayoutRoundTrip | proxmox-auto-installer/src/answer.rs:416-446 | decoding the displayed name of a layout gives the layout back |
| Answer.KeyboardLayoutFromNameSound | proxmox-auto-installer/src/answer.rs:416-446 | a name that decodes is exactly the display name of the layout it decodes to |
| Answer.KeyboardLayoutNameInjective | proxmox-auto-installer/src/answer.rs:416-446 | two layouts with the same name are the same layout |
| Answer.NetworkTryFrom | proxmox-auto-installer/src/answer.rs:199-244 | `from-answer` succeeds iff cidr, dns, gateway and filter are all set, else names the first missing one; `from-dhcp` succeeds iff none is set, else names the first one given |
| Answer.NetworkAnswerRoundTrip | proxmox-auto-installer/src/answer.rs:199-244 | every network setting comes from its own answer section and from no other |
| Answer.LvmChecks | proxmox-auto-installer/src/answer.rs:300-308 | ext4/xfs accept iff no zfs or btrfs block and at most one listed disk; a foreign block is reported before the disk count |
| Answer.DisksTryFrom | proxmox-auto-installer/src/answer.rs:283-352 | exactly one of disk list and filter is required, with the two distinct errors; a result carries the system's fs type, selection, filter match and option block (LVM defaults when absent) |
| Answer.DisksTryFromAccepts | proxmox-auto-installer/src/answer.rs:283-352 | the validator succeeds iff the setup is acceptable per file system, and a result pairs fs type and option block consistently (RAID level matches) |
| Answer.DisksTryFromErrors | proxmox-auto-installer/src/answer.rs:300-341 | for a setup that selects disks properly, each foreign-option or missing-RAID case yields its own message |
| Assistant.AsciiLower | proxmox-auto-install-assistant/src/main.rs:372 | ASCII lower-casing keeps the length and lower-cases each character on its own |
| Assistant.AllDeviceTypesFromStr | proxmox-auto-install-assistant/src/main.rs:368-379 | parses iff the lower-cased text is `all`, `network` or `disk`, and gives back the type with that name; any other text is an unknown-type error naming the input |
| Assistant.DeviceTypeFromStr | proxmox-auto-install-assistant/src/main.rs:386-396 | parses iff the lower-cased text is `network` or `disk`, and gives back the type with that name; any other text is an unknown-type error |
| Assistant.DeviceTypesIgnoreCase | proxmox-auto-install-assistant/src/main.rs:372-390 | ASCII texts that differ only in letter case parse to the same device type, or both fail |
| Assistant.DeviceTypesUpperCase | proxmox-auto-install-assistant/src/main.rs:372-390 | `DISK` parses as the disk type for both parsers |
| Assistant.FilterArg | proxmox-auto-install-assistant/src/main.rs:475-484 | an error names the argument it rejected |
| Assistant.FilterArgSpec | proxmox-auto-install-assistant/src/main.rs:475-484 | an argument is accepted iff its first `=` has text on both sides; the pair then splits it at that `=`; a text with no `=` gets the missing-separator error |
| Assistant.FilterEntries | proxmox-auto-install-assistant/src/main.rs:474-486 | one entry per argument |
| Assistant.FilterEntriesSpec | proxmox-auto-install-assistant/src/main.rs:474-486 | entry `i` is the parse of argument `i` |
| Assistant.ParseFilterArgs | proxmox-auto-install-assistant/src/main.rs:472-486 | fails iff some argument is malformed, with the first bad argument's error; otherwise the filters are every pair inserted in order |
| Assistant.FilterArgsLastWins | proxmox-auto-install-assistant/src/main.rs:480 | a key takes the value of its last occurrence |
| Assistant.FilterArgsKeys | proxmox-auto-install-assistant/src/main.rs:480 | the filter keys are exactly the keys of the arguments |
| Assistant.FilterArgsEmpty | proxmox-auto-install-assistant/src/main.rs:473-486 | well-formed arguments give an empty filter exactly when there are none |
| Assistant.MatchFilter | proxmox-auto-install-assistant/src/main.rs:465-501 | a bad filter is reported as such; disks give a non-empty, sorted list of exactly the selected disks, succeed exactly when every glob compiles and some disk is selected, and report an invalid glob exactly when there is a device and a bad glob; a network match gives a one-element list with the first matching NIC, no filter argument is exactly the no-filter error, and with valid globs it succeeds exactly when some NIC matches |
| Assistant.ValidateKeys | proxmox-auto-install-assistant/src/main.rs:511-533 | the verdict is true iff no key outside the filter tables, at any depth, contains `_`; every entry is visited |
| Assistant.KeysValidInFilter | proxmox-auto-install-assistant/src/main.rs:513-515 | underscore keys inside `[disk-setup.filter]` are accepted |
| Assistant.KeysInvalidElsewhere | proxmox-auto-install-assistant/src/main.rs:519-528 | an underscore key in `[global]` or at the top level is rejected |
| Assistant.KeysValidTable | proxmox-auto-install-assistant/src/main.rs:517-532 | a table is valid iff each of its entries has a valid key and a valid value |
| Assistant.CheckPrepareArgs | proxmox-auto-install-assistant/src/main.rs:583-611 | accepts iff: iso mode has an answer file, URL and fingerprint only with http, an answer file only with iso, and the first-boot file is at most 1 MiB; the first failing check is the error |
| Assistant.PrepareAnswerFileExcludesUrl | proxmox-auto-install-assistant/src/main.rs:583-600 | accepted arguments never combine an answer file with an URL or fingerprint; the partition mode takes none of them |
| Assistant.FileStem | proxmox-auto-install-assistant/src/main.rs:695 | the stem is a prefix of the name; it is either the whole name or ends before the last `.`, which is not the first character |
| Assistant.PushPath | proxmox-auto-install-assistant/src/main.rs:697-698 | the pushed path ends with the pushed name |
| Assistant.ModeName | proxmox-auto-install-assistant/src/main.rs:680-685 | the mode part of the name is never empty |
| Assistant.FinalIsoLocation | proxmox-auto-install-assistant/src/main.rs:676-701 | an explicit output wins; otherwise the input's parent joined with `<stem>-<mode>[-url][-fp].iso`; a missing parent or file name panics |
| Assistant.IsoSuffix | proxmox-auto-install-assistant/src/main.rs:680-692 | the suffix starts with the mode name |
| Assistant.IsoSuffixInjective | proxmox-auto-install-assistant/src/main.rs:680-692 | different modes or markers never give the same suffix |
| Assistant.LastToken | proxmox-auto-install-assistant/src/main.rs:747-749 | the last space-separated token has no space |
| Assistant.Unquoted | proxmox-auto-install-assistant/src/main.rs:751-752 | the result has no single quote, and no space when the token had none |
| Assistant.UuidFromLine | proxmox-auto-install-assistant/src/main.rs:746-753 | the uuid has no quote and no space |
| Assistant.UuidIsLastToken | proxmox-auto-install-assistant/src/main.rs:747-753 | the uuid is the unquoted token after the last space |
| Assistant.GetIsoUuid | proxmox-auto-install-assistant/src/main.rs:744-757 | the uuid of the first report line starting with `-volume_date uuid`, or empty text when there is none |
| Assistant.UuidOfLines | proxmox-auto-install-assistant/src/main.rs:745-756 | the line loop stops at the first uuid line and returns its uuid; empty when there is none |
| Assistant.PropertyOf | proxmox-auto-install-assistant/src/main.rs:811-815 | a property line is exactly `E: key=value` with no `=` in the key |
| Assistant.PropertyEntries | proxmox-auto-install-assistant/src/main.rs:796-816 | one entry per line |
| Assistant.PropertyEntriesSpec | proxmox-auto-install-assistant/src/main.rs:811-815 | entry `i` is the property of line `i` |
| Assistant.DeviceNameSpec | proxmox-auto-install-assistant/src/main.rs:794-809 | the device is named by its last `N: ` line, and keeps the directory name without one |
| Assistant.ParseUdevDisk | proxmox-auto-install-assistant/src/main.rs:794-818 | a device is dropped iff some line says non-disk, CD-ROM or ISO 9660; otherwise it keeps the last `N: ` name and all `E: key=value` properties in order |
| Assistant.DiskEntry | proxmox-auto-install-assistant/src/main.rs:776-818 | an entry contributes iff its name is wanted, udev reported on it and no line drops it |
| Assistant.DiskEntries | proxmox-auto-install-assistant/src/main.rs:776-819 | one contribution per directory entry |
| Assistant.DiskEntriesSpec | proxmox-auto-install-assistant/src/main.rs:776-819 | contribution `i` is that of entry `i` |
| Assistant.GetDisks | proxmox-auto-install-assistant/src/main.rs:760-821 | the disk map is every contribution inserted in directory order; a later name replaces an earlier one |
| Assistant.GetDisksWanted | proxmox-auto-install-assistant/src/main.rs:776-818 | every reported disk comes from a wanted directory entry that udev reported on |
| AutoUtils.GetSingleUdevIndex | proxmox-auto-installer/src/utils.rs:91-116 | an empty filter is an error; otherwise the result is the first device in key order with a property matching its glob, an unmatched filter is an error, and an invalid glob is an error only when reached |
| AutoUtils.MatchFlags | proxmox-auto-installer/src/utils.rs:180-192 | for one device: whether every glob compiles, and then whether some and whether all filtered properties match |
| AutoUtils.GetMatchedUdevIndexes | proxmox-auto-installer/src/utils.rs:174-203 | an invalid glob fails exactly when there is a device; otherwise the result is the sorted, non-empty list of exactly the devices matching all (or any) filtered properties, and an empty match is an error |
| AutoUtils.FindDisk | proxmox-auto-installer/src/utils.rs:228-231 | the position of the first disk satisfying the query, or none when no disk does |
| AutoUtils.SetSingleDisk | proxmox-auto-installer/src/utils.rs:219-248 | a listed name resolves to the first disk whose path ends with it, or fails with disk-not-found; an empty filter is the no-filter error; a filter succeeds with the disk of the first matching device, and with all globs valid it succeeds exactly when that device is a runtime disk; a first match that is no runtime disk is the `target_hd` unwrap panic |
| AutoUtils.ResolvedIndex | proxmox-auto-installer/src/utils.rs:260-267 | a listed name resolves exactly when some disk path ends with it, to the index of a runtime disk |
| AutoUtils.SetSelectedDisks | proxmox-auto-installer/src/utils.rs:250-321 | a non-empty selection mapping each chosen index to itself; listed names give exactly the disks they resolve to and an error when none resolves; filters give exactly the selected udev devices, and succeed exactly when every glob is valid, some device is selected and every selected device is a runtime disk |
| AutoUtils.ResolvedSetSpec | proxmox-auto-installer/src/utils.rs:259-269 | an index is selected exactly when some listed name resolves to it, and the selection is empty exactly when no name resolves |
| AutoUtils.SelectListedDisks | proxmox-auto-installer/src/utils.rs:257-270 | the selected keys are the resolved indexes, each mapping to itself; no resolved index is the no-disks-selected error |
| AutoUtils.SelectFilteredDisks | proxmox-auto-installer/src/utils.rs:271-294 | the selected keys are exactly the udev disks the filter selects, each a runtime disk index mapping to itself; it succeeds exactly when every glob is valid, some device is selected and every selected device is a runtime disk; otherwise the error is an invalid glob, no match, or the unwrap panic |
| AutoUtils.FirstSelectedDiskAsWritten | proxmox-auto-installer/src/utils.rs:323-332 | the first key is parsed as a number and used as a position in the runtime disk list |
| AutoUtils.FirstSelectedDisk | proxmox-auto-installer/src/utils.rs:323-332 | the disk chosen is the runtime disk whose index is the first selected key, and it exists exactly when such a disk does |
| AutoUtils.ElevenDisks | proxmox-auto-installer/src/utils.rs:323-332 | a runtime disk list of eleven disks sorted by index text |
| AutoUtils.FirstSelectedDiskMismatch | proxmox-auto-installer/src/utils.rs:323-332 | with eleven disks the as-written lookup of key 2 returns disk 10, not the disk with index 2 |
| AutoUtils.VerifyFilesystemSettings | proxmox-auto-installer/src/utils.rs:334-344 | Btrfs is rejected exactly when the product does not enable it |
| AutoUtils.VerifyLocaleSettings | proxmox-auto-installer/src/utils.rs:346-375 | accepts exactly a known country, a known keyboard layout and a zone some country lists or UTC, reporting the first failing check |
| AutoUtils.DefaultTimezonePasses | proxmox-auto-installer/src/utils.rs:365-372 | the default zone of the runtime always passes the zone check |
| AutoUtils.VerifyEmailAndRootPasswordSettings | proxmox-auto-installer/src/utils.rs:383-407 | accepts exactly a valid address with exactly one password option, a plain one of at least the minimum length in bytes |
| AutoUtils.PasswordErrors | proxmox-auto-installer/src/utils.rs:390-405 | both options, neither option and a short plain password each give their own error |
| AutoUtils.VerifyDisksSettings | proxmox-auto-installer/src/utils.rs:409-434 | accepts exactly a disk list of at least the minimum size without duplicates and a swap size at most half the disk size; reports too few disks, the first repeat or the swap error, and no other error |
| AutoUtils.VerifyFirstBootSettings | proxmox-auto-installer/src/utils.rs:436-445 | a URL hook source without a URL is rejected, and nothing else |
| AutoUtils.VerifyNetworkSettings | proxmox-auto-installer/src/utils.rs:447-470 | given pinning options are accepted exactly when they are valid, with the failing cause |
| AutoUtils.GetNetworkSettings | proxmox-auto-installer/src/utils.rs:27-89 | the DHCP hostname and domain errors; a fixed FQDN replaces the default; a manual section sets address, DNS, gateway and the first matching interface; every other field is the default's; accepted pinning is valid; it succeeds exactly when the DHCP FQDN parts are there, a manual filter is non-empty and matches some interface, and the pinning is valid (for a manual filter with an invalid glob, success still implies these); each error names its cause: the missing DHCP part, the interface lookup's failure (empty filter, bad glob, no match) or the pinning defect |
| AutoUtils.ZfsInstallOptions | proxmox-auto-installer/src/utils.rs:568-574 | unset ZFS options default to ashift 12, the runtime ARC maximum, compression and checksums on and one copy |
| AutoUtils.FirstBootSetup | proxmox-auto-installer/src/utils.rs:588-592 | the hook is enabled, with its ordering target, exactly when one is given |
| AutoUtils.RootPasswordOf | proxmox-auto-installer/src/utils.rs:495-503 | the plain password, or else the hashed one |
| AutoUtils.VerifySettings | proxmox-auto-installer/src/utils.rs:487-491 | succeeds exactly when the locale, disk, e-mail and password, first-boot and pinning rules all pass; an error is the first failing rule's, in that order |
| AutoUtils.ParseAnswer | proxmox-auto-installer/src/utils.rs:472-595 | an answer is accepted exactly when every verify rule passes, the network settings resolve and the disks resolve (`AnswerAccepted`; the "only if" holds always, the "if" where no filter glob leaves the outcome to the key order); an error is the first failing step's: the filesystem rule, then the network settings, then the later rules in order, and only then a disk error; an accepted answer passes every verify rule; the configuration holds its global settings; the network fields come from the answer's network settings (fixed or default FQDN, manual or default address, gateway, DNS and interface); the target disk or disk selection is the one `set_single_disk` or `set_selected_disks` chooses; `hdsize` is the given size or else the target disk's (LVM) or the smallest selected index's disk's (ZFS, Btrfs) |
| AutoUtils.BuildConfig | proxmox-auto-installer/src/utils.rs:505-594 | it succeeds exactly when the answer's disks resolve (`DisksResolve`: the listed name or the filter's first match is a runtime disk for ext4 and xfs, some listed name resolves or the filter selects only runtime disks for ZFS and Btrfs), and otherwise fails with a disk error; the filesystem options never fail after `set_disks`; the configuration holds the answer's global settings; the management NIC, pinning map, host name (or the product default), domain, address, gateway and DNS server of the network options; the chosen target disk or disk selection; and the filesystem options, with `hdsize` the given size or else the target disk's (LVM) or the smallest selected index's disk's (ZFS, Btrfs) |
| AutoUtils.SetDisks | proxmox-auto-installer/src/utils.rs:205-217 | ext4 and xfs set only the target disk, the one the listed name or the filter's first match names; ZFS and Btrfs only the disk selection, exactly the resolved or filter-selected runtime disks; it fails exactly when the chosen operation does, with one of its errors; an empty ext4 or xfs filter is `NoFilter` |
| AutoUtils.ApplyFsOptions | proxmox-auto-installer/src/utils.rs:546-584 | LVM always succeeds and takes the given size, else the size of the first disk with the target path, else 0; ZFS and Btrfs succeed exactly when the smallest selected key is a runtime disk index, and take the given size, else that disk's size; the options are defaulted; a selection of runtime disk indexes never fails |
| AutoUtils.FirstSelectedKey | proxmox-auto-installer/src/utils.rs:324-327 | the smallest key of the selection in byte order |
| AutoUtils.TargetDiskSize | proxmox-auto-installer/src/utils.rs:548-555 | the size of the first disk with the given path, and 0 when no disk has it |
| AutoUtils.WithoutLoopback | proxmox-auto-installer/src/utils.rs:164-169 | exactly the links other than lo |
| AutoUtils.GetNicList | proxmox-auto-installer/src/utils.rs:156-172 | the decoded links without the loopback, in order |
| AutoUtils.ResolvedSet | proxmox-auto-installer/src/utils.rs:257-270 | every index the listed names resolve to is a runtime disk index |
| Chroot.FromFsType | proxmox-chroot/src/main.rs:116-125 | the RAID level is dropped: LVM file systems stay ext4 or xfs, every ZFS level is ZFS and every Btrfs level is Btrfs |
| Chroot.ParseFilesystemsSpec | proxmox-chroot/src/main.rs:127-139 | `ParseFilesystems` takes exactly "ext4" and "xfs" name those, any text starting with "zfs" or "btrfs" names ZFS or Btrfs, and every other text is refused |
| Chroot.ParseZfsPrefixed | proxmox-chroot/src/main.rs:134 | any text after "zfs" names ZFS |
| Chroot.ParseBtrfsPrefixed | proxmox-chroot/src/main.rs:135 | any text after "btrfs" names Btrfs |
| Chroot.ParseSerialized | proxmox-chroot/src/main.rs:116-139 | the stored name of every file system type parses to the kind its conversion gives |
| Chroot.GetFs | proxmox-chroot/src/main.rs:204-219 | the file system given on the command line wins; otherwise the stored configuration's, and without one an error |
| Chroot.GetFsExplicitWins | proxmox-chroot/src/main.rs:205-217 | with an explicit file system the stored configuration does not matter |
| Chroot.GetFsFromConfig | proxmox-chroot/src/main.rs:207-214 | a stored configuration always gives a file system, of the same kind whatever the RAID level |
| Chroot.AttemptedSpec | proxmox-chroot/src/main.rs:168-186 | commands joined by an early return are attempted as a prefix in which all but the last succeeded; the whole plan when all succeed |
| Chroot.AttemptedOne | proxmox-chroot/src/main.rs:168-186 | a plan of one command is attempted whole and succeeds exactly when it does |
| Chroot.AttemptedTwo | proxmox-chroot/src/main.rs:262-306 | the second command runs only after the first succeeded |
| Chroot.ZpoolImportArgs | proxmox-chroot/src/main.rs:235-246 | zpool import -R /target, then rpool without a pool id or the id's decimal text |
| Chroot.ZpoolImportAsWritten | proxmox-chroot/src/main.rs:235-253 | only an import that exits with failure is an error |
| Chroot.ZpoolImport | proxmox-chroot/src/main.rs:235-253 | the import is an error exactly when it does not succeed |
| Chroot.ZpoolImportNotStarted | proxmox-chroot/src/main.rs:247-250 | an import that cannot be started counts as done as written, and as an error when corrected |
| Chroot.ZpoolImportAgrees | proxmox-chroot/src/main.rs:247-250 | the two agree whenever the import could be started |
| Chroot.MountFs | proxmox-chroot/src/main.rs:262-306 | without the ISO information nothing runs; otherwise the volume group activation and then the root mount run in order and stop at a failure |
| Chroot.UuidCaptureSpec | proxmox-chroot/src/main.rs:372-377 | a captured UUID is well formed and ends its line after the marker |
| Chroot.UuidCaptureOf | proxmox-chroot/src/main.rs:372-377 | every line ending in the marker and a UUID gives exactly that UUID |
| Chroot.Captured | proxmox-chroot/src/main.rs:374-380 | one well-formed UUID per line that has one |
| Chroot.GetBtrfsUuid | proxmox-chroot/src/main.rs:358-394 | the loop over the output lines gives the UUID selection of the specification function |
| Chroot.JoinSnoc | proxmox-chroot/src/main.rs:384-386 | joining one more part appends the separator and the part |
| Chroot.UuidListJoin | proxmox-chroot/src/main.rs:384-386 | the fold puts a line break before each UUID |
| Chroot.UuidListNames | proxmox-chroot/src/main.rs:383-389 | the message lists every UUID found, one per line, in output order |
| Chroot.UuidHasNoBreak | proxmox-chroot/src/main.rs:372-373 | a UUID holds no line break |
| Chroot.BtrfsUuidCount | proxmox-chroot/src/main.rs:381-393 | no UUID is an error, one UUID is the result, several are an error counting and listing all of them |
| Chroot.MountBtrfs | proxmox-chroot/src/main.rs:330-356 | the UUID given is mounted, or the single one found; a lookup error mounts nothing |
| Chroot.BindPlan | proxmox-chroot/src/main.rs:417-440 | dev, proc, run and sys are bind-mounted in order, then the answer mount point when it exists |
| Chroot.BindPlanAnswer | proxmox-chroot/src/main.rs:428-438 | the answer mount point is created before it is bind-mounted, after the four virtual file systems |
| Chroot.AttemptStep | proxmox-chroot/src/main.rs:420-426 | one more step of a plan run in order extends the attempted prefix, and a failure ends the run there |
| Chroot.AttemptDone | proxmox-chroot/src/main.rs:420-440 | a plan run to its end with nothing failed was attempted whole |
| Chroot.BindMountAll | proxmox-chroot/src/main.rs:417-440 | the bind mounts run in order and stop at the first failure |
| Chroot.VirtualUmountPlan | proxmox-chroot/src/main.rs:443-450 | the four virtual file systems are unmounted in the order they were mounted |
| Chroot.UmountPlan | proxmox-chroot/src/main.rs:442-463 | the four unmounts, then unmounting and removing the answer mount point when it exists |
| Chroot.UmountStep | proxmox-chroot/src/main.rs:443-450 | every unmount is attempted, and a failed one is reported |
| Chroot.UmountVirtual | proxmox-chroot/src/main.rs:443-450 | all four unmounts are attempted and exactly the failed ones are reported |
| Chroot.BindUmountAll | proxmox-chroot/src/main.rs:442-463 | every unmount of the plan is attempted whatever the earlier ones did, and exactly the failures are reported |
| Chroot.UmountFailuresReported | proxmox-chroot/src/main.rs:442-463 | an action is reported exactly when it is in the plan and failed |
| Chroot.MountRoot | proxmox-chroot/src/main.rs:173-178 | per file system, the commands run and the result: the pool import for ZFS, the volume group and root volume for XFS and ext4 (nothing without the product name), the given or found UUID for BTRFS; it succeeds exactly when those commands do; no bind mount happens here |
| Chroot.Prepare | proxmox-chroot/src/main.rs:168-186 | file system errors run nothing; /target is created first; it succeeds exactly when the file system is known, /target is created and the root mount succeeds; a failed bind mount does not make prepare fail |
| Chroot.Cleanup | proxmox-chroot/src/main.rs:188-202 | the bind unmounts, then the pool export or the unmount of /target; only a failed unmount of /target is an error |
| CommonOptions.BtrfsMinDisks | proxmox-installer-common/src/options.rs:27-33 | every Btrfs level needs at least one disk |
| CommonOptions.ZfsMinDisks | proxmox-installer-common/src/options.rs:76-85 | every ZFS level needs at least one disk |
| CommonOptions.MinDisksTable | proxmox-installer-common/src/options.rs:27-85 | RAID0 needs 1 disk, RAID1 2, RAID10 4, and RAIDZ 3, one more per further parity level |
| CommonOptions.BtrfsCheckRaidDisksSetup | proxmox-installer-common/src/options.rs:41-44 | a Btrfs setup is accepted exactly when it has the level's minimum number of disks |
| CommonOptions.Abs | proxmox-installer-common/src/options.rs:88 | the absolute value |
| CommonOptions.CheckMirrorSize | proxmox-installer-common/src/options.rs:87-95 | two disks mismatch exactly when their sizes differ by more than a tenth of the first one |
| CommonOptions.CheckMirrorSizeTolerance | proxmox-installer-common/src/options.rs:87-95 | equal sizes pass, and the tolerance is a tenth of the first disk either way |
| CommonOptions.CheckMirrorSizeNotSymmetric | proxmox-installer-common/src/options.rs:87-95 | the check depends on the order: 11.05 against 10 fails, 10 against 11.05 passes |
| CommonOptions.FirstMismatch | proxmox-installer-common/src/options.rs:125-127 | the first disk from a position on whose size does not match the reference, or none when all match |
| CommonOptions.FirstPairMismatch | proxmox-installer-common/src/options.rs:117-119 | the first mirrored pair from a position on whose sizes do not match, or none when all match |
| CommonOptions.ZfsCheckRaidDisksSetup | proxmox-installer-common/src/options.rs:103-132 | the loops of the check give the specified outcome: the count first, then for RAID10 an even count and matching pairs, for the other redundant levels sizes matching the first disk |
| CommonOptions.ZfsRaidCheckSpec | proxmox-installer-common/src/options.rs:103-132 | which setups each ZFS level accepts, and which disks a size mismatch names |
| CommonOptions.ZfsRaid10PairsOnly | proxmox-installer-common/src/options.rs:108-120 | RAID10 compares only partners, so pairs of very different sizes pass where RAIDZ fails |
| CommonOptions.RaidChecksOnSameSizeDisks | proxmox-installer-common/src/options.rs:710-760 | no disks and one disk fewer than the minimum fail, and the minimum number of equally sized disks passes, for every level |
| CommonOptions.FsMinDisks | proxmox-installer-common/src/options.rs:155-162 | ext4 and xfs need one disk, the others their RAID level's minimum |
| CommonOptions.FsTypeFromStr | proxmox-installer-common/src/options.rs:197-216 | an unknown name is an error carrying the text |
| CommonOptions.FsTypeFromSerialize | proxmox-installer-common/src/options.rs:177-216 | parsing the serialised name gives the file system back |
| CommonOptions.FsTypeSerializeFromStr | proxmox-installer-common/src/options.rs:177-216 | every accepted name is the serialised name of what it parses to |
| CommonOptions.FsTypeFromStrAccepts | proxmox-installer-common/src/options.rs:197-216 | the accepted names are exactly the serialised names |
| CommonOptions.FsTypeSerializeInjective | proxmox-installer-common/src/options.rs:177-195 | different file systems have different serialised names |
| CommonOptions.IfnameError | proxmox-installer-common/src/options.rs:507-535 | a name fails exactly when it is not a valid interface name, and the first failing check is reported |
| CommonOptions.PinningLoopStep | proxmox-installer-common/src/options.rs:537-543 | visiting one more MAC address with a valid, untaken name keeps the reverse map correct |
| CommonOptions.PinningLoopDone | proxmox-installer-common/src/options.rs:504-547 | after all MAC addresses every name is valid and no two addresses share one |
| CommonOptions.VerifyPinning | proxmox-installer-common/src/options.rs:504-547 | accepts exactly valid and distinct names, and an error names a real defect of the mapping |
| CommonOptions.PinningEmptyAndLongNames | proxmox-installer-common/src/options.rs:935-965 | an empty name and an over-long name give their errors |
| CommonOptions.PinningInvalidCharacters | proxmox-installer-common/src/options.rs:987-1001 | a name with a hyphen is rejected for its characters |
| CommonOptions.PinningLeadingDigit | proxmox-installer-common/src/options.rs:1002-1016 | a name starting with a digit is rejected |
| CommonOptions.PinningFullyNumeric | proxmox-installer-common/src/options.rs:1017-1031 | a fully numeric name is rejected as such |
| CommonOptions.AsciiByteLen | proxmox-installer-common/src/options.rs:511 | an ASCII text has one byte per character |
| CommonOptions.PinningDuplicateCase | proxmox-installer-common/src/options.rs:966-986 | two MAC addresses mapped to nic0 are reported as a duplicate naming both |
| CommonOptions.ConstructFqdn | proxmox-installer-common/src/options.rs:647-671 | the result is always a valid FQDN |
| CommonOptions.FqdnDomainChoice | proxmox-installer-common/src/options.rs:654-663 | the caller's domain, else the DHCP domain, else example.invalid |
| CommonOptions.SplitHostDomain | proxmox-installer-common/src/options.rs:665 | splitting host.domain at the dots gives the host and then the domain's labels |
| CommonOptions.ConstructFqdnChoice | proxmox-installer-common/src/options.rs:652-670 | the network host name wins over the product default, the chosen domain is used when the name is valid, and otherwise the default host in example.invalid |
| CommonOptions.LvmDefaultsFrom | proxmox-installer-common/src/options.rs:229-239 | the whole disk, with no size limits |
| CommonOptions.Range | proxmox-installer-common/src/options.rs:283 | the positions 0 to n-1 in order |
| CommonOptions.BtrfsDefaultsFrom | proxmox-installer-common/src/options.rs:277-287 | the first disk's size, compression off, every disk selected |
| CommonOptions.ZfsDefaultsFrom | proxmox-installer-common/src/options.rs:348-362 | ashift 12, one copy, compression and checksums on, the runtime ARC maximum, the first disk's size, every disk selected |
| CommonOptions.BootdiskDefaultsFrom | proxmox-installer-common/src/options.rs:433-440 | ext4 on LVM over the given disk with its defaults |
| CommonOptions.TimezoneDefaultsFrom | proxmox-installer-common/src/options.rs:450-479 | the detected country or at; its first zone or UTC; its keyboard map or en-us |
| CommonOptions.TimezoneDefaultIsKnown | proxmox-installer-common/src/options.rs:454-459 | the default zone is always one the locale tables list, or UTC |
| CommonOptions.EmailValidate | proxmox-installer-common/src/options.rs:681-694 | accepts exactly an address matching the pattern that is not the placeholder, reporting a non-matching address first |
| CommonSetup.DefaultHostnameFqdn | proxmox-installer-common/src/setup.rs:28-36 | the default host names are pve, pmg and pbs, distinct, and each one in example.invalid parses as an FQDN with that host |
| CommonSetup.HostInDefaultDomain | proxmox-installer-common/src/options.rs:665-670 | any non-numeric label in example.invalid parses as an FQDN with that host and domain |
| CommonSetup.RenderState | proxmox-installer-common/src/setup.rs:339-348 | one character, a filled circle exactly for an interface that is up |
| CommonSetup.RenderInterface | proxmox-installer-common/src/setup.rs:365-370 | the state marker, a space, then the name |
| CommonSetup.DeserializeBoolFromInt | proxmox-installer-common/src/setup.rs:175-181 | accepts exactly a u32 value and gives true unless it is zero |
| CommonSetup.KeysInSomeOrder | proxmox-installer-common/src/setup.rs:193 | the keys of the map, each exactly once, in some order |
| CommonSetup.DeserializeCczonesMap | proxmox-installer-common/src/setup.rs:183-197 | every country code is kept and its zone list holds each key of its inner map exactly once |
| CommonSetup.DeserializeDisk | proxmox-installer-common/src/setup.rs:208-217 | the index as decimal text, the device path and block size kept, no model for an empty one, and the size converted from 512-byte sectors to GiB |
| CommonSetup.DeserializeDisksMap | proxmox-installer-common/src/setup.rs:199-220 | one disk per entry, in order |
| CommonSetup.DeserializeCidrList | proxmox-installer-common/src/setup.rs:222-249 | every entry becomes a valid address in order, or the error of the first entry that does not parse or whose prefix is too long |
| CommonSetup.SelectionStep | proxmox-installer-common/src/options.rs:414-431 | swapping a smallest remaining disk into place extends the sorted prefix and keeps the disks |
| CommonSetup.SortDisks | proxmox-installer-common/src/setup.rs:137 | the disks end sorted by index text and are a permutation of the input |
| CommonSetup.MinIndexFrom | proxmox-installer-common/src/options.rs:414-431 | the position of a disk with the smallest index text from a position on |
| CommonSetup.FinishInstallerSetup | proxmox-installer-common/src/setup.rs:137-142 | an empty disk list is the no-supported-disks error; otherwise the same runtime information with its disks sorted by index and permuted |
| CommonSetup.InstallZfsOptionFrom | proxmox-installer-common/src/setup.rs:156-166 | ashift, compression, checksum, copies and ARC maximum are passed on unchanged |
| CommonUtils.MaskLimit | proxmox-installer-common/src/utils.rs:105-111 | 32 bits for IPv4 and 128 for IPv6 |
| CommonUtils.NewCidr | proxmox-installer-common/src/utils.rs:46-54 | accepts exactly a mask up to the family limit, keeps address and mask, and otherwise fails with InvalidMask(None) |
| CommonUtils.ParseCidr | proxmox-installer-common/src/utils.rs:80-96 | no slash is exactly the no-delimiter error; an accepted text splits at its first slash and gives a valid address; an unparsable address part is exactly `InvalidAddr`, an unparsable mask `InvalidMask` with its cause, and a mask above the family limit exactly `InvalidMask(None)` |
| CommonUtils.ParseCidrMaskTooLong | proxmox-installer-common/src/utils.rs:91-92 | a numeric mask above the family limit is InvalidMask(None) |
| CommonUtils.ParseShowCidr | proxmox-installer-common/src/utils.rs:80-103 | displaying a valid address with `ShowCidr` and parsing the text gives it back |
| CommonUtils.ValidateSingleIsLabel | proxmox-installer-common/src/utils.rs:182-199 | in `ValidateSingle`, counting bytes rather than characters does not change which labels pass: exactly non-empty, alphanumeric at both ends, alphanumeric or hyphen between |
| CommonUtils.FirstInvalidPart | proxmox-installer-common/src/utils.rs:147-151 | the first part in order that does not validate, or none when all do |
| CommonUtils.ParseFqdnSpec | proxmox-installer-common/src/utils.rs:141-161 | `ParseFqdn` accepts exactly two or more well-formed labels with a host not all digits; a bad label is reported before too few labels |
| CommonUtils.ParseFqdnValid | proxmox-installer-common/src/utils.rs:141-161 | a parsed FQDN is valid |
| CommonUtils.ParseFqdnFirstInvalid | proxmox-installer-common/src/utils.rs:147-151 | the reported invalid part is the first malformed label |
| CommonUtils.ParseFqdnDisplay | proxmox-installer-common/src/utils.rs:141-214 | displaying a parsed FQDN gives back the text it was parsed from |
| CommonUtils.ParseFqdnHostDomain | proxmox-installer-common/src/utils.rs:163-180 | the host is the first label, the domain joins the others, and host.domain is the text parsed |
| CommonUtils.FqdnRoundTrip | proxmox-installer-common/src/utils.rs:141-214 | a valid FQDN survives display and parsing unchanged |
| DiskChecks.CheckForDuplicateDisks | proxmox-installer-common/src/disk_checks.rs:13-23 | accepts exactly disks with distinct indices, and otherwise returns the first disk whose index occurred before |
| DiskChecks.CheckRaidMinDisks | proxmox-installer-common/src/disk_checks.rs:31-37 | fails, naming the minimum, exactly when fewer disks are given |
| DiskChecks.CheckDisks4knLegacyBoot | proxmox-installer-common/src/disk_checks.rs:46-52 | fails exactly in legacy BIOS mode with some 4096-byte-sector disk |
| DiskChecks.Any4kn | proxmox-installer-common/src/disk_checks.rs:47 | whether some disk has 4096-byte sectors |
| DiskChecks.CheckSwapsize | proxmox-installer-common/src/disk_checks.rs:60-67 | the swap may take at most half the disk, and the error names the size and the larger-than threshold |
| DiskChecks.CheckLvmBootdiskOpts | proxmox-installer-common/src/disk_checks.rs:75-81 | only a given swap size is checked, and it passes exactly when at most half the total size |
| DiskChecks.DummyDisk | proxmox-installer-common/src/disk_checks.rs:87-89 | the test disk with a given index as decimal text |
| DiskChecks.DuplicateDisksExample | proxmox-installer-common/src/disk_checks.rs:92-104 | in dummies 0, 1, 2, 2, 3 the second 2 is the first repeated index |
| HttpFetch.StripDhcpValue | proxmox-fetch-answer/src/fetch_plugins/http.rs:241-244 | the text between the first byte and the last two bytes; values shorter than three bytes, or bounds inside a character, panic |
| HttpFetch.StripDhcpOption | proxmox-fetch-answer/src/fetch_plugins/http.rs:241-244 | an absent value stays absent and a present one stays present unless it panics |
| HttpFetch.StripQuoted | proxmox-fetch-answer/src/fetch_plugins/http.rs:242-243 | a quoted value followed by a semicolon gives back the value |
| HttpFetch.FirstOption | proxmox-fetch-answer/src/fetch_plugins/http.rs:216-223 | the stripped value of the first line with the property, absent exactly when no line has it |
| HttpFetch.FirstOptionStep | proxmox-fetch-answer/src/fetch_plugins/http.rs:216-223 | one more line is taken only when it is the first with the property |
| HttpFetch.FirstOptionFinal | proxmox-fetch-answer/src/fetch_plugins/http.rs:217-220 | once a line with the property was seen, later lines do not change the value |
| HttpFetch.FetchDhcp | proxmox-fetch-answer/src/fetch_plugins/http.rs:207-238 | the lease file's lines give the DHCP outcome of the specification |
| HttpFetch.ScanLeases | proxmox-fetch-answer/src/fetch_plugins/http.rs:216-231 | the loop keeps the first URL and, while none is known, the first fingerprint, giving the specified scan |
| HttpFetch.DhcpScanSpec | proxmox-fetch-answer/src/fetch_plugins/http.rs:216-237 | in `DhcpScan`, the URL comes from the first URL-option line; a supplied fingerprint is kept, otherwise the first fingerprint line's, absent when there is none; no URL line is an error |
| HttpFetch.UrlLineOf | proxmox-fetch-answer/src/fetch_plugins/http.rs:213-217 | the URL option followed by a value is a URL line |
| HttpFetch.UrlMatchHasNoBreak | proxmox-fetch-answer/src/fetch_plugins/http.rs:213 | the option prefix holds no line break |
| HttpFetch.DhcpOneLine | proxmox-fetch-answer/src/fetch_plugins/http.rs:207-238 | a lease file of one URL line gives its value, and a supplied fingerprint is kept |
| HttpFetch.DhcpExample | proxmox-fetch-answer/src/fetch_plugins/http.rs:207-243 | a URL option line with a quoted value gives the value |
| HttpFetch.GetSearchDomain | proxmox-fetch-answer/src/fetch_plugins/http.rs:139-149 | the loop gives the trimmed rest of the first search line, or the no-search-domain error |
| HttpFetch.SearchDomainSpec | proxmox-fetch-answer/src/fetch_plugins/http.rs:141-148 | in `SearchDomainOf`, the domain comes from a search line with none before it; no search line is exactly the error |
| HttpFetch.SearchLineExample | proxmox-fetch-answer/src/fetch_plugins/http.rs:142-144 | search followed by domains is a search line whose value is the trimmed rest |
| HttpFetch.TxtRecord | proxmox-fetch-answer/src/fetch_plugins/http.rs:152-180 | an accepted record is non-empty, holds no double quote and is trimmed |
| HttpFetch.RemoveClosingQuote | proxmox-fetch-answer/src/fetch_plugins/http.rs:163 | removing quotes from quote-free text with a closing quote and line break leaves the text and the break |
| HttpFetch.RemoveQuotes | proxmox-fetch-answer/src/fetch_plugins/http.rs:163 | removing quotes from a quoted line leaves the text and the line break |
| HttpFetch.TxtRecordQuoted | proxmox-fetch-answer/src/fetch_plugins/http.rs:160-168 | a quoted record on its own line gives back the text |
| HttpFetch.FetchDns | proxmox-fetch-answer/src/fetch_plugins/http.rs:183-204 | a search-domain or answer-URL lookup failure is that error, and otherwise it succeeds; the URL is the TXT record of the answer subdomain of the search domain; a supplied fingerprint is kept, else it is the fingerprint subdomain's TXT record, or absent when that query fails |
| HttpFetch.AnswerSource | proxmox-fetch-answer/src/fetch_plugins/http.rs:102-123 | the ISO's URL wins; otherwise the DHCP outcome, and DNS when DHCP fails without panicking; the ISO's fingerprint is never replaced |
| PostHook.KernelPackageSpec | proxmox-post-hook/src/main.rs:526-537 | `KernelPackage` finds a package exactly when some listing line has status `ii` and the printed architecture (both trimmed); it is the trimmed third field of the first such line |
| PostHook.FindKernelPackageName | proxmox-post-hook/src/main.rs:510-538 | the architecture is the trimmed `dpkg` output; the result is the first installed package for it, or the "failed to find installed kernel package" error when there is none |
| PostHook.ThreeFields | proxmox-post-hook/src/main.rs:529-531 | a line of three `\|`-free fields joined by `\|` splits back into exactly those three fields |
| PostHook.PackageLineFields | proxmox-post-hook/src/main.rs:531-534 | a three-field line counts as installed for an architecture exactly when its trimmed status is `ii` and its trimmed architecture matches; the package is the trimmed third field |
| PostHook.TestArchAllLine | proxmox-post-hook/src/main.rs:678 | the test line `ii \|all\|…` is not installed for any architecture other than `all` |
| PostHook.TestUnpackedLine | proxmox-post-hook/src/main.rs:679 | the test line `un \|\|…` is installed for no architecture |
| PostHook.TestAmd64Line | proxmox-post-hook/src/main.rs:680 | the test line `ii \|amd64\|…` is installed for amd64 and names its trimmed package |
| PostHook.TestAmd64LineOnly | proxmox-post-hook/src/main.rs:697-711 | the amd64 line is installed for no other architecture, such as arm64 |
| PostHook.TestBarlessLine | proxmox-post-hook/src/main.rs:681 | a line without `\|`, such as the blank end of the listing, is installed for nothing |
| PostHook.KernelPackageTests | proxmox-post-hook/src/main.rs:661-755 | for any package names: amd64 finds the third line's package, arm64 finds nothing, and amd64 without the third line finds nothing |
| PostHook.ThirdOfFour | proxmox-post-hook/src/main.rs:686-689 | when the third of four lines is the first installed one, its package is the result |
| PostHook.NoneOfFour | proxmox-post-hook/src/main.rs:717-722 | four lines none of which is installed give no package |
| PostHook.NoneOfThree | proxmox-post-hook/src/main.rs:749-754 | three lines none of which is installed give no package |
| PostHook.FindKernelImagePath | proxmox-post-hook/src/main.rs:492-503 | the result is the first listed file of the found package that starts with `/boot/vmlinuz-`; the package error is passed on, and a listing without an image is the "failed to find installed kernel image path" error |
| PostHook.FirstKernelImage | proxmox-post-hook/src/main.rs:496-502 | the loop over the listing returns the first line starting with `/boot/vmlinuz-`, or the error when no line does |
| PostHook.KernelImageTest | proxmox-post-hook/src/main.rs:788-816 | the test listing yields `/boot/vmlinuz-6.8.8-2-pve`, whatever lines follow it |
| PostHook.ReadExactAt | proxmox-post-hook/src/main.rs:442-454 | a read succeeds exactly when `offset + len` is within the image, and then gives `len` bytes |
| PostHook.VersionOffset | proxmox-post-hook/src/main.rs:447 | the offset is a 16-bit value; it is the little-endian field plus 0x200 whenever that sum fits in 16 bits |
| PostHook.UntilNul | proxmox-post-hook/src/main.rs:458 | the text is missing exactly when the buffer has no NUL; otherwise it is the NUL-free prefix of the buffer before its first NUL |
| PostHook.SplitKernelVersion | proxmox-post-hook/src/main.rs:467-471 | a split puts the string back together as release, space, build, space, rest, with no space in the first two parts |
| PostHook.SplitKernelVersionFewSpaces | proxmox-post-hook/src/main.rs:469-471 | a string with fewer than two spaces does not split into three parts |
| PostHook.KernelVersion | proxmox-post-hook/src/main.rs:433-483 | a successful result has machine `x86_64`, system name `Linux` and a release without spaces |
| PostHook.VersionOfBuffer | proxmox-post-hook/src/main.rs:456-482 | the same holds for the version read from the 256-byte buffer |
| PostHook.KernelVersionOfImage | proxmox-post-hook/src/main.rs:433-483 | an image whose header field points at NUL-terminated decodable text `release build version` reports exactly that release and version |
| PostHook.VersionOfBufferWith | proxmox-post-hook/src/main.rs:456-482 | a buffer holding such text and then a NUL reports that release and version |
| PostHook.UntilNulOf | proxmox-post-hook/src/main.rs:458 | a buffer holding NUL-free text and then a NUL yields exactly that text |
| PostHook.FieldNamed | proxmox-post-hook/src/main.rs:564-580 | each of the five keys `processor`, `core id`, `physical id`, `flags` and `model name` selects its own field, and nothing else selects it |
| PostHook.ValuesSpec | proxmox-post-hook/src/main.rs:568-573 | a value is among the collected values of a field exactly when some line of that field carries it |
| PostHook.ValuesAtMostCount | proxmox-post-hook/src/main.rs:568-573 | there are no more distinct values of a field than lines of that field |
| PostHook.LastValueSpec | proxmox-post-hook/src/main.rs:574-579 | the text kept for a field is empty when no line is of that field, and otherwise the trimmed value of the last line of that field |
| PostHook.TallyCpus | proxmox-post-hook/src/main.rs:565-567 | the CPU count after the loop is the number of `processor` lines |
| PostHook.TallyCores | proxmox-post-hook/src/main.rs:568-570 | the core set after the loop holds exactly the `core id` values |
| PostHook.TallySockets | proxmox-post-hook/src/main.rs:571-573 | the socket set after the loop holds exactly the `physical id` values |
| PostHook.TallyLineText | proxmox-post-hook/src/main.rs:574-579 | a line changes `flags` or `model` only when it is of that field, and then sets the trimmed value |
| PostHook.LastValueOfStep | proxmox-post-hook/src/main.rs:574-579 | the last value after one more line is that line's trimmed value when it is of the field, and unchanged otherwise |
| PostHook.TallyFlags | proxmox-post-hook/src/main.rs:574-576 | `flags` after the loop is the trimmed value of the last `flags` line |
| PostHook.TallyModel | proxmox-post-hook/src/main.rs:577-579 | `model` after the loop is the trimmed value of the last `model name` line |
| PostHook.GatherCpuInfo | proxmox-post-hook/src/main.rs:546-585 | the CPU count, the numbers of distinct core and socket ids, the last flags and model name, and the runtime's hvm flag |
| PostHook.ByteSize | proxmox-post-hook/src/main.rs:310 | the size is below the `usize` limit and, when the byte count of `hdsize` GiB is in range, is that count rounded toward zero |
| PostHook.IsBootdisk | proxmox-post-hook/src/main.rs:304-327 | the flag is absent or true; on LVM it is set exactly for the disk whose path is `target_hd`, otherwise exactly for the disks whose index is a value of the disk selection |
| PostHook.GatherDisksAsWritten | proxmox-post-hook/src/main.rs:283-339 | the disk list as written has no more entries than there are disks |
| PostHook.GatherDisks | proxmox-post-hook/src/main.rs:283-339 | a successful result has one entry per disk |
| PostHook.GatherDisksErrors | proxmox-post-hook/src/main.rs:288-295 | the result is an error exactly when some disk has no udev data, and the error names the first such disk |
| PostHook.GatherDisksEntries | proxmox-post-hook/src/main.rs:303-334 | entry i describes disk i: the configured size in bytes, its boot-disk flag and its own udev data |
| PostHook.GatherDisksAsWrittenAgrees | proxmox-post-hook/src/main.rs:283-339 | when every disk has udev data, the list as written is the corrected result |
| PostHook.GatherDisksDropsUnknown | proxmox-post-hook/src/main.rs:303-314 | a disk without udev data is silently left out of the list as written, where the corrected version reports the error |
| PostHook.NicInfoOf | proxmox-post-hook/src/main.rs:369-384 | the entry keeps the MAC and udev data; only the management interface gets the management flag and the configured address |
| PostHook.GatherNicsAsWritten | proxmox-post-hook/src/main.rs:349-386 | the interface list as written has no more entries than there are interfaces |
| PostHook.GatherNics | proxmox-post-hook/src/main.rs:349-386 | a successful result has one entry per interface |
| PostHook.GatherNicsErrors | proxmox-post-hook/src/main.rs:359-366 | the result is an error exactly when some interface has no udev data, and the error names the first such interface |
| PostHook.GatherNicsEntries | proxmox-post-hook/src/main.rs:358-385 | entry i describes interface i; only the management interface is flagged and carries the address |
| PostHook.GatherNicsAsWrittenAgrees | proxmox-post-hook/src/main.rs:349-386 | when every interface has udev data, the list as written is the corrected result |
| PostHook.GatherNicsDropsUnknown | proxmox-post-hook/src/main.rs:358-366 | an interface without udev data is silently left out of the list as written, where the corrected version reports the error |
| TabbedViews.NextTab | proxmox-tui-installer/src/views/tabbed_view.rs:130-133 | Right moves to the next tab and wraps round from the last tab to the first, always staying among the tabs |
| TabbedViews.PrevTab | proxmox-tui-installer/src/views/tabbed_view.rs:134-141 | Left moves to the previous tab and wraps round from the first tab to the last |
| TabbedViews.PrevAfterNext | proxmox-tui-installer/src/views/tabbed_view.rs:130-141 | Right then Left returns to the tab one started from |
| TabbedViews.NextAfterPrev | proxmox-tui-installer/src/views/tabbed_view.rs:130-141 | Left then Right returns to the tab one started from |
| TabbedViews.TabbedView.constructor | proxmox-tui-installer/src/views/tabbed_view.rs:23-29 | a new view has no tabs, the first tab active and the focus off the tab bar |
| TabbedViews.TabbedView.Tab | proxmox-tui-installer/src/views/tabbed_view.rs:34-41 | an empty name panics and leaves the tabs alone; any other name appends the tab at the end; the active tab and the focus stay the same |
| TabbedViews.TabbedView.Get | proxmox-tui-installer/src/views/tabbed_view.rs:44-51 | a view is returned exactly for an index below the number of tabs, and it is that tab's view |
| TabbedViews.TabbedView.OnEvent | proxmox-tui-installer/src/views/tabbed_view.rs:128-176 | with the bar focused, Left and Right switch tabs with wrap-round (panicking without tabs), Down hands the focus to the active tab, Up is ignored and losing the focus clears it; without the bar focused, Up goes to the tab first and moves the focus to the bar only when the tab ignores it, and every other event goes to the active tab |
| TabbedViews.TabbedView.TakeFocus | proxmox-tui-installer/src/views/tabbed_view.rs:192-195 | the bar takes the focus exactly when it is entered from above; the request is always consumed |
| TuiOptions.FsTypesComplete | proxmox-tui-installer/src/options.rs:11-26 | every file system and RAID level is among the offered choices |
| TuiOptions.FsTypesDistinct | proxmox-tui-installer/src/options.rs:11-26 | the eleven choices are pairwise different |
| TuiOptions.DefaultPasswordOptions | proxmox-tui-installer/src/options.rs:34-41 | the default is the placeholder e-mail address, which fails validation, and an empty password, shorter than the minimum length |
| TuiOptions.KeyboardLayoutName | proxmox-tui-installer/src/options.rs:54-58 | a known layout is shown by its name, an unknown one by its raw key |
| TuiOptions.DiskPaths | proxmox-tui-installer/src/options.rs:64-67 | one path per disk, in the order of the disks |
| TuiOptions.ToSummary | proxmox-tui-installer/src/options.rs:53-80 | the summary has one row for each of the ten row names, in order |
| TuiOptions.SummaryShape | proxmox-tui-installer/src/options.rs:60-79 | ten rows, from "Bootdisk filesystem" to "DNS" |
| TuiOptions.SummaryKeyboard | proxmox-tui-installer/src/options.rs:54-72 | the keyboard row shows the name of a known layout and an unknown layout key unchanged |
| TuiOptions.SummaryNetwork | proxmox-tui-installer/src/options.rs:74-78 | the interface, the dotted FQDN, `addr/mask`, the gateway and the DNS server appear in their display forms |
| TuiOptions.PadTail | proxmox-tui-installer/src/options.rs:69 | padding keeps the number of parts |
| TuiOptions.JoinPrefixHead | proxmox-tui-installer/src/options.rs:69 | putting text before the first part is putting it before the joined text |
| TuiOptions.JoinPadded | proxmox-tui-installer/src/options.rs:69 | joining with a comma and a space is joining with a comma the parts after the first prefixed by a space |
| TuiOptions.SummaryDisks | proxmox-tui-installer/src/options.rs:62-70 | when no disk path holds a comma, splitting the disk row at its commas gives back the first path and each further path behind one space |
| TuiSetup.InstallBtrfsOptionFrom | proxmox-tui-installer/src/setup.rs:72 | the installer's Btrfs options carry the chosen compression |
| TuiSetup.DiskSelectionKeys | proxmox-tui-installer/src/setup.rs:64-78 | every key of the disk selection is the canonical decimal text of a disk position |
| TuiSetup.DiskSelectionSize | proxmox-tui-installer/src/setup.rs:64-78 | the selection has exactly one entry per disk |
| TuiSetup.DiskSelectionValues | proxmox-tui-installer/src/setup.rs:64-78 | the decimal text of each disk position maps to that disk's udev index |
| TuiSetup.SelectDisks | proxmox-tui-installer/src/setup.rs:64-68 | the loop builds the selection of the disks given |
| TuiSetup.InstallConfigFrom | proxmox-tui-installer/src/setup.rs:9-84 | an FQDN without a host part panics, as does LVM without a disk; otherwise every field is copied from the options, and LVM sets the first disk as target and its size limits, while ZFS and Btrfs set their options and the position-to-index selection |
| TuiSetup.SelectionCoversDisks | proxmox-tui-installer/src/setup.rs:60-79 | for ZFS and Btrfs, the config lists every chosen disk under its position, so it sees exactly as many disks |
| TuiSetup.HostAndDomain | proxmox-tui-installer/src/setup.rs:42-43 | the config's host name and domain put the FQDN back together |
| TuiUtils.MaskLimit | proxmox-tui-installer/src/utils.rs:69-75 | the limit is 32 bits for IPv4 and 128 bits for IPv6 |
| TuiUtils.FromStr | proxmox-tui-installer/src/utils.rs:44-60 | a missing `/` is exactly the no-delimiter error, and every parsed address has a mask within its family's limit |
| TuiUtils.NewSpec | proxmox-tui-installer/src/utils.rs:22-38 | `New` (`new`) succeeds exactly for masks up to 32 (IPv4) or 128 (IPv6), the accessors give back what was passed in, and anything longer is `InvalidMask(None)` |
| TuiUtils.ToCommon | proxmox-tui-installer/src/utils.rs:15-19 | the common crate's address holds the same address and mask |
| TuiUtils.FromStrAgrees | proxmox-tui-installer/src/utils.rs:44-60 | the TUI parser accepts and rejects exactly what the common crate's parser does, with the same errors |
| TuiUtils.NewAgrees | proxmox-tui-installer/src/utils.rs:22-30 | the TUI constructor agrees with the common crate's |
| TuiUtils.ShowFromStr | proxmox-tui-installer/src/utils.rs:44-67 | parsing the `Show` form of a valid address gives the address back |
| TuiUtils.FromStrMaskTooLong | proxmox-tui-installer/src/utils.rs:55-56 | a mask longer than the family limit is rejected as `InvalidMask(None)` |
| AutoinstHelper.Info | proxmox-autoinst-helper/src/main.rs:130-150 | NICs are read for `Network` and `All`, disks for `Disk` and `All`; the NIC error comes first, then the disk error; on success each section is filled exactly when it was asked for |
| AutoinstHelper.InfoSections | proxmox-autoinst-helper/src/main.rs:136-142 | `All` fills both sections, `Network` only the NICs and `Disk` only the disks |

## Left out

- Running commands, and reading files, udev and `/sys`, is not modelled. This covers `dpkg`, `zpool`, `btrfs`, `mount`, `dig`, `xorriso` and `udevadm`. Their output, or the outcome of running them, is a parameter.
- UTF-8 decoding is not modelled. It is a parameter wherever the source decodes bytes, such as the kernel version string; command output is taken as text.
- The HTTP POST of the answer request, TLS and the certificate-fingerprint check are not modelled. The write of the fingerprint to a file is also left out. The model stops at the URL and fingerprint that the request would use.
- Logging, `println!`/`eprintln!` output and the process exit codes are not modelled.
- Decoding of JSON and TOML is not modelled. Each record and deserialiser starts from the value already decoded.
- Regular expressions, `glob::Pattern`, the e-mail pattern and `char::is_numeric` are not modelled; they are library code, passed in as functions. The BTRFS UUID regex is the exception: it is modelled as the fixed-shape line match it accepts.
- `NetworkOptions::defaults_from` is a parameter of the auto-installer, in `Libraries.networkDefaults`. It depends on the runtime network data and DNS settings, which are inputs of the installer.
- `HashMap` iteration order is not modelled. Where the order can show in a result, the model allows any order or proves the result does not depend on it.
- PostHook.ByteSize: `hdsize` is a real number rather than an IEEE `f64`, so the product with `SIZE_GIB` is exact before it is truncated.
- `VersionOffset` applies the 16-bit wrap-around of a release build. An overflowing header field panics in a debug build instead, and that panic is not modelled.
- Drawing, layout, colours and the child views of `TabbedView` are not modelled. The active child's answers to events are parameters of `OnEvent`.
- `TabbedViews.TabbedView.OnEvent` models the division by zero (Right with no tabs) and the subtraction underflow (Left with no tabs) as a panic. The release-build wrap of `0 - 1` is not modelled. `OnEvent` requires `Valid()`, which the constructor, `Tab` and `OnEvent` keep: with no tabs the index is 0, so the state with no tabs and a non-zero index is never reached.
- The TUI's `InstallBtrfsOption` conversion is not part of this model's source files. `TuiSetup.InstallBtrfsOptionFrom` carries over only the compression, the one field the type holds here.
- `CommonUtils.ParseCidr` and `TuiUtils.FromStr` report `InvalidAddr` without the underlying `AddrParseError`, because `IpAddr` parsing is a parameter that returns an `Option`.
- `verify_network_settings` also warns when a pinned MAC is unknown. That warning is logging only and is not modelled.
- `get_nics` of the assistant and the helper reads the kernel's network interfaces. It is a parameter, like `get_disks` in the helper.
- The payload schema of the post-installation report, and the JSON it serialises to, are not modelled. The model states what the report's disk, NIC, CPU and kernel entries contain.
- `with_chroot` and `do_main` of the post-hook only sequence commands and are not modelled.
- AutoUtils.ApplyFsOptions / ParseAnswer / BuildConfig: the ZFS and Btrfs size default uses `FirstSelectedDisk`, the disk with the smallest selected index. The code as written indexes the disk list by the parsed key (see the first finding), and that behaviour is modelled only by `FirstSelectedDiskAsWritten`.
- Chroot.MountRoot / Prepare: the ZFS import uses `ZpoolImport`, which fails when `zpool` cannot be started. The code as written takes that case as success (see the last finding), which only `ZpoolImportAsWritten` models.
- AutoUtils.SetSingleDisk / SetDisks / GetNetworkSettings / BuildConfig / ParseAnswer / Assistant.MatchFilter: when some filter glob is invalid, whether the search reaches it before a match depends on the key order; the contracts (for MatchFilter and GetNetworkSettings, of a network match; for SetDisks, BuildConfig and ParseAnswer, of an ext4 or xfs target or the management interface) then say only that a success is the first match and an invalid-glob error means some glob is invalid, and the success iffs are stated where every glob of that filter compiles.
- AutoUtils.ParseAnswer: past the network step, the order of the errors is stated where that step is sure to succeed (the globs of a manual filter compile and `NetworkAvailable` holds); with an invalid glob the later errors are only known to be among the possible ones.

## Findings

| source | as written | input that shows it | evidently intended | confidence | as-written member | corrected member |
|---|---|---|---|---|---|---|
| proxmox-auto-installer/src/utils.rs:323-332 | the smallest selection key is parsed as a position and used to index a disk list sorted by index text | eleven disks with indexes "0" to "10" and selection key "2": the text order puts "10" at position 2, so disk "10" is used | the selected disk itself, looked up by its index | high, not executed | AutoUtils.FirstSelectedDiskAsWritten (with AutoUtils.FirstSelectedDiskMismatch) | AutoUtils.FirstSelectedDisk |
| proxmox-post-hook/src/main.rs:283-339 | `flat_map` over the `Result` each disk yields, so a disk without udev data is silently dropped | one disk whose index has no udev entry: the list is empty | the "could not find udev information" error the closure builds | high, not executed | PostHook.GatherDisksAsWritten (with PostHook.GatherDisksDropsUnknown) | PostHook.GatherDisks (with PostHook.GatherDisksErrors) |
| proxmox-post-hook/src/main.rs:349-386 | the same `flat_map` over `Result` for the interfaces | one interface whose name has no udev entry: the list is empty | the "could not find udev information for NIC" error | high, not executed | PostHook.GatherNicsAsWritten (with PostHook.GatherNicsDropsUnknown) | PostHook.GatherNics (with PostHook.GatherNicsErrors) |
| proxmox-chroot/src/main.rs:247-250 | only a non-zero exit status of `zpool import` is an error; a command that could not be started is ignored | `zpool` cannot be spawned: the import reports success | failing when the import could not be run | medium, not executed | Chroot.ZpoolImportAsWritten (with Chroot.ZpoolImportNotStarted) | Chroot.ZpoolImport (with Chroot.ZpoolImportAgrees) |
