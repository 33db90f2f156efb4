/**
 * `proxmox-auto-installer/src/utils.rs`: matching answer-file filters
 * against udev properties, resolving the selected disks, the `verify_*`
 * rules, and the assembly of the `InstallConfig` from an answer.
 *
 * `glob::Pattern` is visible to the model as the two functions of `Glob`;
 * the HTML e-mail pattern, `char::is_numeric` and `NetworkOptions::defaults_from`
 * are parameters as well (`Libraries`).
 */
module AutoUtils {
  import opened Wrappers
  import opened Text
  import opened Ordered
  import opened OptionTypes
  import opened CommonUtils
  import opened CommonSetup
  import opened DiskChecks
  import opened CommonOptions
  import opened Answer

  /** udev properties per device: `disks` and `nics` are keyed by the device index. */
  datatype UdevInfo = UdevInfo(
    disks: map<string, map<string, string>>,
    nics: map<string, map<string, string>>)

  /** `Pattern::new(p).is_ok()` and `Pattern::new(p).unwrap().matches(v)`. */
  datatype Glob = Glob(valid: string -> bool, matches: (string, string) -> bool)

  /**
   * The library code `parse_answer` relies on: globs, the e-mail pattern,
   * `char::is_numeric`, and `NetworkOptions::defaults_from` for the given
   * default domain and pinning options.
   */
  datatype Libraries = Libraries(
    glob: Glob,
    emailPattern: string -> bool,
    isNumeric: char -> bool,
    networkDefaults: (Option<string>, Option<map<string, string>>) -> NetworkOptions)

  /** The messages of `parse_answer` and its helpers, one constructor per message. */
  datatype AutoError =
    | NoFilter
    | InvalidGlob
    | NoDeviceMatched
    | NoDevicesMatched
    | DiskNotFound
    | NoDisksSelected
    | BtrfsUnsupported
    | InvalidCountry(country: string)
    | InvalidKeyboard(layout: string)
    | InvalidTimezone(timezone: string)
    | InvalidEmail(email: string, emailCause: EmailError)
    | BothPasswords
    | NoPassword
    | PasswordTooShort
    | NotEnoughDisks(fs: string, min: nat)
    | DuplicateDevice(disk: string)
    | SwapTooBig(swapCause: SwapsizeError)
    | FirstBootUrlMissing
    | InvalidPinning(pinningCause: PinningError)
    | NoDhcpHostname
    | NoDomain
    /** Where the source unwraps or indexes out of range and so panics. */
    | Panic(reason: string)

  // ---------------------------------------------------------------------
  // udev filters

  /** Some filter key names a property of `dev` whose value matches the key's glob. */
  predicate MatchesAny(filter: map<string, string>, dev: map<string, string>, glob: Glob)
  {
    exists k :: k in filter && k in dev && glob.matches(filter[k], dev[k])
  }

  /** No filter key names a property of `dev` whose value fails the key's glob. */
  predicate MatchesAll(filter: map<string, string>, dev: map<string, string>, glob: Glob)
  {
    forall k :: k in filter && k in dev ==> glob.matches(filter[k], dev[k])
  }

  predicate AllGlobsValid(filter: map<string, string>, glob: Glob)
  {
    forall k :: k in filter ==> glob.valid(filter[k])
  }

  /** `d` matches the filter and no device before it in key order does. */
  predicate FirstMatching(filter: map<string, string>, udevList: map<string, map<string, string>>, glob: Glob, d: string)
  {
    && d in udevList && MatchesAny(filter, udevList[d], glob)
    && forall e :: e in udevList && LexLt(e, d) ==> !MatchesAny(filter, udevList[e], glob)
  }

  /** At most one device is the first to match. */
  lemma FirstMatchingUnique(filter: map<string, string>, udevList: map<string, map<string, string>>, glob: Glob, d: string, e: string)
    requires FirstMatching(filter, udevList, glob, d) && FirstMatching(filter, udevList, glob, e)
    ensures d == e
  {
    LexLeTotal(d, e);
  }

  /**
   * `get_single_udev_index`: the first device, in key order, with a property
   * matching its filter glob. Globs are compiled as they are reached, so an
   * invalid one is an error only if no earlier key of the first devices
   * matched. The innermost loop of the source searches the device's
   * properties for the filter key; here that search is a map lookup.
   */
  method GetSingleUdevIndex(filter: map<string, string>, udevList: map<string, map<string, string>>, glob: Glob)
    returns (r: Result<string, AutoError>)
    ensures |filter| == 0 <==> r == Err(NoFilter)
    ensures r.Ok? ==> FirstMatching(filter, udevList, glob, r.value)
    ensures r.Err? ==> r.error in {NoFilter, InvalidGlob, NoDeviceMatched}
    ensures r == Err(InvalidGlob) ==> !AllGlobsValid(filter, glob) && |udevList| > 0
    ensures r == Err(NoDeviceMatched) ==> forall d :: d in udevList ==> !MatchesAny(filter, udevList[d], glob)
    ensures AllGlobsValid(filter, glob) && |filter| > 0 ==>
      (r.Ok? <==> exists d :: d in udevList && MatchesAny(filter, udevList[d], glob))
  {
    if |filter| == 0 {
      return Err(NoFilter);
    }
    var devs := SortedKeys(udevList);
    var keys := SortedKeys(filter);
    var i := 0;
    while i < |devs|
      invariant 0 <= i <= |devs|
      invariant forall j :: 0 <= j < i ==> !MatchesAny(filter, udevList[devs[j]], glob)
      invariant i > 0 ==> AllGlobsValid(filter, glob)
    {
      var dev := udevList[devs[i]];
      var k := 0;
      while k < |keys|
        invariant 0 <= k <= |keys|
        invariant forall j :: 0 <= j < k ==> glob.valid(filter[keys[j]])
        invariant forall j :: 0 <= j < k ==> !(keys[j] in dev && glob.matches(filter[keys[j]], dev[keys[j]]))
      {
        var key := keys[k];
        if !glob.valid(filter[key]) {
          return Err(InvalidGlob);
        }
        if key in dev && glob.matches(filter[key], dev[key]) {
          forall e | e in udevList && LexLt(e, devs[i]) ensures !MatchesAny(filter, udevList[e], glob) {
            SortedBelow(devs, i, e);
          }
          return Ok(devs[i]);
        }
        k := k + 1;
      }
      assert !MatchesAny(filter, dev, glob);
      i := i + 1;
    }
    return Err(NoDeviceMatched);
  }

  /** The device-selection rule of `get_matched_udev_indexes`. */
  predicate Selected(filter: map<string, string>, dev: map<string, string>, matchAll: bool, glob: Glob)
  {
    if matchAll then MatchesAll(filter, dev, glob) else MatchesAny(filter, dev, glob)
  }

  /**
   * One pass of `get_matched_udev_indexes` over the filter keys for one
   * device: whether every glob compiles, whether some and whether all of the
   * filtered properties match.
   */
  method MatchFlags(filter: map<string, string>, keys: seq<string>, dev: map<string, string>, glob: Glob)
    returns (valid: bool, once: bool, all: bool)
    requires forall k :: k in filter <==> k in keys
    ensures valid <==> AllGlobsValid(filter, glob)
    ensures valid ==> (once <==> MatchesAny(filter, dev, glob)) && (all <==> MatchesAll(filter, dev, glob))
  {
    once, all := false, true;
    var k := 0;
    while k < |keys|
      invariant 0 <= k <= |keys|
      invariant forall j :: 0 <= j < k ==> glob.valid(filter[keys[j]])
      invariant once <==> exists j :: 0 <= j < k && keys[j] in dev && glob.matches(filter[keys[j]], dev[keys[j]])
      invariant all <==> forall j :: 0 <= j < k && keys[j] in dev ==> glob.matches(filter[keys[j]], dev[keys[j]])
    {
      var key := keys[k];
      if !glob.valid(filter[key]) {
        return false, once, all;
      }
      if key in dev && glob.matches(filter[key], dev[key]) {
        once := true;
      } else if key in dev {
        all := false;
      }
      k := k + 1;
    }
    valid := true;
  }

  /**
   * `get_matched_udev_indexes`: every device all (or any) of whose filtered
   * properties match, in key order. Every glob is compiled for the first
   * device already, so an invalid one is an error whenever there is a device.
   */
  method GetMatchedUdevIndexes(filter: map<string, string>, udevList: map<string, map<string, string>>, matchAll: bool, glob: Glob)
    returns (r: Result<seq<string>, AutoError>)
    ensures r == Err(InvalidGlob) <==> |udevList| > 0 && !AllGlobsValid(filter, glob)
    ensures r.Err? ==> r.error in {InvalidGlob, NoDevicesMatched}
    ensures r.Ok? ==> |r.value| > 0 && StrictlySorted(r.value)
    ensures r.Ok? ==> forall d :: d in r.value <==> d in udevList && Selected(filter, udevList[d], matchAll, glob)
    ensures r == Err(NoDevicesMatched) ==> forall d :: d in udevList ==> !Selected(filter, udevList[d], matchAll, glob)
  {
    var devs := SortedKeys(udevList);
    var keys := SortedKeys(filter);
    var matches: seq<string> := [];
    var i := 0;
    while i < |devs|
      invariant 0 <= i <= |devs|
      invariant i > 0 ==> AllGlobsValid(filter, glob)
      invariant StrictlySorted(matches)
      invariant forall d :: d in matches ==> d in devs[..i]
      invariant forall j :: 0 <= j < i ==> (devs[j] in matches <==> Selected(filter, udevList[devs[j]], matchAll, glob))
    {
      var valid, once, all := MatchFlags(filter, keys, udevList[devs[i]], glob);
      if !valid {
        return Err(InvalidGlob);
      }
      if (matchAll && all) || (!matchAll && once) {
        forall x | x in matches ensures LexLt(x, devs[i]) {
          var j :| 0 <= j < i && devs[..i][j] == x;
        }
        matches := matches + [devs[i]];
      }
      assert devs[..i + 1] == devs[..i] + [devs[i]];
      i := i + 1;
    }
    assert devs[..i] == devs;
    if |matches| == 0 {
      return Err(NoDevicesMatched);
    }
    // `matches.sort()` leaves the already ascending list as it is.
    return Ok(matches);
  }

  // ---------------------------------------------------------------------
  // Resolving disks

  /** The `find` predicates used on the runtime disk list. */
  datatype DiskQuery = PathEndsWith(suffix: string) | IndexIs(index: string) | PathIs(path: string)

  predicate Satisfies(d: Disk, q: DiskQuery)
  {
    match q
    case PathEndsWith(suffix) => EndsWith(d.path, suffix)
    case IndexIs(index) => d.index == index
    case PathIs(path) => d.path == path
  }

  /** `disks.iter().find(..)`, as a position: the first disk from `from` on that satisfies `q`. */
  function FindDisk(disks: seq<Disk>, q: DiskQuery, from: nat): (r: Option<nat>)
    requires from <= |disks|
    ensures r.Some? ==> from <= r.value < |disks| && Satisfies(disks[r.value], q)
                        && forall j :: from <= j < r.value ==> !Satisfies(disks[j], q)
    ensures r.None? ==> forall j :: from <= j < |disks| ==> !Satisfies(disks[j], q)
    decreases |disks| - from
  {
    if from == |disks| then None
    else if Satisfies(disks[from], q) then Some(from)
    else FindDisk(disks, q, from + 1)
  }

  predicate HasDiskIndex(disks: seq<Disk>, index: string)
  {
    exists j :: 0 <= j < |disks| && disks[j].index == index
  }

  /**
   * `set_single_disk`: the target disk of ext4 and xfs, the first runtime disk
   * whose path ends with the listed name, or the disk of the device the filter
   * selects. A filter device that is no runtime disk leaves the target unset,
   * and the log line after it unwraps it.
   */
  method SetSingleDisk(selection: DiskSelection, udev: UdevInfo, disks: seq<Disk>, glob: Glob)
    returns (r: Result<string, AutoError>)
    requires selection.Selection? ==> |selection.list| > 0
    ensures selection.Selection? ==>
      && (r.Ok? <==> FindDisk(disks, PathEndsWith(selection.list[0]), 0).Some?)
      && (r.Ok? ==> r.value == disks[FindDisk(disks, PathEndsWith(selection.list[0]), 0).value].path)
      && (r.Err? ==> r.error == DiskNotFound)
    ensures selection.Filter? && r.Ok? ==>
      exists d :: FirstMatching(selection.filter, udev.disks, glob, d)
                  && FindDisk(disks, IndexIs(d), 0).Some?
                  && r.value == disks[FindDisk(disks, IndexIs(d), 0).value].path
    ensures selection.Filter? && r.Err? ==>
      r.error in {NoFilter, InvalidGlob, NoDeviceMatched, Panic("target_hd is unset")}
    ensures selection.Filter? ==> (r == Err(NoFilter) <==> |selection.filter| == 0)
    ensures selection.Filter? && r == Err(Panic("target_hd is unset")) ==>
      exists d :: FirstMatching(selection.filter, udev.disks, glob, d) && !HasDiskIndex(disks, d)
    ensures selection.Filter? && |selection.filter| > 0 && AllGlobsValid(selection.filter, glob) ==>
      (r.Ok? <==> exists d :: FirstMatching(selection.filter, udev.disks, glob, d) && HasDiskIndex(disks, d))
  {
    match selection {
      case Selection(list) =>
        var found := FindDisk(disks, PathEndsWith(list[0]), 0);
        if found.None? {
          return Err(DiskNotFound);
        }
        return Ok(disks[found.value].path);
      case Filter(filter) =>
        var index := GetSingleUdevIndex(filter, udev.disks, glob);
        if index.Err? {
          return Err(index.error);
        }
        var found := FindDisk(disks, IndexIs(index.value), 0);
        forall d | FirstMatching(filter, udev.disks, glob, d) ensures d == index.value {
          FirstMatchingUnique(filter, udev.disks, glob, d, index.value);
        }
        if found.None? {
          return Err(Panic("target_hd is unset"));
        }
        return Ok(disks[found.value].path);
    }
  }

  /** The index of the first runtime disk whose path ends with `name`. */
  function ResolvedIndex(disks: seq<Disk>, name: string): (r: Option<string>)
    ensures r.Some? ==> HasDiskIndex(disks, r.value)
    ensures r.Some? <==> exists j :: 0 <= j < |disks| && EndsWith(disks[j].path, name)
  {
    match FindDisk(disks, PathEndsWith(name), 0)
    case None => None
    case Some(k) => Some(disks[k].index)
  }

  /**
   * `set_selected_disks`: the disk selection of ZFS and Btrfs, mapping each
   * selected disk's index to itself. Listed names that match no disk are
   * skipped; filtered devices are all taken; an empty selection is an error.
   */
  method SetSelectedDisks(selection: DiskSelection, filterMatch: Option<FilterMatch>, udev: UdevInfo, disks: seq<Disk>, glob: Glob)
    returns (r: Result<map<string, string>, AutoError>)
    ensures r.Ok? ==> |r.value| > 0
    ensures r.Ok? ==> forall x :: x in r.value ==> r.value[x] == x && HasDiskIndex(disks, x)
    ensures selection.Selection? ==>
      && (r.Ok? ==> forall x :: x in r.value <==>
            exists j :: 0 <= j < |selection.list| && ResolvedIndex(disks, selection.list[j]) == Some(x))
      && (r.Err? <==> forall j :: 0 <= j < |selection.list| ==> ResolvedIndex(disks, selection.list[j]).None?)
      && (r.Err? ==> r.error == NoDisksSelected)
    ensures selection.Filter? && r.Ok? ==>
      var matchAll := filterMatch == Some(All);
      forall x :: x in r.value <==> x in udev.disks && Selected(selection.filter, udev.disks[x], matchAll, glob)
    ensures selection.Filter? ==>
      && (r.Ok? <==> FilterSelectsRuntimeDisks(selection.filter, filterMatch == Some(All), udev, disks, glob))
      && (r.Err? ==> r.error in {InvalidGlob, NoDevicesMatched, Panic("selected disk is not a runtime disk")})
  {
    match selection {
      case Selection(list) =>
        r := SelectListedDisks(list, disks);
        ResolvedSetSpec(disks, list);
      case Filter(filter) =>
        var matchAll := filterMatch.UnwrapOr(Any) == All;
        r := SelectFilteredDisks(filter, matchAll, udev, disks, glob);
    }
  }

  /** The indexes of the disks the listed names resolve to. */
  function ResolvedSet(disks: seq<Disk>, names: seq<string>): (r: set<string>)
    ensures forall x :: x in r ==> HasDiskIndex(disks, x)
  {
    if names == [] then {}
    else
      var last := ResolvedIndex(disks, names[|names| - 1]);
      ResolvedSet(disks, names[..|names| - 1]) + (if last.Some? then {last.value} else {})
  }

  /** A resolved index is one some listed name resolves to; none resolve exactly when no name does. */
  lemma {:induction false} ResolvedSetSpec(disks: seq<Disk>, names: seq<string>)
    ensures forall x :: x in ResolvedSet(disks, names) <==>
      exists j :: 0 <= j < |names| && ResolvedIndex(disks, names[j]) == Some(x)
    ensures ResolvedSet(disks, names) == {} <==> forall j :: 0 <= j < |names| ==> ResolvedIndex(disks, names[j]).None?
  {
    if names != [] {
      var init := names[..|names| - 1];
      ResolvedSetSpec(disks, init);
      assert forall j :: 0 <= j < |init| ==> init[j] == names[j];
      var last := ResolvedIndex(disks, names[|names| - 1]);
      if last.Some? {
        assert last.value in ResolvedSet(disks, names);
      }
    }
  }

  /** The `Selection` case of `set_selected_disks`. */
  method SelectListedDisks(list: seq<string>, disks: seq<Disk>) returns (r: Result<map<string, string>, AutoError>)
    ensures r.Ok? ==> forall x :: x in r.value ==> r.value[x] == x
    ensures r.Ok? ==> r.value.Keys == ResolvedSet(disks, list)
    ensures r.Err? <==> ResolvedSet(disks, list) == {}
    ensures r.Err? ==> r.error == NoDisksSelected
  {
    var chosen: map<string, string> := map[];
    var i := 0;
    while i < |list|
      invariant 0 <= i <= |list|
      invariant forall x :: x in chosen ==> chosen[x] == x
      invariant chosen.Keys == ResolvedSet(disks, list[..i])
    {
      // the index of the first disk whose path ends with the name
      var index := ResolvedIndex(disks, list[i]);
      if index.Some? {
        chosen := chosen[index.value := index.value];
      }
      assert list[..i + 1][..i] == list[..i];
      i := i + 1;
    }
    assert list[..i] == list;
    if |chosen| == 0 {
      return Err(NoDisksSelected);
    }
    return Ok(chosen);
  }

  /**
   * When a device filter selects a usable disk set: its globs all compile,
   * it selects some device, and every device it selects is a runtime disk.
   */
  predicate FilterSelectsRuntimeDisks(filter: map<string, string>, matchAll: bool, udev: UdevInfo, disks: seq<Disk>, glob: Glob)
  {
    && AllGlobsValid(filter, glob)
    && (exists x :: x in udev.disks && Selected(filter, udev.disks[x], matchAll, glob))
    && forall x :: x in udev.disks && Selected(filter, udev.disks[x], matchAll, glob) ==> HasDiskIndex(disks, x)
  }

  /**
   * The `Filter` case of `set_selected_disks`: a matched device that is no
   * runtime disk is unwrapped and so panics.
   */
  method SelectFilteredDisks(filter: map<string, string>, matchAll: bool, udev: UdevInfo, disks: seq<Disk>, glob: Glob)
    returns (r: Result<map<string, string>, AutoError>)
    ensures r.Ok? ==> |r.value| > 0
    ensures r.Ok? ==> forall x :: x in r.value ==> r.value[x] == x && HasDiskIndex(disks, x)
    ensures r.Ok? ==> forall x :: x in r.value <==> x in udev.disks && Selected(filter, udev.disks[x], matchAll, glob)
    ensures r.Ok? <==> FilterSelectsRuntimeDisks(filter, matchAll, udev, disks, glob)
    ensures r.Err? ==> r.error in {InvalidGlob, NoDevicesMatched, Panic("selected disk is not a runtime disk")}
  {
    var indexes := GetMatchedUdevIndexes(filter, udev.disks, matchAll, glob);
    if indexes.Err? {
      return Err(indexes.error);
    }
    var list := indexes.value;
    var chosen: map<string, string> := map[];
    var i := 0;
    while i < |list|
      invariant 0 <= i <= |list|
      invariant forall x :: x in chosen ==> chosen[x] == x && HasDiskIndex(disks, x)
      invariant forall x :: x in chosen <==> x in list[..i]
    {
      var found := FindDisk(disks, IndexIs(list[i]), 0);
      if found.None? {
        assert list[i] in list && !HasDiskIndex(disks, list[i]);
        assert !FilterSelectsRuntimeDisks(filter, matchAll, udev, disks, glob);
        return Err(Panic("selected disk is not a runtime disk"));
      }
      var disk := disks[found.value];
      chosen := chosen[disk.index := disk.index];
      assert list[..i + 1] == list[..i] + [list[i]];
      i := i + 1;
    }
    assert list[..i] == list;
    assert list[0] in chosen;
    AllMatchedAreRuntime(filter, matchAll, udev, disks, glob, list);
    return Ok(chosen);
  }

  /** Every matched device being a runtime disk makes the filter select runtime disks. */
  lemma AllMatchedAreRuntime(filter: map<string, string>, matchAll: bool, udev: UdevInfo, disks: seq<Disk>, glob: Glob,
                             list: seq<string>)
    requires AllGlobsValid(filter, glob) && |list| > 0
    requires forall d :: d in list <==> d in udev.disks && Selected(filter, udev.disks[d], matchAll, glob)
    requires forall d :: d in list ==> HasDiskIndex(disks, d)
    ensures FilterSelectsRuntimeDisks(filter, matchAll, udev, disks, glob)
  {
    assert list[0] in list;
  }

  // ---------------------------------------------------------------------
  // The first selected disk

  /**
   * `get_first_selected_disk` as written: the smallest key of the disk
   * selection is parsed as a number and used as a position in the runtime
   * disk list, which is sorted by index text.
   */
  function FirstSelectedDiskAsWritten(firstKey: string, disks: seq<Disk>): (r: Result<Disk, AutoError>)
    ensures r.Ok? ==> ParseUsize(firstKey).Ok? && ParseUsize(firstKey).value < |disks|
                      && r.value == disks[ParseUsize(firstKey).value]
  {
    match ParseUsize(firstKey)
    case Err(_) => Err(Panic("could not parse key to usize"))
    case Ok(n) => if n < |disks| then Ok(disks[n]) else Err(Panic("index out of bounds"))
  }

  /** The disk the first selected key names: the runtime disk with that index. */
  function FirstSelectedDisk(firstKey: string, disks: seq<Disk>): (r: Result<Disk, AutoError>)
    ensures r.Ok? <==> HasDiskIndex(disks, firstKey)
    ensures r.Ok? ==> r.value.index == firstKey && r.value in disks
  {
    match FindDisk(disks, IndexIs(firstKey), 0)
    case None => Err(Panic("no disk with the selected index"))
    case Some(k) => Ok(disks[k])
  }

  /** The runtime disks `0` to `10`, in the order `installer_setup` sorts them. */
  function ElevenDisks(): (disks: seq<Disk>)
    ensures |disks| == 11
  {
    [DummyDisk(0), DummyDisk(1), DummyDisk(10), DummyDisk(2), DummyDisk(3), DummyDisk(4),
     DummyDisk(5), DummyDisk(6), DummyDisk(7), DummyDisk(8), DummyDisk(9)]
  }

  /**
   * With eleven disks, selecting disk `2` makes the as-written lookup return
   * disk `10`, the third disk in index-text order, while the disk with index
   * `2` is a different one.
   */
  lemma FirstSelectedDiskMismatch()
    ensures FirstSelectedDiskAsWritten("2", ElevenDisks()) == Ok(DummyDisk(10))
    ensures FirstSelectedDisk("2", ElevenDisks()).Ok?
    ensures FirstSelectedDisk("2", ElevenDisks()).value.index == "2"
    ensures DummyDisk(10).index != "2"
  {
    var disks := ElevenDisks();
    assert NatToString(2) == "2";
    ParseNatToString(2);
    assert disks[3].index == "2";
    assert NatToString(10) == "10";
  }

  // ---------------------------------------------------------------------
  // verify_* rules

  /** `verify_filesystem_settings`: Btrfs only where the product enables it. */
  function VerifyFilesystemSettings(fsType: FsType, setup: SetupInfo): (r: Result<(), AutoError>)
    ensures r.Err? <==> IsBtrfs(fsType) && !setup.config.enableBtrfs
    ensures r.Err? ==> r.error == BtrfsUnsupported
  {
    if IsBtrfs(fsType) && !setup.config.enableBtrfs then Err(BtrfsUnsupported) else Ok(())
  }

  /** Some country lists the zone. */
  predicate KnownTimezone(locales: LocaleInfo, timezone: string)
  {
    exists cc :: cc in locales.cczones && timezone in locales.cczones[cc]
  }

  /**
   * `verify_locale_settings`: the country and keyboard must be known to the
   * locale tables, and the zone must be listed for some country or be `UTC`;
   * checked in that order.
   */
  function VerifyLocaleSettings(global: Global, locales: LocaleInfo): (r: Result<(), AutoError>)
    ensures r.Ok? <==>
      && global.country in locales.countries
      && KeyboardLayoutName(global.keyboard) in locales.kmap
      && (KnownTimezone(locales, global.timezone) || global.timezone == "UTC")
    ensures global.country !in locales.countries ==> r == Err(InvalidCountry(global.country))
    ensures global.country in locales.countries && KeyboardLayoutName(global.keyboard) !in locales.kmap ==>
      r == Err(InvalidKeyboard(KeyboardLayoutName(global.keyboard)))
    ensures r.Err? && r.error.InvalidTimezone? ==> r.error.timezone == global.timezone
  {
    if global.country !in locales.countries then Err(InvalidCountry(global.country))
    else if KeyboardLayoutName(global.keyboard) !in locales.kmap then Err(InvalidKeyboard(KeyboardLayoutName(global.keyboard)))
    else if !KnownTimezone(locales, global.timezone) && global.timezone != "UTC" then Err(InvalidTimezone(global.timezone))
    else Ok(())
  }

  /** The zone the interactive installer would default to always passes the zone check. */
  lemma DefaultTimezonePasses(global: Global, runtime: RuntimeInfo, locales: LocaleInfo)
    requires global.timezone == TimezoneDefaultsFrom(runtime, locales).timezone
    requires global.country in locales.countries && KeyboardLayoutName(global.keyboard) in locales.kmap
    ensures VerifyLocaleSettings(global, locales).Ok?
  {
    TimezoneDefaultIsKnown(runtime, locales);
  }

  /**
   * `verify_email_and_root_password_settings`: the address is checked first;
   * then exactly one of the password options must be set, and a plain
   * password needs at least `ROOT_PASSWORD_MIN_LENGTH` bytes.
   */
  function VerifyEmailAndRootPasswordSettings(global: Global, emailPattern: string -> bool): (r: Result<(), AutoError>)
    ensures EmailValidate(global.mailto, emailPattern).Err? ==>
      r == Err(InvalidEmail(global.mailto, EmailValidate(global.mailto, emailPattern).error))
    ensures r.Ok? <==>
      && EmailValidate(global.mailto, emailPattern).Ok?
      && (global.rootPassword.Some? != global.rootPasswordHashed.Some?)
      && (global.rootPassword.Some? ==> ByteLen(global.rootPassword.value) >= ROOT_PASSWORD_MIN_LENGTH)
  {
    var email := EmailValidate(global.mailto, emailPattern);
    if email.Err? then Err(InvalidEmail(global.mailto, email.error))
    else match (global.rootPassword, global.rootPasswordHashed)
      case (Some(_), Some(_)) => Err(BothPasswords)
      case (None, None) => Err(NoPassword)
      case (Some(password), None) =>
        if ByteLen(password) < ROOT_PASSWORD_MIN_LENGTH then Err(PasswordTooShort) else Ok(())
      case (None, Some(_)) => Ok(())
  }

  /** The password errors, once the address is accepted. */
  lemma PasswordErrors(global: Global, emailPattern: string -> bool)
    requires EmailValidate(global.mailto, emailPattern).Ok?
    ensures global.rootPassword.Some? && global.rootPasswordHashed.Some? ==>
      VerifyEmailAndRootPasswordSettings(global, emailPattern) == Err(BothPasswords)
    ensures global.rootPassword.None? && global.rootPasswordHashed.None? ==>
      VerifyEmailAndRootPasswordSettings(global, emailPattern) == Err(NoPassword)
    ensures global.rootPassword.Some? && global.rootPasswordHashed.None? ==>
      (VerifyEmailAndRootPasswordSettings(global, emailPattern) == Err(PasswordTooShort) <==>
         ByteLen(global.rootPassword.value) < ROOT_PASSWORD_MIN_LENGTH)
    ensures global.rootPassword.Some? && global.rootPasswordHashed.None? && |global.rootPassword.value| >= ROOT_PASSWORD_MIN_LENGTH ==>
      VerifyEmailAndRootPasswordSettings(global, emailPattern).Ok?
  {
    if global.rootPassword.Some? {
      ByteLenBounds(global.rootPassword.value);
    }
  }

  /** No element of `s` occurs twice. */
  predicate DistinctStrings(s: seq<string>)
  {
    forall i, j :: 0 <= i < j < |s| ==> s[i] != s[j]
  }

  /** `s[k]` is the first element that occurred before. */
  predicate FirstRepeatAt(s: seq<string>, k: nat)
  {
    && k < |s|
    && DistinctStrings(s[..k])
    && exists j :: 0 <= j < k && s[j] == s[k]
  }

  /** What `verify_disks_settings` accepts. */
  predicate DisksSettingsOk(disks: Disks)
  {
    && (disks.diskSelection.Selection? ==>
          |disks.diskSelection.list| >= FsMinDisks(disks.fsType) && DistinctStrings(disks.diskSelection.list))
    && (disks.fsOptions.LVM? && disks.fsOptions.lvm.swapsize.Some? && disks.fsOptions.lvm.hdsize.Some? ==>
          disks.fsOptions.lvm.swapsize.value <= disks.fsOptions.lvm.hdsize.value / 2.0)
  }

  /**
   * `verify_disks_settings`: a disk list needs the filesystem's minimum
   * number of disks and no duplicate (the first repeat is reported, found
   * with a set); LVM swap may take at most half of a given disk size.
   */
  method VerifyDisksSettings(disks: Disks) returns (r: Result<(), AutoError>)
    ensures r.Ok? <==> DisksSettingsOk(disks)
    ensures disks.diskSelection.Selection? && |disks.diskSelection.list| < FsMinDisks(disks.fsType) ==>
      r == Err(NotEnoughDisks(FsTypeDisplay(disks.fsType), FsMinDisks(disks.fsType)))
    ensures r.Err? && r.error.DuplicateDevice? ==>
      && disks.diskSelection.Selection?
      && (exists k :: 0 <= k < |disks.diskSelection.list| && FirstRepeatAt(disks.diskSelection.list, k)
                      && r.error.disk == disks.diskSelection.list[k])
    ensures r.Err? && r.error.SwapTooBig? ==> DisksSettingsOk(disks.(fsOptions := LVM(DEFAULT_LVM_OPTIONS)))
    ensures r.Err? ==> r.error.NotEnoughDisks? || r.error.DuplicateDevice? || r.error.SwapTooBig?
  {
    if disks.diskSelection.Selection? {
      var list := disks.diskSelection.list;
      var min := FsMinDisks(disks.fsType);
      if |list| < min {
        return Err(NotEnoughDisks(FsTypeDisplay(disks.fsType), min));
      }
      var seen: set<string> := {};
      var i := 0;
      while i < |list|
        invariant 0 <= i <= |list|
        invariant DistinctStrings(list[..i])
        invariant seen == set j | 0 <= j < i :: list[j]
      {
        if list[i] in seen {
          assert FirstRepeatAt(list, i);
          return Err(DuplicateDevice(list[i]));
        }
        assert forall j :: 0 <= j < i ==> list[j] != list[i] by {
          forall j | 0 <= j < i ensures list[j] != list[i] {
            assert list[j] in seen;
          }
        }
        seen := seen + {list[i]};
        assert list[..i + 1] == list[..i] + [list[i]];
        i := i + 1;
      }
      assert list[..i] == list;
    }
    if disks.fsOptions.LVM? && disks.fsOptions.lvm.swapsize.Some? && disks.fsOptions.lvm.hdsize.Some? {
      var check := CheckSwapsize(disks.fsOptions.lvm.swapsize.value, disks.fsOptions.lvm.hdsize.value);
      if check.Err? {
        return Err(SwapTooBig(check.error));
      }
    }
    return Ok(());
  }

  /** `verify_first_boot_settings`: a hook fetched from a URL needs the URL. */
  function VerifyFirstBootSettings(firstBoot: Option<FirstBootHookInfo>): (r: Result<(), AutoError>)
    ensures r.Err? <==> firstBoot.Some? && firstBoot.value.source == FromUrl && firstBoot.value.url.None?
    ensures r.Err? ==> r.error == FirstBootUrlMissing
  {
    if firstBoot.Some? && firstBoot.value.source == FromUrl && firstBoot.value.url.None? then Err(FirstBootUrlMissing)
    else Ok(())
  }

  /** A pinning map `verify` accepts. */
  predicate PinningValid(mapping: map<string, string>)
  {
    (forall mac :: mac in mapping ==> ValidIfname(mapping[mac])) && NamesInjective(mapping)
  }

  /**
   * `verify_network_settings`: given pinning options are verified. MAC
   * addresses the machine does not have only cause a warning, which is not
   * modelled.
   */
  method VerifyNetworkSettings(pinning: Option<map<string, string>>, isNumeric: char -> bool) returns (r: Result<(), AutoError>)
    requires NumericOnAscii(isNumeric)
    ensures r.Ok? <==> pinning.None? || PinningValid(pinning.value)
    ensures r.Err? ==> r.error.InvalidPinning? && PinningErrorHolds(pinning.value, isNumeric, r.error.pinningCause)
  {
    if pinning.Some? {
      var check := VerifyPinning(pinning.value, isNumeric);
      if check.Err? {
        return Err(InvalidPinning(check.error));
      }
    }
    return Ok(());
  }

  // ---------------------------------------------------------------------
  // Assembling the install configuration

  /** The network defaults `get_network_settings` starts from: no domain when a fixed FQDN is given. */
  function NetworkDefaultsFor(global: Global, pinning: Option<map<string, string>>, libs: Libraries): NetworkOptions
  {
    libs.networkDefaults(if global.fqdn.Simple? then None else global.fqdn.domain, pinning)
  }

  /**
   * The network options of an answer: the defaults with the fixed FQDN if
   * one is given, and, for a manual section, its address, DNS server and
   * gateway and the first interface its filter matches. Any pinning is valid.
   */
  ghost predicate NetworkFromAnswer(global: Global, network: Network, pinning: Option<map<string, string>>,
                                    udev: UdevInfo, libs: Libraries, net: NetworkOptions)
  {
    var d := NetworkDefaultsFor(global, pinning, libs);
    && net.fqdn == (if global.fqdn.Simple? then global.fqdn.fqdn else d.fqdn)
    && net.pinningOpts == d.pinningOpts
    && (net.pinningOpts.None? || PinningValid(net.pinningOpts.value))
    && (network.networkSettings.FromDhcp? ==>
          net.address == d.address && net.dnsServer == d.dnsServer && net.gateway == d.gateway && net.ifname == d.ifname)
    && (network.networkSettings.Manual? ==>
          var m := network.networkSettings.manual;
          && net.address == m.cidr && net.dnsServer == m.dns && net.gateway == m.gateway
          && FirstMatching(m.filter, udev.nics, libs.glob, net.ifname))
  }

  /** A DHCP-sourced FQDN needs a host name from DHCP and a domain from DHCP or the answer. */
  predicate FqdnAvailable(global: Global, runtime: RuntimeInfo)
  {
    global.fqdn.Extended? ==>
      runtime.network.hostname.Some? && (runtime.network.dns.domain.Some? || global.fqdn.domain.Some?)
  }

  /** The globs of a manual network section's filter all compile; a DHCP section has none. */
  predicate NetworkGlobsValid(network: Network, glob: Glob)
  {
    network.networkSettings.Manual? ==> AllGlobsValid(network.networkSettings.manual.filter, glob)
  }

  /**
   * What `get_network_settings` needs to succeed: the FQDN's parts, a
   * non-empty manual filter that some interface matches, and valid pinning.
   */
  ghost predicate NetworkAvailable(global: Global, network: Network, pinning: Option<map<string, string>>,
                                   udev: UdevInfo, runtime: RuntimeInfo, libs: Libraries)
  {
    var d := NetworkDefaultsFor(global, pinning, libs);
    && FqdnAvailable(global, runtime)
    && (network.networkSettings.Manual? ==>
          var filter := network.networkSettings.manual.filter;
          |filter| > 0 && exists n :: n in udev.nics && MatchesAny(filter, udev.nics[n], libs.glob))
    && (d.pinningOpts.None? || PinningValid(d.pinningOpts.value))
  }

  /**
   * The errors of `get_network_settings`: the missing DHCP host name or
   * domain, the interface lookup's, or the default pinning's defect.
   */
  ghost predicate NetworkErrorCause(global: Global, network: Network, pinning: Option<map<string, string>>,
                                    udev: UdevInfo, runtime: RuntimeInfo, libs: Libraries, e: AutoError)
    requires NumericOnAscii(libs.isNumeric)
  {
    var d := NetworkDefaultsFor(global, pinning, libs);
    && (e in {NoDhcpHostname, NoDomain} <==> !FqdnAvailable(global, runtime))
    && (e in {NoFilter, InvalidGlob, NoDeviceMatched} ==>
          && FqdnAvailable(global, runtime) && network.networkSettings.Manual?
          && var filter := network.networkSettings.manual.filter;
          && (e == NoFilter <==> |filter| == 0)
          && (e == InvalidGlob ==> !AllGlobsValid(filter, libs.glob))
          && (e == NoDeviceMatched ==> forall n :: n in udev.nics ==> !MatchesAny(filter, udev.nics[n], libs.glob)))
    && (e.InvalidPinning? ==>
          && FqdnAvailable(global, runtime)
          && d.pinningOpts.Some? && PinningErrorHolds(d.pinningOpts.value, libs.isNumeric, e.pinningCause))
    && (e in {NoDhcpHostname, NoDomain, NoFilter, InvalidGlob, NoDeviceMatched} || e.InvalidPinning?)
  }

  /**
   * `get_network_settings`: the defaults from the runtime network, with a
   * fixed FQDN substituted or a DHCP-provided one checked; a manual network
   * section replaces address, DNS server and gateway and selects the
   * interface by filter. Pinning options are verified.
   */
  method GetNetworkSettings(global: Global, network: Network, pinning: Option<map<string, string>>,
                            udev: UdevInfo, runtime: RuntimeInfo, libs: Libraries)
    returns (r: Result<NetworkOptions, AutoError>)
    requires NumericOnAscii(libs.isNumeric)
    ensures global.fqdn.Extended? && runtime.network.hostname.None? ==> r == Err(NoDhcpHostname)
    ensures (global.fqdn.Extended? && runtime.network.hostname.Some?
             && runtime.network.dns.domain.None? && global.fqdn.domain.None?) ==> r == Err(NoDomain)
    ensures r.Ok? && global.fqdn.Simple? ==> r.value.fqdn == global.fqdn.fqdn
    ensures r.Ok? && global.fqdn.Extended? ==> r.value.fqdn == libs.networkDefaults(global.fqdn.domain, pinning).fqdn
    ensures r.Ok? ==> r.value.pinningOpts.None? || PinningValid(r.value.pinningOpts.value)
    ensures r.Ok? && network.networkSettings.Manual? ==>
      var m := network.networkSettings.manual;
      && r.value.address == m.cidr && r.value.dnsServer == m.dns && r.value.gateway == m.gateway
      && FirstMatching(m.filter, udev.nics, libs.glob, r.value.ifname)
    ensures r.Ok? && network.networkSettings.FromDhcp? ==>
      var d := libs.networkDefaults(if global.fqdn.Simple? then None else global.fqdn.domain, pinning);
      r.value == d.(fqdn := r.value.fqdn)
    ensures r.Ok? ==> NetworkFromAnswer(global, network, pinning, udev, libs, r.value)
    ensures r.Ok? ==> NetworkAvailable(global, network, pinning, udev, runtime, libs)
    ensures NetworkGlobsValid(network, libs.glob) ==>
      (r.Ok? <==> NetworkAvailable(global, network, pinning, udev, runtime, libs))
    ensures r.Err? ==> NetworkErrorCause(global, network, pinning, udev, runtime, libs, r.error)
  {
    var opts: NetworkOptions;
    match global.fqdn {
      case Simple(name) =>
        opts := libs.networkDefaults(None, pinning).(fqdn := name);
      case Extended(domain) =>
        if runtime.network.hostname.None? {
          return Err(NoDhcpHostname);
        }
        if runtime.network.dns.domain.None? && domain.None? {
          return Err(NoDomain);
        }
        opts := libs.networkDefaults(domain, pinning);
    }
    assert FqdnAvailable(global, runtime);
    assert opts.pinningOpts == NetworkDefaultsFor(global, pinning, libs).pinningOpts;
    if network.networkSettings.Manual? {
      var m := network.networkSettings.manual;
      var ifname := GetSingleUdevIndex(m.filter, udev.nics, libs.glob);
      if ifname.Err? {
        return Err(ifname.error);
      }
      opts := opts.(address := m.cidr, dnsServer := m.dns, gateway := m.gateway, ifname := ifname.value);
    }
    if opts.pinningOpts.Some? {
      var check := VerifyPinning(opts.pinningOpts.value, libs.isNumeric);
      if check.Err? {
        return Err(InvalidPinning(check.error));
      }
    }
    return Ok(opts);
  }

  /**
   * The effective ZFS options: unset ones default to ashift 12, the runtime
   * ARC maximum, compression and checksums on, and one copy.
   */
  function ZfsInstallOptions(zfs: ZfsOptions, defaultArcMax: nat): (o: InstallZfsOption)
    ensures o.ashift == (if zfs.ashift.None? then 12 else zfs.ashift.value)
    ensures o.copies == (if zfs.copies.None? then 1 else zfs.copies.value)
    ensures o.compress == (if zfs.compress.None? then ZfsCompressOption.On else zfs.compress.value)
    ensures o.checksum == (if zfs.checksum.None? then ZfsChecksumOption.On else zfs.checksum.value)
    ensures o.arcMax == (if zfs.arcMax.None? then defaultArcMax else zfs.arcMax.value)
  {
    InstallZfsOption(
      ashift := zfs.ashift.UnwrapOr(12),
      compress := zfs.compress.UnwrapOr(ZfsCompressOption.On),
      checksum := zfs.checksum.UnwrapOr(ZfsChecksumOption.On),
      copies := zfs.copies.UnwrapOr(1),
      arcMax := zfs.arcMax.UnwrapOr(defaultArcMax))
  }

  /** The first-boot setup: enabled, with its target, exactly when a hook is given. */
  function FirstBootSetup(firstBoot: Option<FirstBootHookInfo>): (s: InstallFirstBootSetup)
    ensures s.enabled <==> firstBoot.Some?
    ensures firstBoot.None? ==> s == DEFAULT_FIRST_BOOT
    ensures firstBoot.Some? ==> s.orderingTarget == Some(AsSystemdTargetName(firstBoot.value.ordering))
  {
    match firstBoot
    case None => DEFAULT_FIRST_BOOT
    case Some(hook) => InstallFirstBootSetup(true, Some(AsSystemdTargetName(hook.ordering)))
  }

  /** The root password: a plain one, or else the hashed one. */
  function RootPasswordOf(global: Global): (p: InstallRootPassword)
    requires global.rootPassword.Some? != global.rootPasswordHashed.Some?
    ensures p.plain == global.rootPassword && p.hashed == global.rootPasswordHashed
  {
    if global.rootPassword.Some? then InstallRootPassword(global.rootPassword, None)
    else InstallRootPassword(None, global.rootPasswordHashed)
  }

  /** The configuration before disks and filesystem options are filled in. */
  function BaseConfig(answer: Answer, net: NetworkOptions, setup: SetupInfo): InstallConfig
    requires answer.global.rootPassword.Some? != answer.global.rootPasswordHashed.Some?
  {
    InstallConfig(
      autoreboot := 1,
      filesys := answer.disks.fsType,
      hdsize := 0.0,
      swapsize := None,
      maxroot := None,
      minfree := None,
      maxvz := None,
      zfsOpts := None,
      btrfsOpts := None,
      targetHd := None,
      diskSelection := map[],
      existingStorageAutoRename := 1,
      country := answer.global.country,
      timezone := answer.global.timezone,
      keymap := KeyboardLayoutName(answer.global.keyboard),
      rootPassword := RootPasswordOf(answer.global),
      mailto := answer.global.mailto,
      rootSshKeys := answer.global.rootSshKeys,
      mngmtNic := net.ifname,
      networkInterfacePinMap := if net.pinningOpts.Some? then net.pinningOpts.value else map[],
      hostname := net.fqdn.Host().UnwrapOr(DefaultHostname(setup.config.product)),
      domain := net.fqdn.Domain(),
      cidr := net.address,
      gateway := net.gateway,
      dns := net.dnsServer,
      firstBoot := DEFAULT_FIRST_BOOT)
  }

  /** Every `verify_*` rule `parse_answer` applies accepts the answer. */
  predicate ChecksPass(answer: Answer, pinning: Option<map<string, string>>, locales: LocaleInfo,
                       setup: SetupInfo, libs: Libraries)
  {
    && VerifyFilesystemSettings(answer.disks.fsType, setup).Ok?
    && SettingsPass(answer, pinning, locales, libs)
  }

  /** The rules `parse_answer` applies after the network settings accept the answer. */
  predicate SettingsPass(answer: Answer, pinning: Option<map<string, string>>, locales: LocaleInfo, libs: Libraries)
  {
    && VerifyLocaleSettings(answer.global, locales).Ok?
    && DisksSettingsOk(answer.disks)
    && VerifyEmailAndRootPasswordSettings(answer.global, libs.emailPattern).Ok?
    && VerifyFirstBootSettings(answer.firstBoot).Ok?
    && (pinning.None? || PinningValid(pinning.value))
  }

  /**
   * The error of those rules is the first failing one's: locale, disks,
   * e-mail and password, first boot, pinning.
   */
  ghost predicate SettingsFailure(answer: Answer, pinning: Option<map<string, string>>, locales: LocaleInfo,
                                  libs: Libraries, e: AutoError)
    requires NumericOnAscii(libs.isNumeric)
  {
    var locale := VerifyLocaleSettings(answer.global, locales);
    var email := VerifyEmailAndRootPasswordSettings(answer.global, libs.emailPattern);
    var firstBoot := VerifyFirstBootSettings(answer.firstBoot);
    && (locale.Err? ==> e == locale.error)
    && (locale.Ok? && !DisksSettingsOk(answer.disks) ==> e.NotEnoughDisks? || e.DuplicateDevice? || e.SwapTooBig?)
    && (locale.Ok? && DisksSettingsOk(answer.disks) && email.Err? ==> e == email.error)
    && (locale.Ok? && DisksSettingsOk(answer.disks) && email.Ok? && firstBoot.Err? ==> e == firstBoot.error)
    && (locale.Ok? && DisksSettingsOk(answer.disks) && email.Ok? && firstBoot.Ok? ==>
          pinning.Some? && e.InvalidPinning? && PinningErrorHolds(pinning.value, libs.isNumeric, e.pinningCause))
  }

  /** The `verify_*` calls of `parse_answer` after the network settings, in source order. */
  method VerifySettings(answer: Answer, pinning: Option<map<string, string>>, locales: LocaleInfo, libs: Libraries)
    returns (r: Result<(), AutoError>)
    requires NumericOnAscii(libs.isNumeric)
    ensures r.Ok? <==> SettingsPass(answer, pinning, locales, libs)
    ensures r.Err? ==> SettingsFailure(answer, pinning, locales, libs, r.error)
  {
    var localeCheck := VerifyLocaleSettings(answer.global, locales);
    if localeCheck.Err? { return Err(localeCheck.error); }
    var disksCheck := VerifyDisksSettings(answer.disks);
    if disksCheck.Err? { return Err(disksCheck.error); }
    var passwordCheck := VerifyEmailAndRootPasswordSettings(answer.global, libs.emailPattern);
    if passwordCheck.Err? { return Err(passwordCheck.error); }
    var firstBootCheck := VerifyFirstBootSettings(answer.firstBoot);
    if firstBootCheck.Err? { return Err(firstBootCheck.error); }
    var networkCheck := VerifyNetworkSettings(pinning, libs.isNumeric);
    if networkCheck.Err? { return Err(networkCheck.error); }
    return Ok(());
  }

  /** An answer `parse_answer` accepts: every rule passes, the network settings resolve and so do the disks. */
  ghost predicate AnswerAccepted(answer: Answer, pinning: Option<map<string, string>>, udev: UdevInfo,
                                 runtime: RuntimeInfo, locales: LocaleInfo, setup: SetupInfo, libs: Libraries)
  {
    && ChecksPass(answer, pinning, locales, setup, libs)
    && NetworkAvailable(answer.global, answer.network, pinning, udev, runtime, libs)
    && DisksResolve(answer.disks, udev, runtime.disks, libs.glob)
  }

  /**
   * The error of `parse_answer` is the first failing step's, in the order
   * filesystem, network settings, locale, disks, e-mail and password, first
   * boot, pinning, and then the disk choice. Past the network step the order
   * is stated where that step is sure to succeed (its globs compile).
   */
  ghost predicate FirstFailure(answer: Answer, pinning: Option<map<string, string>>, udev: UdevInfo,
                               runtime: RuntimeInfo, locales: LocaleInfo, setup: SetupInfo, libs: Libraries, e: AutoError)
    requires NumericOnAscii(libs.isNumeric)
  {
    var fs := VerifyFilesystemSettings(answer.disks.fsType, setup);
    var netOk := NetworkGlobsValid(answer.network, libs.glob)
                 && NetworkAvailable(answer.global, answer.network, pinning, udev, runtime, libs);
    && (fs.Err? ==> e == fs.error)
    && (fs.Ok? && !NetworkAvailable(answer.global, answer.network, pinning, udev, runtime, libs) ==>
          NetworkErrorCause(answer.global, answer.network, pinning, udev, runtime, libs, e))
    && (fs.Ok? && netOk && !SettingsPass(answer, pinning, locales, libs) ==> SettingsFailure(answer, pinning, locales, libs, e))
    && (netOk && ChecksPass(answer, pinning, locales, setup, libs) ==> e in DISK_ERRORS)
  }

  /**
   * `parse_answer`: every `verify_*` rule in turn, then the configuration
   * with the chosen disks and the filesystem options, unset ones defaulted.
   * The answer's disk section is one `DisksTryFrom` produced.
   */
  method ParseAnswer(answer: Answer, pinning: Option<map<string, string>>, udev: UdevInfo,
                     runtime: RuntimeInfo, locales: LocaleInfo, setup: SetupInfo, libs: Libraries)
    returns (r: Result<InstallConfig, AutoError>)
    requires ConsistentDisks(answer.disks)
    requires NumericOnAscii(libs.isNumeric)
    ensures r.Ok? ==> AnswerAccepted(answer, pinning, udev, runtime, locales, setup, libs)
    ensures NetworkGlobsValid(answer.network, libs.glob) && DiskOutcomeDecided(answer.disks, libs.glob) ==>
      (r.Ok? <==> AnswerAccepted(answer, pinning, udev, runtime, locales, setup, libs))
    ensures r.Err? ==> FirstFailure(answer, pinning, udev, runtime, locales, setup, libs, r.error)
    ensures r.Ok? ==> ConfigFromAnswer(answer, udev, runtime, libs.glob, r.value)
    ensures r.Ok? ==> exists net :: NetworkFromAnswer(answer.global, answer.network, pinning, udev, libs, net)
                                   && NetworkConfigFrom(net, setup, r.value)
  {
    var fsCheck := VerifyFilesystemSettings(answer.disks.fsType, setup);
    if fsCheck.Err? { return Err(fsCheck.error); }
    var net := GetNetworkSettings(answer.global, answer.network, pinning, udev, runtime, libs);
    if net.Err? { return Err(net.error); }
    var settingsCheck := VerifySettings(answer, pinning, locales, libs);
    if settingsCheck.Err? { return Err(settingsCheck.error); }
    r := BuildConfig(answer, net.value, udev, runtime, setup, libs.glob);
    assert r.Ok? ==> NetworkFromAnswer(answer.global, answer.network, pinning, udev, libs, net.value)
                     && NetworkConfigFrom(net.value, setup, r.value);
  }

  /**
   * The network part of the configuration: the management interface, the
   * pinning map (empty without one), the FQDN's host (or the product's
   * default host name) and domain, the address, gateway and DNS server.
   */
  predicate NetworkConfigFrom(net: NetworkOptions, setup: SetupInfo, c: InstallConfig)
  {
    && c.mngmtNic == net.ifname
    && c.networkInterfacePinMap == (if net.pinningOpts.Some? then net.pinningOpts.value else map[])
    && c.hostname == net.fqdn.Host().UnwrapOr(DefaultHostname(setup.config.product))
    && c.domain == net.fqdn.Domain()
    && c.cidr == net.address && c.gateway == net.gateway && c.dns == net.dnsServer
  }

  /** What the configuration built from an answer holds. */
  ghost predicate ConfigFromAnswer(answer: Answer, udev: UdevInfo, runtime: RuntimeInfo, glob: Glob, c: InstallConfig)
  {
    && c.autoreboot == 1 && c.existingStorageAutoRename == 1
    && c.filesys == answer.disks.fsType
    && c.country == answer.global.country && c.timezone == answer.global.timezone
    && c.keymap == KeyboardLayoutName(answer.global.keyboard)
    && c.mailto == answer.global.mailto && c.rootSshKeys == answer.global.rootSshKeys
    && c.rootPassword.plain == answer.global.rootPassword
    && c.rootPassword.hashed == answer.global.rootPasswordHashed
    && c.firstBoot == FirstBootSetup(answer.firstBoot)
    && DiskConfigFromAnswer(answer.disks, udev, runtime, glob, c)
  }

  /** The disk part of the configuration built from an answer: the disks chosen and the filesystem options. */
  ghost predicate DiskConfigFromAnswer(disks: Disks, udev: UdevInfo, runtime: RuntimeInfo, glob: Glob, c: InstallConfig)
  {
    && DiskChoiceFromAnswer(disks, udev, runtime.disks, glob, c.targetHd, c.diskSelection)
    && FsOptionsFromAnswer(disks, runtime, c)
  }

  /**
   * The disks `set_disks` chooses: a target disk and no selection for ext4
   * and xfs, a selection and no target disk otherwise.
   */
  ghost predicate DiskChoiceFromAnswer(disks: Disks, udev: UdevInfo, runtimeDisks: seq<Disk>, glob: Glob,
                                       targetHd: Option<string>, selection: map<string, string>)
  {
    && (IsLvm(disks.fsType) ==>
          && targetHd.Some? && |selection| == 0
          && TargetDiskChosen(disks.diskSelection, udev, runtimeDisks, glob, targetHd.value))
    && (!IsLvm(disks.fsType) ==>
          && targetHd.None?
          && DisksChosen(disks.diskSelection, disks.filterMatch, udev, runtimeDisks, glob, selection))
  }

  /**
   * The filesystem options of the configuration: the LVM limits and size,
   * or the ZFS or Btrfs options and the size of the smallest selected
   * index's disk, unset ones defaulted.
   */
  ghost predicate FsOptionsFromAnswer(disks: Disks, runtime: RuntimeInfo, c: InstallConfig)
  {
    && (IsLvm(disks.fsType) ==>
          && c.targetHd.Some?
          && disks.fsOptions.LVM?
          && c.swapsize == disks.fsOptions.lvm.swapsize
          && c.maxroot == disks.fsOptions.lvm.maxroot
          && c.maxvz == disks.fsOptions.lvm.maxvz
          && c.minfree == disks.fsOptions.lvm.minfree
          && c.hdsize == disks.fsOptions.lvm.hdsize.UnwrapOr(TargetDiskSize(runtime.disks, c.targetHd.value)))
    && (disks.fsType.Zfs? ==>
          && disks.fsOptions.ZFS? && c.zfsOpts == Some(ZfsInstallOptions(disks.fsOptions.zfs, runtime.defaultZfsArcMax))
          && forall k :: IsLeastKey(c.diskSelection, k) ==>
               FirstSelectedDisk(k, runtime.disks).Ok?
               && c.hdsize == disks.fsOptions.zfs.hdsize.UnwrapOr(FirstSelectedDisk(k, runtime.disks).value.size))
    && (disks.fsType.Btrfs? ==>
          && disks.fsOptions.BTRFS?
          && c.btrfsOpts == Some(InstallBtrfsOption(disks.fsOptions.btrfs.compress.UnwrapOr(BtrfsCompressOption.Off)))
          && forall k :: IsLeastKey(c.diskSelection, k) ==>
               FirstSelectedDisk(k, runtime.disks).Ok?
               && c.hdsize == disks.fsOptions.btrfs.hdsize.UnwrapOr(FirstSelectedDisk(k, runtime.disks).value.size))
  }

  /** The part of `parse_answer` after the checks: `set_disks`, the filesystem options, the first-boot hook. */
  method BuildConfig(answer: Answer, net: NetworkOptions, udev: UdevInfo, runtime: RuntimeInfo, setup: SetupInfo, glob: Glob)
    returns (r: Result<InstallConfig, AutoError>)
    requires ConsistentDisks(answer.disks)
    requires answer.global.rootPassword.Some? != answer.global.rootPasswordHashed.Some?
    ensures r.Ok? ==> ConfigFromAnswer(answer, udev, runtime, glob, r.value)
    ensures r.Ok? ==> NetworkConfigFrom(net, setup, r.value)
    ensures r.Ok? ==> DisksResolve(answer.disks, udev, runtime.disks, glob)
    ensures DiskOutcomeDecided(answer.disks, glob) ==> (r.Ok? <==> DisksResolve(answer.disks, udev, runtime.disks, glob))
    ensures r.Err? ==> r.error in DISK_ERRORS
  {
    var config := BaseConfig(answer, net, setup);
    var withDisks := SetDisks(answer.disks, udev, runtime.disks, glob, config);
    if withDisks.Err? { return Err(withDisks.error); }
    var withOptions := ApplyFsOptions(answer.disks, runtime, withDisks.value);
    assert withOptions.Ok?;
    return Ok(withOptions.value.(firstBoot := FirstBootSetup(answer.firstBoot)));
  }

  /**
   * The target disk `set_single_disk` chooses: the first disk whose path ends
   * with the listed name, or the disk of the first device the filter matches.
   */
  ghost predicate TargetDiskChosen(selection: DiskSelection, udev: UdevInfo, disks: seq<Disk>, glob: Glob, path: string)
  {
    match selection
    case Selection(list) =>
      && |list| > 0 && FindDisk(disks, PathEndsWith(list[0]), 0).Some?
      && path == disks[FindDisk(disks, PathEndsWith(list[0]), 0).value].path
    case Filter(filter) =>
      exists d :: FirstMatching(filter, udev.disks, glob, d) && FindDisk(disks, IndexIs(d), 0).Some?
                  && path == disks[FindDisk(disks, IndexIs(d), 0).value].path
  }

  /**
   * The disk selection `set_selected_disks` chooses: a non-empty map of
   * runtime disk indexes to themselves, holding exactly the disks the listed
   * names resolve to, or exactly the devices the filter selects.
   */
  ghost predicate DisksChosen(selection: DiskSelection, filterMatch: Option<FilterMatch>, udev: UdevInfo,
                              disks: seq<Disk>, glob: Glob, chosen: map<string, string>)
  {
    && |chosen| > 0
    && (forall x :: x in chosen ==> chosen[x] == x && HasDiskIndex(disks, x))
    && match selection
       case Selection(list) =>
         forall x :: x in chosen <==> exists j :: 0 <= j < |list| && ResolvedIndex(disks, list[j]) == Some(x)
       case Filter(filter) =>
         forall x :: x in chosen <==> x in udev.disks && Selected(filter, udev.disks[x], filterMatch == Some(All), glob)
  }

  /** The errors `set_single_disk` and `set_selected_disks` can report. */
  const DISK_ERRORS: set<AutoError> :=
    {NoFilter, InvalidGlob, NoDeviceMatched, NoDevicesMatched, DiskNotFound, NoDisksSelected,
     Panic("target_hd is unset"), Panic("selected disk is not a runtime disk")}

  /**
   * The disks of an answer resolve: the listed name or the filter's first
   * match is a runtime disk (ext4, xfs), some listed name resolves or the
   * filter selects only runtime disks, at least one (ZFS, Btrfs).
   */
  ghost predicate DisksResolve(disks: Disks, udev: UdevInfo, runtimeDisks: seq<Disk>, glob: Glob)
  {
    match disks.diskSelection
    case Selection(list) =>
      if IsLvm(disks.fsType) then |list| > 0 && FindDisk(runtimeDisks, PathEndsWith(list[0]), 0).Some?
      else exists j :: 0 <= j < |list| && ResolvedIndex(runtimeDisks, list[j]).Some?
    case Filter(filter) =>
      if IsLvm(disks.fsType) then
        |filter| > 0 && exists d :: FirstMatching(filter, udev.disks, glob, d) && HasDiskIndex(runtimeDisks, d)
      else FilterSelectsRuntimeDisks(filter, disks.filterMatch == Some(All), udev, runtimeDisks, glob)
  }

  /**
   * Whether the disks resolve decides the outcome, except for an ext4 or xfs
   * filter with an invalid glob, where the key order decides.
   */
  predicate DiskOutcomeDecided(disks: Disks, glob: Glob)
  {
    IsLvm(disks.fsType) && disks.diskSelection.Filter? ==> AllGlobsValid(disks.diskSelection.filter, glob)
  }

  /** `set_disks`: the target disk for ext4 and xfs, the disk selection otherwise. */
  method SetDisks(disks: Disks, udev: UdevInfo, runtimeDisks: seq<Disk>, glob: Glob, config: InstallConfig)
    returns (r: Result<InstallConfig, AutoError>)
    requires ConsistentDisks(disks)
    requires config.targetHd.None? && |config.diskSelection| == 0
    ensures r.Ok? && IsLvm(disks.fsType) ==>
      && r.value == config.(targetHd := r.value.targetHd) && r.value.targetHd.Some?
      && TargetDiskChosen(disks.diskSelection, udev, runtimeDisks, glob, r.value.targetHd.value)
    ensures r.Ok? && !IsLvm(disks.fsType) ==>
      && r.value == config.(diskSelection := r.value.diskSelection)
      && DisksChosen(disks.diskSelection, disks.filterMatch, udev, runtimeDisks, glob, r.value.diskSelection)
    ensures r.Ok? ==> DiskChoiceFromAnswer(disks, udev, runtimeDisks, glob, r.value.targetHd, r.value.diskSelection)
    ensures IsLvm(disks.fsType) && disks.diskSelection.Selection? ==>
      (r.Ok? <==> FindDisk(runtimeDisks, PathEndsWith(disks.diskSelection.list[0]), 0).Some?)
    ensures IsLvm(disks.fsType) && disks.diskSelection.Filter? && |disks.diskSelection.filter| > 0
            && AllGlobsValid(disks.diskSelection.filter, glob) ==>
      (r.Ok? <==> exists d :: FirstMatching(disks.diskSelection.filter, udev.disks, glob, d) && HasDiskIndex(runtimeDisks, d))
    ensures !IsLvm(disks.fsType) && disks.diskSelection.Selection? ==>
      (r.Err? <==> forall j :: 0 <= j < |disks.diskSelection.list| ==> ResolvedIndex(runtimeDisks, disks.diskSelection.list[j]).None?)
    ensures !IsLvm(disks.fsType) && disks.diskSelection.Filter? ==>
      (r.Ok? <==> FilterSelectsRuntimeDisks(disks.diskSelection.filter, disks.filterMatch == Some(All), udev, runtimeDisks, glob))
    ensures IsLvm(disks.fsType) && disks.diskSelection.Filter? && |disks.diskSelection.filter| == 0 ==> r == Err(NoFilter)
    ensures r.Err? ==> r.error in DISK_ERRORS
  {
    if IsLvm(disks.fsType) {
      var target := SetSingleDisk(disks.diskSelection, udev, runtimeDisks, glob);
      if target.Err? { return Err(target.error); }
      return Ok(config.(targetHd := Some(target.value)));
    } else {
      var selection := SetSelectedDisks(disks.diskSelection, disks.filterMatch, udev, runtimeDisks, glob);
      if selection.Err? { return Err(selection.error); }
      return Ok(config.(diskSelection := selection.value));
    }
  }

  /**
   * The filesystem options of `parse_answer`. For LVM the size defaults to
   * the target disk's; for ZFS and Btrfs to the first selected disk's, found
   * by its index (see `FirstSelectedDisk`).
   */
  method ApplyFsOptions(disks: Disks, runtime: RuntimeInfo, config: InstallConfig)
    returns (r: Result<InstallConfig, AutoError>)
    requires ConsistentDisks(disks)
    requires IsLvm(disks.fsType) ==> config.targetHd.Some?
    requires !IsLvm(disks.fsType) ==> |config.diskSelection| > 0
    requires config.zfsOpts.None? && config.btrfsOpts.None?
    ensures r.Ok? ==> r.value.targetHd == config.targetHd && r.value.diskSelection == config.diskSelection
    ensures r.Ok? ==> r.value == config.(hdsize := r.value.hdsize, swapsize := r.value.swapsize,
      maxroot := r.value.maxroot, maxvz := r.value.maxvz, minfree := r.value.minfree,
      zfsOpts := r.value.zfsOpts, btrfsOpts := r.value.btrfsOpts)
    ensures r.Ok? && disks.fsOptions.LVM? ==>
      var lvm := disks.fsOptions.lvm;
      && r.value.swapsize == lvm.swapsize && r.value.maxroot == lvm.maxroot
      && r.value.maxvz == lvm.maxvz && r.value.minfree == lvm.minfree
      && r.value.hdsize == lvm.hdsize.UnwrapOr(TargetDiskSize(runtime.disks, config.targetHd.value))
    ensures disks.fsOptions.ZFS? ==> SizedByFirstKey(config.diskSelection, runtime.disks, disks.fsOptions.zfs.hdsize, r)
    ensures disks.fsOptions.BTRFS? ==> SizedByFirstKey(config.diskSelection, runtime.disks, disks.fsOptions.btrfs.hdsize, r)
    ensures r.Ok? && disks.fsOptions.ZFS? ==>
      && r.value.zfsOpts == Some(ZfsInstallOptions(disks.fsOptions.zfs, runtime.defaultZfsArcMax))
      && r.value.swapsize == config.swapsize && r.value.btrfsOpts.None?
    ensures r.Ok? && disks.fsOptions.BTRFS? ==>
      && r.value.btrfsOpts == Some(InstallBtrfsOption(disks.fsOptions.btrfs.compress.UnwrapOr(BtrfsCompressOption.Off)))
      && r.value.swapsize == config.swapsize && r.value.zfsOpts.None?
    ensures r.Err? ==> !IsLvm(disks.fsType)
    ensures r.Ok? ==> FsOptionsFromAnswer(disks, runtime, r.value)
    ensures (forall x :: x in config.diskSelection ==> HasDiskIndex(runtime.disks, x)) ==> r.Ok?
  {
    match disks.fsOptions {
      case LVM(lvm) =>
        var diskSize := TargetDiskSize(runtime.disks, config.targetHd.value);
        return Ok(config.(hdsize := lvm.hdsize.UnwrapOr(diskSize), swapsize := lvm.swapsize,
                          maxroot := lvm.maxroot, maxvz := lvm.maxvz, minfree := lvm.minfree));
      case ZFS(zfs) =>
        var first := FirstSelectedKey(config.diskSelection);
        forall k | IsLeastKey(config.diskSelection, k) ensures k == first {
          LeastKeyUnique(config.diskSelection, k, first);
        }
        var disk := FirstSelectedDisk(first, runtime.disks);
        if disk.Err? { return Err(disk.error); }
        return Ok(config.(hdsize := zfs.hdsize.UnwrapOr(disk.value.size),
                          zfsOpts := Some(ZfsInstallOptions(zfs, runtime.defaultZfsArcMax))));
      case BTRFS(btrfs) =>
        var first := FirstSelectedKey(config.diskSelection);
        forall k | IsLeastKey(config.diskSelection, k) ensures k == first {
          LeastKeyUnique(config.diskSelection, k, first);
        }
        var disk := FirstSelectedDisk(first, runtime.disks);
        if disk.Err? { return Err(disk.error); }
        return Ok(config.(hdsize := btrfs.hdsize.UnwrapOr(disk.value.size),
                          btrfsOpts := Some(InstallBtrfsOption(btrfs.compress.UnwrapOr(BtrfsCompressOption.Off)))));
    }
  }

  /**
   * The outcome of looking up the selection's first key: success exactly when
   * that key is a runtime disk index, the size given or else that disk's,
   * and otherwise the lookup's error.
   */
  ghost predicate SizedByFirstKey(selection: map<string, string>, disks: seq<Disk>, hdsize: Option<real>,
                                  r: Result<InstallConfig, AutoError>)
  {
    forall k {:trigger FirstSelectedDisk(k, disks)} :: IsLeastKey(selection, k) ==>
      && (r.Ok? <==> HasDiskIndex(disks, k))
      && (r.Ok? ==> r.value.hdsize == hdsize.UnwrapOr(FirstSelectedDisk(k, disks).value.size))
      && (r.Err? ==> r == Err(FirstSelectedDisk(k, disks).error))
  }

  /**
   * The size of the disk with the given path, the first in the list if several
   * have it, and `0.0` if none does.
   */
  function TargetDiskSize(disks: seq<Disk>, path: string): (r: real)
    ensures (forall j :: 0 <= j < |disks| ==> disks[j].path != path) ==> r == 0.0
    ensures forall j :: 0 <= j < |disks| && disks[j].path == path && (forall i :: 0 <= i < j ==> disks[i].path != path) ==>
              r == disks[j].size
  {
    match FindDisk(disks, PathIs(path), 0)
    case None => 0.0
    case Some(j) => disks[j].size
  }

  /** `k` is the first key of the selection in `BTreeMap` order. */
  predicate IsLeastKey(selection: map<string, string>, k: string)
  {
    k in selection && forall x :: x in selection ==> LexLe(k, x)
  }

  /** A selection has at most one first key. */
  lemma LeastKeyUnique(selection: map<string, string>, a: string, b: string)
    requires IsLeastKey(selection, a) && IsLeastKey(selection, b)
    ensures a == b
  {
    LexLeAntisymmetric(a, b);
  }

  /** The first key of the disk selection in `BTreeMap` order. */
  method FirstSelectedKey(selection: map<string, string>) returns (k: string)
    requires |selection| > 0
    ensures IsLeastKey(selection, k)
  {
    var keys := SortedKeys(selection);
    var some :| some in selection;
    assert some in keys;
    k := keys[0];
    forall x | x in selection ensures LexLe(k, x) {
      var j :| 0 <= j < |keys| && keys[j] == x;
      if j > 0 {
        assert LexLt(keys[0], keys[j]);
      } else {
        LexLeRefl(k);
      }
    }
  }

  /** `get_nic_list` after decoding: every link except the loopback, in order. */
  function WithoutLoopback(links: seq<string>): (r: seq<string>)
    ensures |r| <= |links|
    ensures forall x :: x in r <==> x in links && x != "lo"
  {
    if links == [] then []
    else if links[0] == "lo" then WithoutLoopback(links[1..])
    else [links[0]] + WithoutLoopback(links[1..])
  }

  /** The loop of `get_nic_list` over the decoded `ip -j link` output. */
  method GetNicList(links: seq<string>) returns (nics: seq<string>)
    ensures nics == WithoutLoopback(links)
  {
    nics := [];
    var i := 0;
    while i < |links|
      invariant 0 <= i <= |links|
      invariant nics + WithoutLoopback(links[i..]) == WithoutLoopback(links)
    {
      assert links[i..][1..] == links[i + 1..];
      if links[i] != "lo" {
        nics := nics + [links[i]];
      }
      i := i + 1;
    }
  }
}
