/**
 * `proxmox-auto-install-assistant/src/main.rs`: the argument rules of the
 * assistant's subcommands and the parsing of the tool output it reads.
 *
 * xorriso, udevadm and `/sys/block` are not run: their output and the
 * directory entries are parameters. The same `match_filter` appears in
 * `proxmox-autoinst-helper/src/main.rs`; `MatchFilter` models both.
 */
module Assistant {
  import opened Wrappers
  import opened Text
  import opened Ordered
  import opened Seqs
  import opened OptionTypes
  import opened Answer
  import opened AutoUtils

  // ---------------------------------------------------------------------
  // Device types

  datatype AllDeviceTypes = All | Network | Disk

  datatype DeviceType = Network | Disk

  datatype DeviceTypeError = UnknownDeviceType(given: string)

  function AsciiLowerChar(c: char): (r: char)
  {
    if 'A' <= c <= 'Z' then (c as int + 32) as char else c
  }

  /** ASCII lower-casing, character by character. */
  function AsciiLower(s: string): (r: string)
    ensures |r| == |s| && forall i :: 0 <= i < |s| ==> r[i] == AsciiLowerChar(s[i])
  {
    if s == [] then [] else [AsciiLowerChar(s[0])] + AsciiLower(s[1..])
  }

  predicate AllAscii(s: string) { forall i :: 0 <= i < |s| ==> IsAscii(s[i]) }

  /** `str::to_lowercase` is a parameter; on ASCII text it lower-cases the letters. */
  ghost predicate LowersAscii(lower: string -> string)
  {
    forall s :: AllAscii(s) ==> lower(s) == AsciiLower(s)
  }

  function AllDeviceTypesName(t: AllDeviceTypes): string
  {
    match t
    case All => "all"
    case Network => "network"
    case Disk => "disk"
  }

  function DeviceTypeName(t: DeviceType): string
  {
    match t
    case Network => "network"
    case Disk => "disk"
  }

  /** `FromStr for AllDeviceTypes`: one of the three names, ignoring case. */
  function AllDeviceTypesFromStr(s: string, lower: string -> string): (r: Result<AllDeviceTypes, DeviceTypeError>)
    ensures r.Ok? <==> lower(s) in {"all", "network", "disk"}
    ensures r.Ok? ==> AllDeviceTypesName(r.value) == lower(s)
    ensures r.Err? ==> r.error == UnknownDeviceType(s)
  {
    match lower(s)
    case "all" => Ok(AllDeviceTypes.All)
    case "network" => Ok(AllDeviceTypes.Network)
    case "disk" => Ok(AllDeviceTypes.Disk)
    case _ => Err(UnknownDeviceType(s))
  }

  /** `FromStr for DeviceType`: `network` or `disk`, ignoring case. */
  function DeviceTypeFromStr(s: string, lower: string -> string): (r: Result<DeviceType, DeviceTypeError>)
    ensures r.Ok? <==> lower(s) in {"network", "disk"}
    ensures r.Ok? ==> DeviceTypeName(r.value) == lower(s)
    ensures r.Err? ==> r.error == UnknownDeviceType(s)
  {
    match lower(s)
    case "network" => Ok(DeviceType.Network)
    case "disk" => Ok(DeviceType.Disk)
    case _ => Err(UnknownDeviceType(s))
  }

  /** The parsers accept their own names, and ASCII text that differs only in case parses alike. */
  lemma DeviceTypesIgnoreCase(s: string, t: string, lower: string -> string)
    requires LowersAscii(lower)
    requires AllAscii(s) && AllAscii(t) && AsciiLower(s) == AsciiLower(t)
    ensures AllDeviceTypesFromStr(s, lower).Ok? <==> AllDeviceTypesFromStr(t, lower).Ok?
    ensures AllDeviceTypesFromStr(s, lower).Ok? ==> AllDeviceTypesFromStr(s, lower) == AllDeviceTypesFromStr(t, lower)
    ensures DeviceTypeFromStr(s, lower).Ok? <==> DeviceTypeFromStr(t, lower).Ok?
    ensures DeviceTypeFromStr(s, lower).Ok? ==> DeviceTypeFromStr(s, lower) == DeviceTypeFromStr(t, lower)
  {
    assert lower(s) == AsciiLower(s) && lower(t) == AsciiLower(t);
  }

  /** An upper-case name parses: `DISK` is the disk type. */
  lemma DeviceTypesUpperCase(lower: string -> string)
    requires LowersAscii(lower)
    ensures DeviceTypeFromStr("DISK", lower) == Ok(DeviceType.Disk)
    ensures AllDeviceTypesFromStr("DISK", lower) == Ok(AllDeviceTypes.Disk)
  {
    assert AllAscii("DISK");
    var l := AsciiLower("DISK");
    assert l[0] == 'd' && l[1] == 'i' && l[2] == 's' && l[3] == 'k';
    assert l == "disk";
  }

  // ---------------------------------------------------------------------
  // Filter arguments of `device-match`

  datatype FilterArgError = EmptyKeyOrValue(filter: string) | NoSeparator(filter: string)

  /** One `KEY=VALUE` argument, split at the first `=`; neither side may be empty. */
  function FilterArg(f: string): (r: Result<(string, string), FilterArgError>)
    ensures r.Err? ==> r.error.filter == f
  {
    match SplitOnce(f, '=')
    case None => Err(NoSeparator(f))
    case Some((key, value)) =>
      if key == [] || value == [] then Err(EmptyKeyOrValue(f)) else Ok((key, value))
  }

  /** An argument is accepted exactly when its first `=` has text on both sides. */
  lemma FilterArgSpec(f: string)
    ensures FilterArg(f).Ok? <==> exists i :: 0 < i < |f| - 1 && f[i] == '=' && '=' !in f[..i]
    ensures FilterArg(f).Ok? ==> var kv := FilterArg(f).value;
      f == kv.0 + "=" + kv.1 && '=' !in kv.0 && kv.0 != [] && kv.1 != []
    ensures FilterArg(f) == Err(NoSeparator(f)) <==> '=' !in f
  {
    match SplitOnce(f, '=')
    case None =>
    case Some((key, value)) =>
      assert f[|key|] == '=' && f[..|key|] == key;
  }

  /** The pair of a well-formed argument. */
  function FilterEntry(f: string): Option<(string, string)>
  {
    if FilterArg(f).Ok? then Some(FilterArg(f).value) else None
  }

  /** The pairs of well-formed arguments, in order. */
  function FilterEntries(args: seq<string>): (r: seq<Option<(string, string)>>)
    ensures |r| == |args|
  {
    if args == [] then [] else FilterEntries(args[..|args| - 1]) + [FilterEntry(args[|args| - 1])]
  }

  lemma {:induction false} FilterEntriesSpec(args: seq<string>)
    ensures forall i :: 0 <= i < |args| ==> FilterEntries(args)[i] == FilterEntry(args[i])
  {
    if args != [] {
      var init := args[..|args| - 1];
      FilterEntriesSpec(init);
      assert forall i :: 0 <= i < |init| ==> init[i] == args[i];
    }
  }

  predicate BadArg(f: string) { FilterArg(f).Err? }

  /** The first malformed argument, in order. */
  function FirstBadArg(args: seq<string>): Option<nat>
  {
    FirstIndex(args, BadArg)
  }

  /** One more argument: its pair, if any, is inserted over the earlier ones. */
  lemma FilterEntriesStep(args: seq<string>, i: nat)
    requires i < |args| && FilterArg(args[i]).Ok?
    ensures Inserted(FilterEntries(args[..i + 1]))
            == Inserted(FilterEntries(args[..i]))[FilterArg(args[i]).value.0 := FilterArg(args[i]).value.1]
  {
    assert args[..i + 1][..i] == args[..i];
  }

  /**
   * The filter loop of `match_filter`: the first malformed argument is the
   * error; otherwise every pair is inserted into a `BTreeMap`, a later
   * duplicate key replacing the earlier value.
   */
  method ParseFilterArgs(args: seq<string>) returns (r: Result<map<string, string>, FilterArgError>)
    ensures r.Err? <==> FirstBadArg(args).Some?
    ensures r.Err? ==> FilterArg(args[FirstBadArg(args).value]) == Err(r.error)
    ensures r.Ok? ==> r.value == Inserted(FilterEntries(args))
  {
    var filters: map<string, string> := map[];
    var i := 0;
    while i < |args|
      invariant 0 <= i <= |args|
      invariant FirstBadArg(args[..i]).None?
      invariant filters == Inserted(FilterEntries(args[..i]))
    {
      FirstIndexStep(args, BadArg, i);
      var parsed := FilterArg(args[i]);
      if parsed.Err? {
        return Err(parsed.error);
      }
      FilterEntriesStep(args, i);
      filters := filters[parsed.value.0 := parsed.value.1];
      i := i + 1;
    }
    assert args[..i] == args;
    return Ok(filters);
  }

  /** Every key of the parsed filters came from an argument and holds the value of its last occurrence. */
  lemma FilterArgsLastWins(args: seq<string>, i: nat)
    requires forall j :: 0 <= j < |args| ==> FilterArg(args[j]).Ok?
    requires i < |args| && forall j :: i < j < |args| ==> FilterArg(args[j]).value.0 != FilterArg(args[i]).value.0
    ensures var filters := Inserted(FilterEntries(args));
      FilterArg(args[i]).value.0 in filters && filters[FilterArg(args[i]).value.0] == FilterArg(args[i]).value.1
  {
    var entries := FilterEntries(args);
    FilterEntriesSpec(args);
    assert LastWithKey(entries, i);
    InsertedValues(entries, i);
  }

  /** The keys of the parsed filters are exactly the keys of the arguments. */
  lemma FilterArgsKeys(args: seq<string>, k: string)
    requires forall j :: 0 <= j < |args| ==> FilterArg(args[j]).Ok?
    ensures k in Inserted(FilterEntries(args)) <==> exists j :: 0 <= j < |args| && FilterArg(args[j]).value.0 == k
  {
    var entries := FilterEntries(args);
    FilterEntriesSpec(args);
    InsertedKeys(entries);
    if k in Inserted(entries) {
      var j :| 0 <= j < |entries| && entries[j].Some? && entries[j].value.0 == k;
      assert FilterArg(args[j]).value.0 == k;
    }
    if exists j :: 0 <= j < |args| && FilterArg(args[j]).value.0 == k {
      var j :| 0 <= j < |args| && FilterArg(args[j]).value.0 == k;
      assert entries[j].Some? && entries[j].value.0 == k;
    }
  }

  /** Well-formed arguments give no filter exactly when there are none. */
  lemma FilterArgsEmpty(args: seq<string>)
    requires FirstBadArg(args).None?
    ensures |Inserted(FilterEntries(args))| == 0 <==> |args| == 0
  {
    FirstIndexSpec(args, BadArg);
    if |args| > 0 {
      FilterArgsKeys(args, FilterArg(args[0]).value.0);
    }
  }

  datatype MatchFilterError = BadFilter(filterCause: FilterArgError) | MatchFailed(matchCause: AutoError)

  /**
   * The outcome of matching disks: success exactly when every glob compiles
   * and some device is selected; an invalid glob is reported whenever there is
   * a device; otherwise nothing matched.
   */
  ghost predicate DisksMatched(filters: map<string, string>, devs: map<string, map<string, string>>, matchAll: bool,
                               glob: Glob, r: Result<seq<string>, MatchFilterError>)
  {
    && (r.Ok? <==> AllGlobsValid(filters, glob) && exists d :: d in devs && Selected(filters, devs[d], matchAll, glob))
    && (r == Err(MatchFailed(InvalidGlob)) <==> |devs| > 0 && !AllGlobsValid(filters, glob))
    && (r.Err? ==> r.error == MatchFailed(InvalidGlob) || r.error == MatchFailed(NoDevicesMatched))
    && (r == Err(MatchFailed(NoDevicesMatched)) ==> forall d :: d in devs ==> !Selected(filters, devs[d], matchAll, glob))
  }

  /**
   * The outcome of matching a network device for `argCount` filter
   * arguments: no argument is the no-filter error; an invalid glob needs a
   * device and a bad glob; no match means no device matches; with valid globs
   * it succeeds exactly when some device matches.
   */
  ghost predicate NetworkMatched(filters: map<string, string>, argCount: nat, devs: map<string, map<string, string>>,
                                 glob: Glob, r: Result<seq<string>, MatchFilterError>)
  {
    && (r == Err(MatchFailed(NoFilter)) <==> argCount == 0)
    && (r.Err? ==> r.error.MatchFailed? && r.error.matchCause in {NoFilter, InvalidGlob, NoDeviceMatched})
    && (r == Err(MatchFailed(InvalidGlob)) ==> !AllGlobsValid(filters, glob) && |devs| > 0)
    && (r == Err(MatchFailed(NoDeviceMatched)) ==> forall d :: d in devs ==> !MatchesAny(filters, devs[d], glob))
    && (AllGlobsValid(filters, glob) && argCount > 0 ==>
          (r.Ok? <==> exists d :: d in devs && MatchesAny(filters, devs[d], glob)))
  }

  /**
   * `match_filter` after the devices are read: disks are matched with
   * `get_matched_udev_indexes`, a network device with `get_single_udev_index`,
   * whose one index is returned as a one-element list.
   */
  method MatchFilter(deviceType: DeviceType, args: seq<string>, devs: map<string, map<string, string>>,
                     filterMatch: FilterMatch, glob: Glob)
    returns (r: Result<seq<string>, MatchFilterError>)
    ensures FirstBadArg(args).Some? <==> r.Err? && r.error.BadFilter?
    ensures r.Err? && r.error.BadFilter? ==> FilterArg(args[FirstBadArg(args).value]) == Err(r.error.filterCause)
    ensures r.Ok? ==>
      var filters := Inserted(FilterEntries(args));
      && (deviceType.Disk? ==>
            && |r.value| > 0 && StrictlySorted(r.value)
            && forall d :: d in r.value <==> d in devs && Selected(filters, devs[d], filterMatch == FilterMatch.All, glob))
      && (deviceType.Network? ==> |r.value| == 1 && FirstMatching(filters, devs, glob, r.value[0]))
    ensures FirstBadArg(args).None? && deviceType.Disk? ==>
      DisksMatched(Inserted(FilterEntries(args)), devs, filterMatch == FilterMatch.All, glob, r)
    ensures FirstBadArg(args).None? && deviceType.Network? ==>
      NetworkMatched(Inserted(FilterEntries(args)), |args|, devs, glob, r)
  {
    var filters := ParseFilterArgs(args);
    if filters.Err? {
      return Err(BadFilter(filters.error));
    }
    FilterArgsEmpty(args);
    match deviceType {
      case Disk =>
        var indexes := GetMatchedUdevIndexes(filters.value, devs, filterMatch == FilterMatch.All, glob);
        if indexes.Err? {
          if exists d :: d in devs && Selected(filters.value, devs[d], filterMatch == FilterMatch.All, glob) {
            var d :| d in devs && Selected(filters.value, devs[d], filterMatch == FilterMatch.All, glob);
            assert |devs| > 0 by { assert d in devs.Keys; }
          }
          return Err(MatchFailed(indexes.error));
        }
        var first := indexes.value[0];
        assert first in indexes.value;
        assert |devs| > 0 by { assert first in devs.Keys; }
        return Ok(indexes.value);
      case Network =>
        var index := GetSingleUdevIndex(filters.value, devs, glob);
        if index.Err? {
          return Err(MatchFailed(index.error));
        }
        return Ok([index.value]);
    }
  }

  // ---------------------------------------------------------------------
  // Deprecated answer-file keys

  /** A parsed TOML document: tables of keyed entries, and everything else. */
  datatype TomlValue = Table(entries: seq<TomlEntry>) | Scalar
  datatype TomlEntry = TomlEntry(key: string, value: TomlValue)

  /** The filter tables hold udev property names, which may contain `_`. */
  predicate FilterSection(section: seq<string>)
  {
    section == ["network", "filter"] || section == ["disk-setup", "filter"]
  }

  /** No key of `v`, at any depth outside the filter tables, contains `_`. */
  predicate KeysValid(section: seq<string>, v: TomlValue)
    decreases v
  {
    FilterSection(section)
    || match v
       case Scalar => true
       case Table(entries) =>
         forall i :: 0 <= i < |entries| ==>
           '_' !in entries[i].key && KeysValid(section + [entries[i].key], entries[i].value)
  }

  /**
   * `validate` of `validate_answer_file_keys`: every entry is visited, even
   * after a bad one, and the verdict is the conjunction over all of them.
   */
  method ValidateKeys(section: seq<string>, v: TomlValue) returns (valid: bool)
    ensures valid == KeysValid(section, v)
    decreases v
  {
    if FilterSection(section) {
      return true;
    }
    valid := true;
    match v {
      case Scalar =>
      case Table(entries) =>
        var i := 0;
        while i < |entries|
          invariant 0 <= i <= |entries|
          invariant valid == forall j :: 0 <= j < i ==>
            '_' !in entries[j].key && KeysValid(section + [entries[j].key], entries[j].value)
        {
          var entry := entries[i];
          if '_' in entry.key {
            valid := false;
          }
          var nested := ValidateKeys(section + [entry.key], entry.value);
          valid := valid && nested;
          i := i + 1;
        }
    }
  }

  /** Underscores are accepted in the filter tables. */
  lemma KeysValidInFilter()
    ensures KeysValid([], Table([TomlEntry("disk-setup", Table([TomlEntry("filter", Table([TomlEntry("ID_SERIAL", Scalar)]))]))]))
  {
    var filterTable := Table([TomlEntry("filter", Table([TomlEntry("ID_SERIAL", Scalar)]))]);
    assert ["disk-setup"] + ["filter"] == ["disk-setup", "filter"];
    assert KeysValid(["disk-setup"], filterTable);
  }

  /** Underscores are rejected everywhere else, at the top level and nested. */
  lemma KeysInvalidElsewhere()
    ensures !KeysValid([], Table([TomlEntry("global", Table([TomlEntry("root_password", Scalar)]))]))
    ensures !KeysValid([], Table([TomlEntry("network", Scalar), TomlEntry("root_password", Scalar)]))
  {
    var inner := Table([TomlEntry("root_password", Scalar)]);
    assert '_' in "root_password";
    var global := Table([TomlEntry("global", inner)]);
    assert !KeysValid([] + [global.entries[0].key], global.entries[0].value) by {
      assert [] + [global.entries[0].key] == ["global"];
      assert !FilterSection(["global"]);
      assert inner.entries[0].key == "root_password";
    }
    var doc := Table([TomlEntry("network", Scalar), TomlEntry("root_password", Scalar)]);
    assert doc.entries[1].key == "root_password";
  }

  /** A table's keys are valid exactly when each entry's key and value are. */
  lemma KeysValidTable(section: seq<string>, entries: seq<TomlEntry>, extra: TomlEntry)
    requires !FilterSection(section)
    ensures KeysValid(section, Table(entries + [extra])) <==>
      KeysValid(section, Table(entries)) && '_' !in extra.key && KeysValid(section + [extra.key], extra.value)
  {
    var all := entries + [extra];
    assert forall i :: 0 <= i < |entries| ==> all[i] == entries[i];
    assert all[|entries|] == extra;
  }

  // ---------------------------------------------------------------------
  // prepare-iso

  datatype FetchAnswerFrom = Iso | Http | Partition

  /**
   * The input ISO path as `Path` decomposes it: its parent and its file
   * name, each absent where `Path::parent` or `Path::file_name` is `None`.
   */
  datatype IsoPath = IsoPath(parent: Option<string>, fileName: Option<string>)

  /** The `prepare-iso` arguments that the checks and the file name depend on. */
  datatype PrepareArgs = PrepareArgs(
    input: IsoPath,
    output: Option<string>,
    fetchFrom: FetchAnswerFrom,
    answerFile: Option<string>,
    url: Option<string>,
    certFingerprint: Option<string>,
    onFirstBoot: Option<string>)

  datatype PrepareError =
    | MissingAnswerFile
    | UrlNeedsHttp(urlMode: FetchAnswerFrom)
    | FingerprintNeedsHttp(fingerprintMode: FetchAnswerFrom)
    | AnswerFileNeedsIso
    | FirstBootTooLarge(maxMiB: nat)
    | PathPanic(reason: string)

  /**
   * The argument checks of `prepare_iso`, in order, then the size of the
   * first-boot executable (`firstBootSize`, its file length when one is given).
   */
  function CheckPrepareArgs(args: PrepareArgs, firstBootSize: nat): (r: Result<(), PrepareError>)
    ensures r.Ok? <==>
      && (args.fetchFrom == Iso ==> args.answerFile.Some?)
      && (args.url.Some? ==> args.fetchFrom == Http)
      && (args.certFingerprint.Some? ==> args.fetchFrom == Http)
      && (args.answerFile.Some? ==> args.fetchFrom == Iso)
      && (args.onFirstBoot.Some? ==> firstBootSize <= FIRST_BOOT_EXEC_MAX_SIZE)
    ensures args.fetchFrom == Iso && args.answerFile.None? ==> r == Err(MissingAnswerFile)
    ensures args.fetchFrom != Iso && args.url.Some? && args.fetchFrom != Http ==> r == Err(UrlNeedsHttp(args.fetchFrom))
    ensures r == Err(FirstBootTooLarge(1)) <==>
      && (args.fetchFrom == Iso <==> args.answerFile.Some?)
      && ((args.url.Some? || args.certFingerprint.Some?) ==> args.fetchFrom == Http)
      && args.onFirstBoot.Some? && firstBootSize > FIRST_BOOT_EXEC_MAX_SIZE
  {
    if args.fetchFrom == Iso && args.answerFile.None? then Err(MissingAnswerFile)
    else if args.url.Some? && args.fetchFrom != Http then Err(UrlNeedsHttp(args.fetchFrom))
    else if args.certFingerprint.Some? && args.fetchFrom != Http then Err(FingerprintNeedsHttp(args.fetchFrom))
    else if args.answerFile.Some? && args.fetchFrom != Iso then Err(AnswerFileNeedsIso)
    else if args.onFirstBoot.Some? && firstBootSize > FIRST_BOOT_EXEC_MAX_SIZE then
      Err(FirstBootTooLarge(FIRST_BOOT_EXEC_MAX_SIZE / 1024 / 1024))
    else Ok(())
  }

  /** An answer file needs the `iso` mode and an URL the `http` mode, so the two never go together. */
  lemma PrepareAnswerFileExcludesUrl(args: PrepareArgs, firstBootSize: nat)
    requires CheckPrepareArgs(args, firstBootSize).Ok?
    ensures !(args.answerFile.Some? && (args.url.Some? || args.certFingerprint.Some?))
    ensures args.fetchFrom == Partition ==> args.answerFile.None? && args.url.None? && args.certFingerprint.None?
  {
  }

  /** `Path::file_stem` of a file name: the text before the last `.`, unless that `.` starts the name. */
  function FileStem(name: string): (r: string)
    ensures r <= name
    ensures r == name || (0 < |r| && name[|r|] == '.' && '.' !in name[|r| + 1..])
    ensures |name| > 0 && '.' !in name[1..] ==> r == name
  {
    match LastIndexOf(name, '.')
    case None => name
    case Some(k) => if k == 0 then name else name[..k]
  }

  /** Position of the last occurrence of `c`. */
  function LastIndexOf(s: string, c: char): (r: Option<nat>)
    ensures r.None? <==> c !in s
    ensures r.Some? ==> r.value < |s| && s[r.value] == c && c !in s[r.value + 1..]
  {
    if s == [] then None
    else if s[|s| - 1] == c then Some(|s| - 1)
    else
      var r := LastIndexOf(s[..|s| - 1], c);
      assert forall i :: 0 <= i < |s| - 1 ==> s[..|s| - 1][i] == s[i];
      r
  }

  /** `PathBuf::push` of a relative name without separators. */
  function PushPath(base: string, name: string): (r: string)
    ensures EndsWith(r, name)
  {
    if base == [] then name
    else if base[|base| - 1] == '/' then base + name
    else base + "/" + name
  }

  /** The mode part of the generated name. */
  function ModeName(mode: FetchAnswerFrom): (r: string)
    ensures |r| >= 3
  {
    match mode
    case Http => "auto-from-http"
    case Iso => "auto-from-iso"
    case Partition => "auto-from-partition"
  }

  /**
   * `final_iso_location`: the explicit `--output`, or the input's stem with
   * the mode, `-url` and `-fp` markers and `.iso`, next to the input. The
   * unwrapped parent and file stem panic when absent.
   */
  method FinalIsoLocation(args: PrepareArgs) returns (r: Result<string, PrepareError>)
    ensures args.output.Some? ==> r == Ok(args.output.value)
    ensures args.output.None? ==> (r.Ok? <==> args.input.parent.Some? && args.input.fileName.Some?)
    ensures args.output.None? && r.Ok? ==>
      r.value == PushPath(args.input.parent.value,
                          FileStem(args.input.fileName.value) + "-" +
                          IsoSuffix(args.fetchFrom, args.url.Some?, args.certFingerprint.Some?) + ".iso")
  {
    if args.output.Some? {
      return Ok(args.output.value);
    }
    var suffix := ModeName(args.fetchFrom);
    if args.url.Some? {
      suffix := suffix + "-url";
    }
    if args.certFingerprint.Some? {
      suffix := suffix + "-fp";
    }
    if args.input.parent.None? {
      return Err(PathPanic("input has no parent"));
    }
    if args.input.fileName.None? {
      return Err(PathPanic("input has no file stem"));
    }
    var stem := FileStem(args.input.fileName.value);
    return Ok(PushPath(args.input.parent.value, stem + "-" + suffix + ".iso"));
  }

  /** The suffix for a mode and the presence of an URL and of a fingerprint. */
  function IsoSuffix(mode: FetchAnswerFrom, url: bool, fingerprint: bool): (r: string)
    ensures StartsWith(r, ModeName(mode))
  {
    ModeName(mode) + (if url then "-url" else "") + (if fingerprint then "-fp" else "")
  }

  /** Different modes or markers never yield the same suffix, so generated names do not collide. */
  lemma IsoSuffixInjective(m1: FetchAnswerFrom, u1: bool, f1: bool, m2: FetchAnswerFrom, u2: bool, f2: bool)
    requires IsoSuffix(m1, u1, f1) == IsoSuffix(m2, u2, f2)
    ensures m1 == m2 && u1 == u2 && f1 == f2
  {
    var s := IsoSuffix(m1, u1, f1);
    assert s[10] == ModeName(m1)[10] && s[10] == ModeName(m2)[10];
    assert m1 == m2;
    var n := |ModeName(m1)|;
    assert s == ModeName(m1) + (if u1 then "-url" else "") + (if f1 then "-fp" else "");
    assert s == ModeName(m1) + (if u2 then "-url" else "") + (if f2 then "-fp" else "");
    assert |s| == n + (if u1 then 4 else 0) + (if f1 then 3 else 0);
    assert |s| == n + (if u2 then 4 else 0) + (if f2 then 3 else 0);
  }

  // ---------------------------------------------------------------------
  // ISO volume UUID

  const VOLUME_UUID_PREFIX: string := "-volume_date uuid"

  predicate IsUuidLine(line: string) { StartsWith(line, VOLUME_UUID_PREFIX) }

  /** The last space-separated token of a line. */
  function LastToken(line: string): (r: string)
    ensures ' ' !in r
  {
    var tokens := Split(line, ' ');
    tokens[|tokens| - 1]
  }

  /** A token without single quotes and surrounding whitespace. */
  function Unquoted(token: string): (r: string)
    ensures '\'' !in r
    ensures ' ' !in token ==> ' ' !in r
  {
    RemoveCharKeepsAll(token, '\'', ' ');
    TrimExcludes(RemoveChar(token, '\''), '\'');
    Trim(RemoveChar(token, '\''))
  }

  /** The uuid of a uuid line: its last token, unquoted and trimmed. */
  function UuidFromLine(line: string): (r: string)
    ensures '\'' !in r && ' ' !in r
  {
    Unquoted(LastToken(line))
  }

  /** Removing one character adds no other. */
  lemma {:induction false} RemoveCharKeeps(s: string, c: char, d: char)
    requires d !in s
    ensures d !in RemoveChar(s, c)
  {
    if s != [] {
      RemoveCharKeeps(s[1..], c, d);
    }
  }

  lemma RemoveCharKeepsAll(s: string, c: char, d: char)
    ensures d !in s ==> d !in RemoveChar(s, c) && d !in Trim(RemoveChar(s, c))
  {
    if d !in s {
      RemoveCharKeeps(s, c, d);
      TrimExcludes(RemoveChar(s, c), d);
    }
  }

  /** The token after the last space is the last token. */
  lemma LastTokenAfterSpace(head: string, token: string)
    requires ' ' !in token
    ensures LastToken(head + [' '] + token) == token
  {
    SplitLast(head, token, ' ');
  }

  /** After the last space comes the uuid, with its quotes removed. */
  lemma UuidIsLastToken(head: string, token: string)
    requires ' ' !in token
    ensures UuidFromLine(head + [' '] + token) == Unquoted(token)
  {
    LastTokenAfterSpace(head, token);
  }

  /** The position of the first line starting with `-volume_date uuid`. */
  function FirstUuidLine(lines: seq<string>): Option<nat>
  {
    FirstIndex(lines, IsUuidLine)
  }

  /**
   * From `get_iso_uuid`: the uuid of the first line of xorriso's system-area
   * report that starts with `-volume_date uuid`, or empty text without one.
   */
  method GetIsoUuid(report: string) returns (uuid: string)
    ensures FirstUuidLine(Lines(report)).None? ==> uuid == ""
    ensures FirstUuidLine(Lines(report)).Some? ==> uuid == UuidFromLine(Lines(report)[FirstUuidLine(Lines(report)).value])
  {
    uuid := UuidOfLines(Lines(report));
  }

  /** The line loop of `get_iso_uuid`, stopping at the first uuid line. */
  method UuidOfLines(lines: seq<string>) returns (uuid: string)
    ensures FirstUuidLine(lines).None? ==> uuid == ""
    ensures FirstUuidLine(lines).Some? ==> uuid == UuidFromLine(lines[FirstUuidLine(lines).value])
  {
    var i := 0;
    while i < |lines|
      invariant 0 <= i <= |lines|
      invariant FirstUuidLine(lines[..i]).None?
    {
      FirstIndexStep(lines, IsUuidLine, i);
      if IsUuidLine(lines[i]) {
        return UuidFromLine(lines[i]);
      }
      i := i + 1;
    }
    assert lines[..i] == lines;
    return "";
  }

  // ---------------------------------------------------------------------
  // udev disk properties

  const PROP_DEVTYPE_PREFIX: string := "E: DEVTYPE="
  const PROP_CDROM: string := "E: ID_CDROM"
  const PROP_ISO9660_FS: string := "E: ID_FS_TYPE=iso9660"

  /** `p` followed by an ASCII digit and anything: the globs `ram[0-9]*` and the like. */
  predicate PrefixThenDigit(name: string, p: string)
  {
    |name| > |p| && StartsWith(name, p) && IsAsciiDigit(name[|p|])
  }

  /** RAM disks, loop devices, md and device-mapper devices, floppies and optical drives. */
  predicate UnwantedBlockDev(name: string)
  {
    || PrefixThenDigit(name, "ram") || PrefixThenDigit(name, "loop") || PrefixThenDigit(name, "md")
    || StartsWith(name, "dm-") || PrefixThenDigit(name, "fd") || PrefixThenDigit(name, "sr")
  }

  /** A DEVTYPE other than `disk`, a CD-ROM, or an ISO 9660 filesystem. */
  predicate DropsDevice(line: string)
  {
    || (StripPrefix(line, PROP_DEVTYPE_PREFIX).Some? && StripPrefix(line, PROP_DEVTYPE_PREFIX).value != "disk")
    || StartsWith(line, PROP_CDROM)
    || StartsWith(line, PROP_ISO9660_FS)
  }

  /** Some line discards the device. */
  predicate DropsAny(lines: seq<string>)
  {
    AnyHas(lines, DropsDevice)
  }

  /** The property of an `E: key=value` line. */
  function PropertyOf(line: string): (r: Option<(string, string)>)
    ensures r.Some? ==> line == "E: " + r.value.0 + "=" + r.value.1 && '=' !in r.value.0
  {
    match StripPrefix(line, "E: ")
    case None => None
    case Some(prop) => SplitOnce(prop, '=')
  }

  function PropertyEntries(lines: seq<string>): (r: seq<Option<(string, string)>>)
    ensures |r| == |lines|
  {
    if lines == [] then [] else PropertyEntries(lines[..|lines| - 1]) + [PropertyOf(lines[|lines| - 1])]
  }

  lemma {:induction false} PropertyEntriesSpec(lines: seq<string>)
    ensures forall i :: 0 <= i < |lines| ==> PropertyEntries(lines)[i] == PropertyOf(lines[i])
  {
    if lines != [] {
      var init := lines[..|lines| - 1];
      PropertyEntriesSpec(init);
      assert forall i :: 0 <= i < |init| ==> init[i] == lines[i];
    }
  }

  predicate IsNameLine(line: string) { StripPrefix(line, "N: ").Some? }

  /** The name of the last `N: ` line, or the directory entry's name without one. */
  function DeviceName(fileName: string, lines: seq<string>): string
  {
    match LastIndex(lines, IsNameLine)
    case None => fileName
    case Some(k) =>
      LastIndexSpec(lines, IsNameLine);
      StripPrefix(lines[k], "N: ").value
  }

  /** The device is named by its last `N: ` line, and keeps the directory entry's name without one. */
  lemma DeviceNameSpec(fileName: string, lines: seq<string>)
    ensures (forall i :: 0 <= i < |lines| ==> StripPrefix(lines[i], "N: ").None?) ==> DeviceName(fileName, lines) == fileName
    ensures forall i :: 0 <= i < |lines| && StripPrefix(lines[i], "N: ").Some?
                        && (forall j :: i < j < |lines| ==> StripPrefix(lines[j], "N: ").None?) ==>
                        DeviceName(fileName, lines) == StripPrefix(lines[i], "N: ").value
  {
    LastIndexSpec(lines, IsNameLine);
  }

  /** One more line: an `N: ` line renames the device. */
  lemma DeviceNameStep(fileName: string, lines: seq<string>, i: nat)
    requires i < |lines|
    ensures DeviceName(fileName, lines[..i + 1])
            == if StripPrefix(lines[i], "N: ").Some? then StripPrefix(lines[i], "N: ").value
               else DeviceName(fileName, lines[..i])
  {
    LastIndexStep(lines, IsNameLine, i);
  }

  /** One more line: an `E: key=value` line sets a property over the earlier ones. */
  lemma PropertyEntriesStep(lines: seq<string>, i: nat)
    requires i < |lines|
    ensures Inserted(PropertyEntries(lines[..i + 1]))
            == if PropertyOf(lines[i]).Some?
               then Inserted(PropertyEntries(lines[..i]))[PropertyOf(lines[i]).value.0 := PropertyOf(lines[i]).value.1]
               else Inserted(PropertyEntries(lines[..i]))
  {
    assert lines[..i + 1][..i] == lines[..i];
  }

  /**
   * The line loop of `get_disks` for one block device: a dropping line
   * discards the device, the last `N: ` line names it, and `E: key=value`
   * lines fill its property map in order.
   */
  method ParseUdevDisk(fileName: string, output: string) returns (r: Option<(string, map<string, string>)>)
    ensures r.None? <==> DropsAny(Lines(output))
    ensures r.Some? ==> r.value.0 == DeviceName(fileName, Lines(output))
    ensures r.Some? ==> r.value.1 == Inserted(PropertyEntries(Lines(output)))
  {
    var lines := Lines(output);
    var name := fileName;
    var props: map<string, string> := map[];
    var i := 0;
    while i < |lines|
      invariant 0 <= i <= |lines|
      invariant !DropsAny(lines[..i])
      invariant name == DeviceName(fileName, lines[..i])
      invariant props == Inserted(PropertyEntries(lines[..i]))
    {
      var line := lines[i];
      var devtype := StripPrefix(line, PROP_DEVTYPE_PREFIX);
      if devtype.Some? && devtype.value != "disk" {
        assert DropsDevice(lines[i]);
        return None;
      }
      if StartsWith(line, PROP_CDROM) || StartsWith(line, PROP_ISO9660_FS) {
        assert DropsDevice(lines[i]);
        return None;
      }
      AnyHasStep(lines, DropsDevice, i);
      DeviceNameStep(fileName, lines, i);
      PropertyEntriesStep(lines, i);
      var named := StripPrefix(line, "N: ");
      if named.Some? {
        name := named.value;
      }
      var kv := PropertyOf(line);
      if kv.Some? {
        props := props[kv.value.0 := kv.value.1];
      }
      i := i + 1;
    }
    assert lines[..i] == lines;
    return Some((name, props));
  }

  /** A `/sys/block` entry with the udevadm report for it, absent where udevadm failed. */
  datatype BlockEntry = BlockEntry(fileName: string, udevOutput: Option<string>)

  /** What one directory entry contributes to the disk map. */
  function DiskEntry(e: BlockEntry): (r: Option<(string, map<string, string>)>)
    ensures r.Some? <==> !UnwantedBlockDev(e.fileName) && e.udevOutput.Some? && !DropsAny(Lines(e.udevOutput.value))
  {
    if UnwantedBlockDev(e.fileName) || e.udevOutput.None? then None
    else
      var lines := Lines(e.udevOutput.value);
      if DropsAny(lines) then None
      else Some((DeviceName(e.fileName, lines), Inserted(PropertyEntries(lines))))
  }

  function DiskEntries(entries: seq<BlockEntry>): (r: seq<Option<(string, map<string, string>)>>)
    ensures |r| == |entries|
  {
    if entries == [] then [] else DiskEntries(entries[..|entries| - 1]) + [DiskEntry(entries[|entries| - 1])]
  }

  lemma {:induction false} DiskEntriesSpec(entries: seq<BlockEntry>)
    ensures forall i :: 0 <= i < |entries| ==> DiskEntries(entries)[i] == DiskEntry(entries[i])
  {
    if entries != [] {
      var init := entries[..|entries| - 1];
      DiskEntriesSpec(init);
      assert forall i :: 0 <= i < |init| ==> init[i] == entries[i];
    }
  }

  /**
   * `get_disks`: the wanted block devices that udev reports as disks, keyed
   * by device name; a later entry with the same name replaces an earlier one.
   */
  method GetDisks(entries: seq<BlockEntry>) returns (disks: map<string, map<string, string>>)
    ensures disks == Inserted(DiskEntries(entries))
  {
    disks := map[];
    var i := 0;
    while i < |entries|
      invariant 0 <= i <= |entries|
      invariant disks == Inserted(DiskEntries(entries[..i]))
    {
      assert entries[..i + 1][..i] == entries[..i];
      var entry := entries[i];
      if !UnwantedBlockDev(entry.fileName) && entry.udevOutput.Some? {
        var parsed := ParseUdevDisk(entry.fileName, entry.udevOutput.value);
        if parsed.Some? {
          disks := disks[parsed.value.0 := parsed.value.1];
        }
      }
      i := i + 1;
    }
    assert entries[..i] == entries;
  }

  /** Every reported disk comes from a wanted block device that udev reported on: entry `i`. */
  lemma GetDisksWanted(entries: seq<BlockEntry>, name: string) returns (i: nat)
    requires name in Inserted(DiskEntries(entries))
    ensures i < |entries| && DiskEntry(entries[i]).Some? && DiskEntry(entries[i]).value.0 == name
  {
    i := InsertedWitness(DiskEntries(entries), name);
    DiskEntriesSpec(entries);
  }
}
