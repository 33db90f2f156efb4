/**
 * `proxmox-tui-installer/src/options.rs`: the file-system choices of the
 * TUI, the default password options, the options collected by the dialogs
 * and the summary rows shown before the installation starts.
 *
 * `Display for IpAddr` is a parameter (`showIp`).
 */
module TuiOptions {
  import opened Wrappers
  import opened Text
  import opened OptionTypes
  import opened CommonUtils
  import opened CommonSetup
  import opened CommonOptions

  // ---------------------------------------------------------------------
  // File-system choices

  /** `FS_TYPES`: the entries of the file-system selection, in display order. */
  const FS_TYPES: seq<FsType> := [
    Ext4,
    Xfs,
    FsType.Zfs(ZfsRaidLevel.Raid0),
    FsType.Zfs(ZfsRaidLevel.Raid1),
    FsType.Zfs(ZfsRaidLevel.Raid10),
    FsType.Zfs(ZfsRaidLevel.RaidZ),
    FsType.Zfs(ZfsRaidLevel.RaidZ2),
    FsType.Zfs(ZfsRaidLevel.RaidZ3),
    FsType.Btrfs(BtrfsRaidLevel.Raid0),
    FsType.Btrfs(BtrfsRaidLevel.Raid1),
    FsType.Btrfs(BtrfsRaidLevel.Raid10)
  ]

  /** Every file system and RAID level the installer knows is offered. */
  lemma FsTypesComplete(fs: FsType)
    ensures fs in FS_TYPES
  {
    match fs
    case Ext4 => assert FS_TYPES[0] == fs;
    case Xfs => assert FS_TYPES[1] == fs;
    case Zfs(level) =>
      match level {
        case Raid0 => assert FS_TYPES[2] == fs;
        case Raid1 => assert FS_TYPES[3] == fs;
        case Raid10 => assert FS_TYPES[4] == fs;
        case RaidZ => assert FS_TYPES[5] == fs;
        case RaidZ2 => assert FS_TYPES[6] == fs;
        case RaidZ3 => assert FS_TYPES[7] == fs;
      }
    case Btrfs(level) =>
      match level {
        case Raid0 => assert FS_TYPES[8] == fs;
        case Raid1 => assert FS_TYPES[9] == fs;
        case Raid10 => assert FS_TYPES[10] == fs;
      }
  }

  /** ... and each of them exactly once. */
  lemma FsTypesDistinct()
    ensures |FS_TYPES| == 11
    ensures forall i, j :: 0 <= i < j < |FS_TYPES| ==> FS_TYPES[i] != FS_TYPES[j]
  {
  }

  // ---------------------------------------------------------------------
  // Password options

  datatype PasswordOptions = PasswordOptions(email: string, rootPassword: string)

  /**
   * `Default for PasswordOptions`: the placeholder address and an empty
   * password, neither of which the password dialog lets through.
   */
  function DefaultPasswordOptions(): (r: PasswordOptions)
    ensures r.email == EMAIL_DEFAULT_PLACEHOLDER && r.rootPassword == []
    ensures forall matchesPattern :: EmailValidate(r.email, matchesPattern).Err?
    ensures |r.rootPassword| < ROOT_PASSWORD_MIN_LENGTH
  {
    PasswordOptions(EMAIL_DEFAULT_PLACEHOLDER, [])
  }

  // ---------------------------------------------------------------------
  // The options of the TUI and their summary

  /** `InstallerOptions`: what the dialogs collected. */
  datatype InstallerOptions = InstallerOptions(
    bootdisk: BootdiskOptions,
    timezone: TimezoneOptions,
    password: PasswordOptions,
    network: NetworkOptions,
    autoreboot: bool)

  /** One row of the summary dialog. */
  datatype SummaryOption = SummaryOption(name: string, value: string)

  const SUMMARY_NAMES: seq<string> := [
    "Bootdisk filesystem",
    "Bootdisk(s)",
    "Timezone",
    "Keyboard layout",
    "Administrator email",
    "Management interface",
    "Hostname",
    "Host IP (CIDR)",
    "Gateway",
    "DNS"
  ]

  /** The keyboard layout as shown: the name of a known layout, or the raw layout key. */
  function KeyboardLayoutName(kbLayout: string, locales: LocaleInfo): (r: string)
    ensures kbLayout in locales.kmap ==> r == locales.kmap[kbLayout].name
    ensures kbLayout !in locales.kmap ==> r == kbLayout
  {
    if kbLayout in locales.kmap then locales.kmap[kbLayout].name else kbLayout
  }

  function DiskPaths(disks: seq<Disk>): (r: seq<string>)
    ensures |r| == |disks|
    ensures forall i :: 0 <= i < |disks| ==> r[i] == disks[i].path
  {
    seq(|disks|, i requires 0 <= i < |disks| => disks[i].path)
  }

  /** `InstallerOptions::to_summary`. */
  function ToSummary(o: InstallerOptions, locales: LocaleInfo, showIp: IpAddr -> string): (r: seq<SummaryOption>)
    ensures |r| == |SUMMARY_NAMES|
    ensures forall i :: 0 <= i < |r| ==> r[i].name == SUMMARY_NAMES[i]
  {
    [ SummaryOption(SUMMARY_NAMES[0], FsTypeDisplay(o.bootdisk.fstype)),
      SummaryOption(SUMMARY_NAMES[1], Join(DiskPaths(o.bootdisk.disks), ", ")),
      SummaryOption(SUMMARY_NAMES[2], o.timezone.timezone),
      SummaryOption(SUMMARY_NAMES[3], KeyboardLayoutName(o.timezone.kbLayout, locales)),
      SummaryOption(SUMMARY_NAMES[4], o.password.email),
      SummaryOption(SUMMARY_NAMES[5], o.network.ifname),
      SummaryOption(SUMMARY_NAMES[6], o.network.fqdn.ToString()),
      SummaryOption(SUMMARY_NAMES[7], ShowCidr(o.network.address, showIp)),
      SummaryOption(SUMMARY_NAMES[8], showIp(o.network.gateway)),
      SummaryOption(SUMMARY_NAMES[9], showIp(o.network.dnsServer)) ]
  }

  /** Ten rows, from the file system to the DNS server. */
  lemma SummaryShape(o: InstallerOptions, locales: LocaleInfo, showIp: IpAddr -> string)
    ensures var r := ToSummary(o, locales, showIp);
      |r| == 10 && r[0].name == "Bootdisk filesystem" && r[9].name == "DNS"
  {
  }

  /** The keyboard row names a known layout, and shows an unknown layout key as it is. */
  lemma SummaryKeyboard(o: InstallerOptions, locales: LocaleInfo, showIp: IpAddr -> string)
    ensures var row := ToSummary(o, locales, showIp)[3];
      row.name == "Keyboard layout"
      && (o.timezone.kbLayout in locales.kmap ==> row.value == locales.kmap[o.timezone.kbLayout].name)
      && (o.timezone.kbLayout !in locales.kmap ==> row.value == o.timezone.kbLayout)
  {
  }

  /** The network rows, in their display forms. */
  lemma SummaryNetwork(o: InstallerOptions, locales: LocaleInfo, showIp: IpAddr -> string)
    ensures var r := ToSummary(o, locales, showIp);
      && r[5].value == o.network.ifname
      && r[6].value == Join(o.network.fqdn.parts, ".")
      && r[7].value == showIp(o.network.address.addr) + "/" + NatToString(o.network.address.mask)
      && r[8].value == showIp(o.network.gateway)
      && r[9].value == showIp(o.network.dnsServer)
  {
  }

  // ---------------------------------------------------------------------
  // The disk row splits back into the disk paths

  /** Every part but the first gets `pad` in front. */
  function PadTail(parts: seq<string>, pad: string): (r: seq<string>)
    ensures |r| == |parts|
  {
    if parts == [] then [] else [parts[0]] + seq(|parts| - 1, i requires 0 <= i < |parts| - 1 => pad + parts[i + 1])
  }

  lemma JoinPrefixHead(parts: seq<string>, pre: string, sep: string)
    requires |parts| >= 1
    ensures Join([pre + parts[0]] + parts[1..], sep) == pre + Join(parts, sep)
  {
    var q := [pre + parts[0]] + parts[1..];
    assert q[1..] == parts[1..];
  }

  /** Joining with `c` followed by `pad` is joining the padded parts with `c` alone. */
  lemma {:induction false} JoinPadded(parts: seq<string>, c: char, pad: string)
    ensures Join(parts, [c] + pad) == Join(PadTail(parts, pad), [c])
    decreases |parts|
  {
    if |parts| >= 2 {
      var tail := parts[1..];
      JoinPadded(tail, c, pad);
      var p := PadTail(parts, pad);
      var q := PadTail(tail, pad);
      assert p[1..] == [pad + q[0]] + q[1..];
      JoinPrefixHead(q, pad, [c]);
    }
  }

  /**
   * With no comma in a disk path, splitting the disk row at the commas
   * gives the first path and then each further path behind one space.
   */
  lemma SummaryDisks(o: InstallerOptions, locales: LocaleInfo, showIp: IpAddr -> string)
    requires |o.bootdisk.disks| >= 1
    requires forall i :: 0 <= i < |o.bootdisk.disks| ==> ',' !in o.bootdisk.disks[i].path
    ensures var fields := Split(ToSummary(o, locales, showIp)[1].value, ',');
      && |fields| == |o.bootdisk.disks|
      && fields[0] == o.bootdisk.disks[0].path
      && forall i :: 0 < i < |fields| ==> fields[i] == " " + o.bootdisk.disks[i].path
  {
    var paths := DiskPaths(o.bootdisk.disks);
    assert ", " == [','] + " ";
    JoinPadded(paths, ',', " ");
    var padded := PadTail(paths, " ");
    forall i | 0 <= i < |padded| ensures ',' !in padded[i] {
      if i > 0 {
        assert padded[i] == " " + paths[i];
      }
    }
    SplitJoin(padded, ',');
  }
}
