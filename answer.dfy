/**
 * `proxmox-auto-installer/src/answer.rs`: the records of an answer file and
 * the validators that turn the network and disk-setup sections into their
 * checked forms. Decoding TOML into these records is not modelled; the
 * records are taken as already decoded.
 */
module Answer {
  import opened Wrappers
  import opened OptionTypes
  import opened CommonUtils
  import opened CommonOptions

  datatype RebootMode = Reboot | PowerOff

  /** Either a fixed FQDN, or host name from DHCP with a fallback domain. */
  datatype FqdnConfig = Simple(fqdn: Fqdn) | Extended(domain: Option<string>)

  datatype PostNotificationHookInfo = PostNotificationHookInfo(url: string, certFingerprint: Option<string>)

  datatype FirstBootHookSourceMode = FromUrl | FromIso

  /** Ordering of the first-boot service; `FullyUp` is the default. */
  datatype FirstBootHookServiceOrdering = BeforeNetwork | NetworkOnline | FullyUp

  /** The systemd target the first-boot service is ordered against, without `.target`. */
  function AsSystemdTargetName(ordering: FirstBootHookServiceOrdering): (r: string)
    ensures r in {"network-pre", "network-online", "multi-user"}
  {
    match ordering
    case BeforeNetwork => "network-pre"
    case NetworkOnline => "network-online"
    case FullyUp => "multi-user"
  }

  /** The three orderings name three different targets. */
  lemma AsSystemdTargetNameInjective(a: FirstBootHookServiceOrdering, b: FirstBootHookServiceOrdering)
    requires AsSystemdTargetName(a) == AsSystemdTargetName(b)
    ensures a == b
  {
    assert "network-pre"[8] != "network-online"[8];
    assert "network-pre"[0] != "multi-user"[0];
    assert "network-online"[0] != "multi-user"[0];
  }

  datatype FirstBootHookInfo = FirstBootHookInfo(
    source: FirstBootHookSourceMode,
    ordering: FirstBootHookServiceOrdering,
    url: Option<string>,
    certFingerprint: Option<string>)

  datatype KeyboardLayout =
    | De | DeCh | Dk | EnGb | EnUs | Es | Fi | Fr | FrBe | FrCa | FrCh | Hu | Is
    | It | Jp | Lt | Mk | Nl | No | Pl | Pt | PtBr | Se | Si | Tr

  /** `Display for KeyboardLayout`: the kebab-case serialised name. */
  function KeyboardLayoutName(k: KeyboardLayout): (r: string)
    ensures 2 <= |r| <= 5
  {
    match k
    case De => "de" case DeCh => "de-ch" case Dk => "dk" case EnGb => "en-gb"
    case EnUs => "en-us" case Es => "es" case Fi => "fi" case Fr => "fr"
    case FrBe => "fr-be" case FrCa => "fr-ca" case FrCh => "fr-ch" case Hu => "hu"
    case Is => "is" case It => "it" case Jp => "jp" case Lt => "lt" case Mk => "mk"
    case Nl => "nl" case No => "no" case Pl => "pl" case Pt => "pt" case PtBr => "pt-br"
    case Se => "se" case Si => "si" case Tr => "tr"
  }

  /** Decoding a keyboard layout from its kebab-case name. */
  function KeyboardLayoutFromName(s: string): (r: Option<KeyboardLayout>)
  {
    match s
    case "de" => Some(De) case "de-ch" => Some(DeCh) case "dk" => Some(Dk)
    case "en-gb" => Some(EnGb) case "en-us" => Some(EnUs) case "es" => Some(Es)
    case "fi" => Some(Fi) case "fr" => Some(Fr) case "fr-be" => Some(FrBe)
    case "fr-ca" => Some(FrCa) case "fr-ch" => Some(FrCh) case "hu" => Some(Hu)
    case "is" => Some(Is) case "it" => Some(It) case "jp" => Some(Jp)
    case "lt" => Some(Lt) case "mk" => Some(Mk) case "nl" => Some(Nl)
    case "no" => Some(No) case "pl" => Some(Pl) case "pt" => Some(Pt)
    case "pt-br" => Some(PtBr) case "se" => Some(Se) case "si" => Some(Si)
    case "tr" => Some(Tr)
    case _ => None
  }

  /** Decoding the displayed name gives the layout back. */
  lemma KeyboardLayoutRoundTrip(k: KeyboardLayout)
    ensures KeyboardLayoutFromName(KeyboardLayoutName(k)) == Some(k)
  {
  }

  /** A decoded name is exactly the layout's display name. */
  lemma KeyboardLayoutFromNameSound(s: string)
    requires KeyboardLayoutFromName(s).Some?
    ensures KeyboardLayoutName(KeyboardLayoutFromName(s).value) == s
  {
  }

  /** Two layouts with the same name are the same layout. */
  lemma KeyboardLayoutNameInjective(a: KeyboardLayout, b: KeyboardLayout)
    requires KeyboardLayoutName(a) == KeyboardLayoutName(b)
    ensures a == b
  {
    KeyboardLayoutRoundTrip(a);
    KeyboardLayoutRoundTrip(b);
  }

  datatype Global = Global(
    country: string,
    fqdn: FqdnConfig,
    keyboard: KeyboardLayout,
    mailto: string,
    timezone: string,
    rootPassword: Option<string>,
    rootPasswordHashed: Option<string>,
    rebootOnError: bool,
    rebootMode: RebootMode,
    rootSshKeys: seq<string>)

  // ---------------------------------------------------------------------
  // Network section

  datatype NetworkConfigMode = FromDhcp | FromAnswer

  /** The network section as written; `filter` is a `BTreeMap` of udev property globs. */
  datatype NetworkInAnswer = NetworkInAnswer(
    source: NetworkConfigMode,
    cidr: Option<CidrAddress>,
    dns: Option<IpAddr>,
    gateway: Option<IpAddr>,
    filter: Option<map<string, string>>)

  datatype NetworkManual = NetworkManual(
    cidr: CidrAddress,
    dns: IpAddr,
    gateway: IpAddr,
    filter: map<string, string>)

  datatype NetworkSettings = FromDhcp | Manual(manual: NetworkManual)

  datatype Network = Network(networkSettings: NetworkSettings)

  /** The optional fields of the network section, in the order they are checked. */
  datatype NetworkField = CidrField | DnsField | GatewayField | FilterField

  function FieldName(f: NetworkField): string
  {
    match f
    case CidrField => "cidr"
    case DnsField => "dns"
    case GatewayField => "gateway"
    case FilterField => "filter"
  }

  function FieldRank(f: NetworkField): nat
  {
    match f
    case CidrField => 0
    case DnsField => 1
    case GatewayField => 2
    case FilterField => 3
  }

  predicate Present(n: NetworkInAnswer, f: NetworkField)
  {
    match f
    case CidrField => n.cidr.Some?
    case DnsField => n.dns.Some?
    case GatewayField => n.gateway.Some?
    case FilterField => n.filter.Some?
  }

  function MustBeSet(f: NetworkField): string
  {
    "Field '" + FieldName(f) + "' must be set."
  }

  function NotSupported(f: NetworkField): string
  {
    "Field '" + FieldName(f) + "' not supported for 'from-dhcp' config."
  }

  /** `f` is absent and every field checked before it is present. */
  predicate FirstAbsent(n: NetworkInAnswer, f: NetworkField)
  {
    !Present(n, f) && forall g :: FieldRank(g) < FieldRank(f) ==> Present(n, g)
  }

  /** `f` is present and every field checked before it is absent. */
  predicate FirstPresent(n: NetworkInAnswer, f: NetworkField)
  {
    Present(n, f) && forall g :: FieldRank(g) < FieldRank(f) ==> !Present(n, g)
  }

  /**
   * `TryFrom<NetworkInAnswer> for Network`: `from-answer` needs all four
   * fields and reports the first missing one; `from-dhcp` allows none of them
   * and reports the first one given.
   */
  function NetworkTryFrom(n: NetworkInAnswer): (r: Result<Network, string>)
    ensures n.source == NetworkConfigMode.FromAnswer ==>
      && (r.Ok? <==> forall f :: Present(n, f))
      && (r.Ok? ==> n.cidr.Some? && n.dns.Some? && n.gateway.Some? && n.filter.Some?
                    && r.value.networkSettings
                       == Manual(NetworkManual(n.cidr.value, n.dns.value, n.gateway.value, n.filter.value)))
      && (r.Err? ==> exists f :: FirstAbsent(n, f) && r.error == MustBeSet(f))
    ensures n.source == NetworkConfigMode.FromDhcp ==>
      && (r.Ok? <==> forall f :: !Present(n, f))
      && (r.Ok? ==> r.value.networkSettings == NetworkSettings.FromDhcp)
      && (r.Err? ==> exists f :: FirstPresent(n, f) && r.error == NotSupported(f))
  {
    if n.source == NetworkConfigMode.FromAnswer then
      if n.cidr.None? then
        assert FirstAbsent(n, CidrField);
        Err(MustBeSet(CidrField))
      else if n.dns.None? then
        assert FirstAbsent(n, DnsField);
        Err(MustBeSet(DnsField))
      else if n.gateway.None? then
        assert FirstAbsent(n, GatewayField);
        Err(MustBeSet(GatewayField))
      else if n.filter.None? then
        assert FirstAbsent(n, FilterField);
        Err(MustBeSet(FilterField))
      else
        Ok(Network(Manual(NetworkManual(n.cidr.value, n.dns.value, n.gateway.value, n.filter.value))))
    else
      if n.cidr.Some? then
        assert FirstPresent(n, CidrField);
        Err(NotSupported(CidrField))
      else if n.dns.Some? then
        assert FirstPresent(n, DnsField);
        Err(NotSupported(DnsField))
      else if n.gateway.Some? then
        assert FirstPresent(n, GatewayField);
        Err(NotSupported(GatewayField))
      else if n.filter.Some? then
        assert FirstPresent(n, FilterField);
        Err(NotSupported(FilterField))
      else
        Ok(Network(NetworkSettings.FromDhcp))
  }

  /** The network section that describes the given settings. */
  function NetworkToAnswer(s: NetworkSettings): (n: NetworkInAnswer)
  {
    match s
    case FromDhcp => NetworkInAnswer(NetworkConfigMode.FromDhcp, None, None, None, None)
    case Manual(m) => NetworkInAnswer(NetworkConfigMode.FromAnswer, Some(m.cidr), Some(m.dns), Some(m.gateway), Some(m.filter))
  }

  /** Every network setting is produced by its own answer section, and only by that one. */
  lemma NetworkAnswerRoundTrip(n: NetworkInAnswer, s: NetworkSettings)
    ensures NetworkTryFrom(NetworkToAnswer(s)) == Ok(Network(s))
    ensures NetworkTryFrom(n) == Ok(Network(s)) ==> n == NetworkToAnswer(s)
  {
    var m := NetworkToAnswer(s);
    assert forall f :: Present(m, f) == s.Manual?;
    if NetworkTryFrom(n) == Ok(Network(s)) {
      assert Present(n, CidrField) == s.Manual? && Present(n, FilterField) == s.Manual?;
    }
  }

  // ---------------------------------------------------------------------
  // Disk-setup section

  datatype FilterMatch = Any | All

  /** The `filesystem` key of the disk-setup section. */
  datatype Filesystem = Ext4 | Xfs | Zfs | Btrfs

  datatype ZfsOptions = ZfsOptions(
    raid: Option<ZfsRaidLevel>,
    ashift: Option<nat>,
    arcMax: Option<nat>,
    checksum: Option<ZfsChecksumOption>,
    compress: Option<ZfsCompressOption>,
    copies: Option<nat>,
    hdsize: Option<real>)

  datatype LvmOptions = LvmOptions(
    hdsize: Option<real>,
    swapsize: Option<real>,
    maxroot: Option<real>,
    maxvz: Option<real>,
    minfree: Option<real>)

  /** `LvmOptions::default()`: nothing set. */
  const DEFAULT_LVM_OPTIONS := LvmOptions(None, None, None, None, None)

  datatype BtrfsOptions = BtrfsOptions(
    hdsize: Option<real>,
    raid: Option<BtrfsRaidLevel>,
    compress: Option<BtrfsCompressOption>)

  datatype DiskSetup = DiskSetup(
    filesystem: Filesystem,
    diskList: seq<string>,
    filter: Option<map<string, string>>,
    filterMatch: Option<FilterMatch>,
    zfs: Option<ZfsOptions>,
    lvm: Option<LvmOptions>,
    btrfs: Option<BtrfsOptions>)

  datatype FsOptions = LVM(lvm: LvmOptions) | ZFS(zfs: ZfsOptions) | BTRFS(btrfs: BtrfsOptions)

  datatype DiskSelection = Selection(list: seq<string>) | Filter(filter: map<string, string>)

  datatype Disks = Disks(
    fsType: FsType,
    diskSelection: DiskSelection,
    filterMatch: Option<FilterMatch>,
    fsOptions: FsOptions)

  const NEED_LIST_OR_FILTER := "Need either 'disk-list' or 'filter' set"
  const NOT_BOTH_LIST_AND_FILTER := "Cannot use both, 'disk-list' and 'filter'"
  const ONLY_LVM_OPTIONS := "make sure only 'lvm' options are set"
  const ONE_DISK_FOR_LVM := "make sure to define only one disk for ext4 and xfs"
  const ONLY_ZFS_OPTIONS := "make sure only 'zfs' options are set"
  const ZFS_RAID_UNSET := "ZFS raid level 'zfs.raid' must be set"
  const ONLY_BTRFS_OPTIONS := "make sure only 'btrfs' options are set"
  const BTRFS_RAID_UNSET := "BTRFS raid level 'btrfs.raid' must be set"

  /** The checks shared by ext4 and xfs. */
  function LvmChecks(s: DiskSetup): (r: Result<(), string>)
    ensures r.Ok? <==> s.zfs.None? && s.btrfs.None? && |s.diskList| <= 1
    ensures r.Err? ==> r.error == (if s.zfs.Some? || s.btrfs.Some? then ONLY_LVM_OPTIONS else ONE_DISK_FOR_LVM)
  {
    if s.zfs.Some? || s.btrfs.Some? then Err(ONLY_LVM_OPTIONS)
    else if |s.diskList| > 1 then Err(ONE_DISK_FOR_LVM)
    else Ok(())
  }

  /** What the disk-setup validator accepts, stated per filesystem. */
  predicate AcceptedDiskSetup(s: DiskSetup)
  {
    && (|s.diskList| > 0 <==> s.filter.None?)
    && match s.filesystem
       case Ext4 => s.zfs.None? && s.btrfs.None? && |s.diskList| <= 1
       case Xfs => s.zfs.None? && s.btrfs.None? && |s.diskList| <= 1
       case Zfs => s.lvm.None? && s.btrfs.None? && s.zfs.Some? && s.zfs.value.raid.Some?
       case Btrfs => s.zfs.None? && s.lvm.None? && s.btrfs.Some? && s.btrfs.value.raid.Some?
  }

  /** The filesystem type and the option block of validated disks belong together. */
  predicate ConsistentDisks(d: Disks)
  {
    && (d.diskSelection.Selection? ==> |d.diskSelection.list| > 0)
    && (IsLvm(d.fsType) <==> d.fsOptions.LVM?)
    && (IsLvm(d.fsType) && d.diskSelection.Selection? ==> |d.diskSelection.list| == 1)
    && (d.fsType.Zfs? <==> d.fsOptions.ZFS?)
    && (d.fsType.Zfs? ==> d.fsOptions.zfs.raid == Some(d.fsType.zfsLevel))
    && (d.fsType.Btrfs? <==> d.fsOptions.BTRFS?)
    && (d.fsType.Btrfs? ==> d.fsOptions.btrfs.raid == Some(d.fsType.btrfsLevel))
  }

  /**
   * `TryFrom<DiskSetup> for Disks`: exactly one of a non-empty disk list and a
   * filter selects the disks; each filesystem accepts only its own option
   * block, ext4 and xfs at most one listed disk, and ZFS and Btrfs need a
   * RAID level.
   */
  function DisksTryFrom(s: DiskSetup): (r: Result<Disks, string>)
    ensures r.Ok? ==> AcceptedDiskSetup(s)
    ensures r.Ok? ==> r.value.diskSelection == (if |s.diskList| > 0 then Selection(s.diskList) else Filter(s.filter.value))
    ensures r.Ok? ==> r.value.filterMatch == s.filterMatch
    ensures r.Ok? && s.filesystem == Filesystem.Ext4 ==> r.value.fsType == FsType.Ext4 && r.value.fsOptions == LVM(s.lvm.UnwrapOr(DEFAULT_LVM_OPTIONS))
    ensures r.Ok? && s.filesystem == Filesystem.Xfs ==> r.value.fsType == FsType.Xfs && r.value.fsOptions == LVM(s.lvm.UnwrapOr(DEFAULT_LVM_OPTIONS))
    ensures r.Ok? && s.filesystem == Filesystem.Zfs ==> r.value.fsType == FsType.Zfs(s.zfs.value.raid.value) && r.value.fsOptions == ZFS(s.zfs.value)
    ensures r.Ok? && s.filesystem == Filesystem.Btrfs ==> r.value.fsType == FsType.Btrfs(s.btrfs.value.raid.value) && r.value.fsOptions == BTRFS(s.btrfs.value)
    ensures r == Err(NEED_LIST_OR_FILTER) <==> |s.diskList| == 0 && s.filter.None?
    ensures r == Err(NOT_BOTH_LIST_AND_FILTER) <==> |s.diskList| > 0 && s.filter.Some?
  {
    if |s.diskList| == 0 && s.filter.None? then Err(NEED_LIST_OR_FILTER)
    else if |s.diskList| > 0 && s.filter.Some? then Err(NOT_BOTH_LIST_AND_FILTER)
    else
      var selection := if |s.diskList| > 0 then Selection(s.diskList) else Filter(s.filter.value);
      match s.filesystem
      case Xfs =>
        if LvmChecks(s).Err? then Err(LvmChecks(s).error)
        else Ok(Disks(FsType.Xfs, selection, s.filterMatch, LVM(s.lvm.UnwrapOr(DEFAULT_LVM_OPTIONS))))
      case Ext4 =>
        if LvmChecks(s).Err? then Err(LvmChecks(s).error)
        else Ok(Disks(FsType.Ext4, selection, s.filterMatch, LVM(s.lvm.UnwrapOr(DEFAULT_LVM_OPTIONS))))
      case Zfs =>
        if s.lvm.Some? || s.btrfs.Some? then Err(ONLY_ZFS_OPTIONS)
        else if s.zfs.None? || s.zfs.value.raid.None? then Err(ZFS_RAID_UNSET)
        else Ok(Disks(FsType.Zfs(s.zfs.value.raid.value), selection, s.filterMatch, ZFS(s.zfs.value)))
      case Btrfs =>
        if s.zfs.Some? || s.lvm.Some? then Err(ONLY_BTRFS_OPTIONS)
        else if s.btrfs.None? || s.btrfs.value.raid.None? then Err(BTRFS_RAID_UNSET)
        else Ok(Disks(FsType.Btrfs(s.btrfs.value.raid.value), selection, s.filterMatch, BTRFS(s.btrfs.value)))
  }

  /** The validator accepts exactly the acceptable setups, and what it returns is consistent. */
  lemma DisksTryFromAccepts(s: DiskSetup)
    ensures DisksTryFrom(s).Ok? <==> AcceptedDiskSetup(s)
    ensures DisksTryFrom(s).Ok? ==> ConsistentDisks(DisksTryFrom(s).value)
  {
  }

  /** The reported error for a setup that selects its disks properly. */
  lemma DisksTryFromErrors(s: DiskSetup)
    requires |s.diskList| > 0 <==> s.filter.None?
    ensures s.filesystem in {Filesystem.Ext4, Filesystem.Xfs} && (s.zfs.Some? || s.btrfs.Some?) ==>
      DisksTryFrom(s) == Err(ONLY_LVM_OPTIONS)
    ensures s.filesystem in {Filesystem.Ext4, Filesystem.Xfs} && s.zfs.None? && s.btrfs.None? && |s.diskList| > 1 ==>
      DisksTryFrom(s) == Err(ONE_DISK_FOR_LVM)
    ensures s.filesystem == Filesystem.Zfs && (s.lvm.Some? || s.btrfs.Some?) ==> DisksTryFrom(s) == Err(ONLY_ZFS_OPTIONS)
    ensures s.filesystem == Filesystem.Zfs && s.lvm.None? && s.btrfs.None? && (s.zfs.None? || s.zfs.value.raid.None?) ==>
      DisksTryFrom(s) == Err(ZFS_RAID_UNSET)
    ensures s.filesystem == Filesystem.Btrfs && (s.zfs.Some? || s.lvm.Some?) ==> DisksTryFrom(s) == Err(ONLY_BTRFS_OPTIONS)
    ensures s.filesystem == Filesystem.Btrfs && s.zfs.None? && s.lvm.None? && (s.btrfs.None? || s.btrfs.value.raid.None?) ==>
      DisksTryFrom(s) == Err(BTRFS_RAID_UNSET)
  {
  }

  datatype Answer = Answer(
    global: Global,
    network: Network,
    disks: Disks,
    postInstallationWebhook: Option<PostNotificationHookInfo>,
    firstBoot: Option<FirstBootHookInfo>)
}
