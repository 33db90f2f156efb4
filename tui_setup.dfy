/**
 * `proxmox-tui-installer/src/setup.rs`: turning the options the TUI
 * collected into the `InstallConfig` handed to the low-level installer.
 *
 * The conversion panics when the FQDN has no host part (`expect`) and when an
 * LVM setup has no disk (`disks[0]`); both are `SetupPanic` values here.
 */
module TuiSetup {
  import opened Wrappers
  import opened Text
  import opened OptionTypes
  import opened CommonUtils
  import opened CommonSetup
  import opened CommonOptions
  import opened TuiOptions

  datatype SetupPanic = InvalidFqdn | NoBootDisk

  /** `InstallBtrfsOption::from`: only the compression is passed on. */
  function InstallBtrfsOptionFrom(opts: BtrfsBootdiskOptions): (r: InstallBtrfsOption)
    ensures r.compress == opts.compress
  {
    InstallBtrfsOption(opts.compress)
  }

  // ---------------------------------------------------------------------
  // Disk selection of ZFS and Btrfs

  /** The selection after inserting `i.to_string() -> disks[i].index` for each disk in turn. */
  function DiskSelectionOf(disks: seq<Disk>): map<string, string>
    decreases |disks|
  {
    if disks == [] then map[]
    else DiskSelectionOf(disks[..|disks| - 1])[NatToString(|disks| - 1) := disks[|disks| - 1].index]
  }

  /** Every key of the selection is the decimal text of a disk position. */
  lemma {:induction false} DiskSelectionKeys(disks: seq<Disk>)
    ensures forall k :: k in DiskSelectionOf(disks) ==>
      AllAsciiDigits(k) && DecimalValue(k) < |disks| && NatToString(DecimalValue(k)) == k
    decreases |disks|
  {
    if disks != [] {
      var n := |disks| - 1;
      DiskSelectionKeys(disks[..n]);
      DecimalValueOf(n);
    }
  }

  /** The selection has exactly one entry per disk. */
  lemma {:induction false} DiskSelectionSize(disks: seq<Disk>)
    ensures |DiskSelectionOf(disks)| == |disks|
    decreases |disks|
  {
    if disks != [] {
      var n := |disks| - 1;
      DiskSelectionSize(disks[..n]);
      DiskSelectionKeys(disks[..n]);
      DecimalValueOf(n);
      assert NatToString(n) !in DiskSelectionOf(disks[..n]);
    }
  }

  /** The decimal text of each disk position maps to that disk's index. */
  lemma {:induction false} DiskSelectionValues(disks: seq<Disk>)
    ensures forall i :: 0 <= i < |disks| ==>
      NatToString(i) in DiskSelectionOf(disks) && DiskSelectionOf(disks)[NatToString(i)] == disks[i].index
    decreases |disks|
  {
    if disks != [] {
      var n := |disks| - 1;
      var init := disks[..n];
      DiskSelectionValues(init);
      forall i | 0 <= i < n
        ensures NatToString(i) != NatToString(n) && init[i] == disks[i]
      {
        NatToStringInjective(i, n);
      }
    }
  }

  /** The `for (i, disk) in disks.iter().enumerate()` loop of the ZFS and Btrfs arms. */
  method SelectDisks(disks: seq<Disk>) returns (selection: map<string, string>)
    ensures selection == DiskSelectionOf(disks)
  {
    selection := map[];
    for i := 0 to |disks|
      invariant selection == DiskSelectionOf(disks[..i])
    {
      assert disks[..i + 1][..i] == disks[..i];
      selection := selection[NatToString(i) := disks[i].index];
    }
    assert disks[..|disks|] == disks;
  }

  // ---------------------------------------------------------------------
  // The conversion

  /** `From<InstallerOptions> for InstallConfig`. */
  method InstallConfigFrom(options: InstallerOptions) returns (r: Result<InstallConfig, SetupPanic>)
    ensures r == Err(InvalidFqdn) <==> options.network.fqdn.Host().None?
    ensures r == Err(NoBootDisk) <==>
      options.network.fqdn.Host().Some? && options.bootdisk.advanced.Lvm? && options.bootdisk.disks == []
    ensures r.Ok? ==>
      var c := r.value;
      && c.autoreboot == (if options.autoreboot then 1 else 0)
      && c.filesys == options.bootdisk.fstype
      && c.existingStorageAutoRename == 0
      && c.country == options.timezone.country
      && c.timezone == options.timezone.timezone
      && c.keymap == options.timezone.kbLayout
      && c.rootPassword == InstallRootPassword(Some(options.password.rootPassword), None)
      && c.mailto == options.password.email
      && c.rootSshKeys == []
      && c.mngmtNic == options.network.ifname
      && c.networkInterfacePinMap == map[]
      && Some(c.hostname) == options.network.fqdn.Host()
      && c.domain == options.network.fqdn.Domain()
      && c.cidr == options.network.address
      && c.gateway == options.network.gateway
      && c.dns == options.network.dnsServer
      && c.firstBoot == DEFAULT_FIRST_BOOT
    ensures r.Ok? && options.bootdisk.advanced.Lvm? ==>
      var c := r.value;
      var lvm := options.bootdisk.advanced.lvm;
      && c.hdsize == lvm.totalSize
      && c.targetHd == Some(options.bootdisk.disks[0].path)
      && c.swapsize == lvm.swapSize && c.maxroot == lvm.maxRootSize
      && c.minfree == lvm.minLvmFree && c.maxvz == lvm.maxDataSize
      && c.zfsOpts.None? && c.btrfsOpts.None? && c.diskSelection == map[]
    ensures r.Ok? && options.bootdisk.advanced.Zfs? ==>
      var c := r.value;
      && c.hdsize == options.bootdisk.advanced.zfs.diskSize
      && c.zfsOpts == Some(InstallZfsOptionFrom(options.bootdisk.advanced.zfs))
      && c.btrfsOpts.None? && c.targetHd.None?
      && c.swapsize.None? && c.maxroot.None? && c.minfree.None? && c.maxvz.None?
      && c.diskSelection == DiskSelectionOf(options.bootdisk.disks)
    ensures r.Ok? && options.bootdisk.advanced.Btrfs? ==>
      var c := r.value;
      && c.hdsize == options.bootdisk.advanced.btrfs.diskSize
      && c.btrfsOpts == Some(InstallBtrfsOptionFrom(options.bootdisk.advanced.btrfs))
      && c.zfsOpts.None? && c.targetHd.None?
      && c.swapsize.None? && c.maxroot.None? && c.minfree.None? && c.maxvz.None?
      && c.diskSelection == DiskSelectionOf(options.bootdisk.disks)
  {
    var host := options.network.fqdn.Host();
    if host.None? {
      return Err(InvalidFqdn);
    }
    var config := InstallConfig(
      autoreboot := if options.autoreboot then 1 else 0,
      filesys := options.bootdisk.fstype,
      hdsize := 0.0,
      swapsize := None,
      maxroot := None,
      minfree := None,
      maxvz := None,
      zfsOpts := None,
      btrfsOpts := None,
      targetHd := None,
      diskSelection := map[],
      existingStorageAutoRename := 0,
      country := options.timezone.country,
      timezone := options.timezone.timezone,
      keymap := options.timezone.kbLayout,
      rootPassword := InstallRootPassword(Some(options.password.rootPassword), None),
      mailto := options.password.email,
      rootSshKeys := [],
      mngmtNic := options.network.ifname,
      networkInterfacePinMap := map[],
      hostname := host.value,
      domain := options.network.fqdn.Domain(),
      cidr := options.network.address,
      gateway := options.network.gateway,
      dns := options.network.dnsServer,
      firstBoot := DEFAULT_FIRST_BOOT);

    match options.bootdisk.advanced {
      case Lvm(lvm) =>
        if options.bootdisk.disks == [] {
          return Err(NoBootDisk);
        }
        config := config.(
          hdsize := lvm.totalSize,
          targetHd := Some(options.bootdisk.disks[0].path),
          swapsize := lvm.swapSize,
          maxroot := lvm.maxRootSize,
          minfree := lvm.minLvmFree,
          maxvz := lvm.maxDataSize);
      case Zfs(zfs) =>
        config := config.(hdsize := zfs.diskSize, zfsOpts := Some(InstallZfsOptionFrom(zfs)));
        var selection := SelectDisks(options.bootdisk.disks);
        config := config.(diskSelection := selection);
      case Btrfs(btrfs) =>
        config := config.(hdsize := btrfs.diskSize, btrfsOpts := Some(InstallBtrfsOptionFrom(btrfs)));
        var selection := SelectDisks(options.bootdisk.disks);
        config := config.(diskSelection := selection);
    }
    return Ok(config);
  }

  /**
   * For ZFS and Btrfs every disk of the TUI selection is listed under its
   * position, so the low-level installer sees exactly as many disks.
   */
  lemma SelectionCoversDisks(options: InstallerOptions, c: InstallConfig)
    requires !options.bootdisk.advanced.Lvm?
    requires c.diskSelection == DiskSelectionOf(options.bootdisk.disks)
    ensures |c.diskSelection| == |options.bootdisk.disks|
    ensures forall i :: 0 <= i < |options.bootdisk.disks| ==>
      NatToString(i) in c.diskSelection && c.diskSelection[NatToString(i)] == options.bootdisk.disks[i].index
  {
    DiskSelectionSize(options.bootdisk.disks);
    DiskSelectionValues(options.bootdisk.disks);
  }

  /** The host and domain of the config put the FQDN back together. */
  lemma HostAndDomain(options: InstallerOptions, c: InstallConfig)
    requires Some(c.hostname) == options.network.fqdn.Host()
    requires c.domain == options.network.fqdn.Domain()
    ensures options.network.fqdn.ToString() == c.hostname + "." + c.domain
  {
  }
}
