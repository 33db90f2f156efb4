/**
 * The plain data types of `proxmox-installer-common/src/options.rs`: RAID
 * levels, filesystem types, compression and checksum choices, disks and the
 * per-filesystem bootdisk options. Their behaviour is in module CommonOptions;
 * the split keeps the module graph acyclic (setup.rs and disk_checks.rs use
 * these types, and options.rs uses theirs). The crate-wide constants of
 * `proxmox-installer-common/src/lib.rs` are here as well.
 */
module OptionTypes {
  import opened Wrappers

  /** Placeholder for the administrator email address. */
  const EMAIL_DEFAULT_PLACEHOLDER: string := "mail@example.invalid"

  /** Minimum length of the root password. */
  const ROOT_PASSWORD_MIN_LENGTH: nat := 8

  /** File name of the first-boot executable placed on the ISO. */
  const FIRST_BOOT_EXEC_NAME: string := "proxmox-first-boot"

  /** Largest first-boot executable, in bytes (1 MiB). */
  const FIRST_BOOT_EXEC_MAX_SIZE: nat := 1024 * 1024

  datatype BtrfsRaidLevel = Raid0 | Raid1 | Raid10

  datatype ZfsRaidLevel = Raid0 | Raid1 | Raid10 | RaidZ | RaidZ2 | RaidZ3

  datatype FsType = Ext4 | Xfs | Zfs(zfsLevel: ZfsRaidLevel) | Btrfs(btrfsLevel: BtrfsRaidLevel)

  /** Mount option of btrfs(5); `Off` is the default. */
  datatype BtrfsCompressOption = On | Off | Zlib | Lzo | Zstd

  /** `On` is the default. */
  datatype ZfsCompressOption = On | Off | Lzjb | Lz4 | Zle | Gzip | Zstd

  /** `On` is the default. */
  datatype ZfsChecksumOption = On | Fletcher4 | Sha256

  /** A disk as reported by the low-level installer; `size` is in GiB. */
  datatype Disk = Disk(
    index: string,
    path: string,
    model: Option<string>,
    size: real,
    blockSize: Option<nat>)

  datatype LvmBootdiskOptions = LvmBootdiskOptions(
    totalSize: real,
    swapSize: Option<real>,
    maxRootSize: Option<real>,
    maxDataSize: Option<real>,
    minLvmFree: Option<real>)

  datatype BtrfsBootdiskOptions = BtrfsBootdiskOptions(
    diskSize: real,
    selectedDisks: seq<nat>,
    compress: BtrfsCompressOption)

  datatype ZfsBootdiskOptions = ZfsBootdiskOptions(
    ashift: nat,
    compress: ZfsCompressOption,
    checksum: ZfsChecksumOption,
    copies: nat,
    arcMax: nat,
    diskSize: real,
    selectedDisks: seq<nat>)

  datatype AdvancedBootdiskOptions =
    | Lvm(lvm: LvmBootdiskOptions)
    | Zfs(zfs: ZfsBootdiskOptions)
    | Btrfs(btrfs: BtrfsBootdiskOptions)

  datatype BootdiskOptions = BootdiskOptions(
    disks: seq<Disk>,
    fstype: FsType,
    advanced: AdvancedBootdiskOptions)
}
