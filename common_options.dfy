/**
 * The behaviour of `proxmox-installer-common/src/options.rs`: RAID disk
 * requirements, the filesystem-type names, interface-name pinning checks,
 * FQDN construction and the option defaults.
 */
module CommonOptions {
  import opened Wrappers
  import opened Text
  import opened OptionTypes
  import opened CommonUtils
  import opened CommonSetup
  import opened DiskChecks

  // ---------------------------------------------------------------------
  // RAID levels

  function BtrfsMinDisks(level: BtrfsRaidLevel): (n: nat)
    ensures n >= 1
  {
    match level
    case Raid0 => 1
    case Raid1 => 2
    case Raid10 => 4
  }

  function ZfsMinDisks(level: ZfsRaidLevel): (n: nat)
    ensures n >= 1
  {
    match level
    case Raid0 => 1
    case Raid1 => 2
    case Raid10 => 4
    case RaidZ => 3
    case RaidZ2 => 4
    case RaidZ3 => 5
  }

  /**
   * The minimum disk counts: one more disk per parity level for RAIDZ, and
   * two mirrored pairs for RAID10.
   */
  lemma MinDisksTable()
    ensures BtrfsMinDisks(BtrfsRaidLevel.Raid0) == 1 && BtrfsMinDisks(BtrfsRaidLevel.Raid1) == 2
    ensures BtrfsMinDisks(BtrfsRaidLevel.Raid10) == 4
    ensures ZfsMinDisks(ZfsRaidLevel.Raid0) == 1 && ZfsMinDisks(ZfsRaidLevel.Raid1) == 2
    ensures ZfsMinDisks(ZfsRaidLevel.Raid10) == 4
    ensures ZfsMinDisks(RaidZ) == 3 && ZfsMinDisks(RaidZ2) == 4 && ZfsMinDisks(RaidZ3) == 5
    ensures ZfsMinDisks(RaidZ2) == ZfsMinDisks(RaidZ) + 1 && ZfsMinDisks(RaidZ3) == ZfsMinDisks(RaidZ2) + 1
  {
  }

  datatype RaidSetupError =
    | TooFewDisks(minError: MinDisksError)
    | OddDiskCount(count: nat)
    | MirrorSizeMismatch(disk1: Disk, disk2: Disk)

  /** `BtrfsRaidLevel::check_raid_disks_setup`: only the disk count is checked. */
  function BtrfsCheckRaidDisksSetup(level: BtrfsRaidLevel, disks: seq<Disk>): (r: Result<(), RaidSetupError>)
    ensures r.Ok? <==> |disks| >= BtrfsMinDisks(level)
    ensures r.Err? ==> r.error == TooFewDisks(NeedAtLeast(BtrfsMinDisks(level)))
  {
    match CheckRaidMinDisks(disks, BtrfsMinDisks(level))
    case Err(e) => Err(TooFewDisks(e))
    case Ok(_) => Ok(())
  }

  function Abs(x: real): (r: real)
    ensures r >= 0.0 && (r == x || r == -x)
  {
    if x < 0.0 then -x else x
  }

  /** Two disks count as mirror partners when they differ by at most a tenth of the first one. */
  predicate MirrorSizesMatch(d1: Disk, d2: Disk)
  {
    Abs(d1.size - d2.size) <= d1.size / 10.0
  }

  /** `ZfsRaidLevel::check_mirror_size`. */
  function CheckMirrorSize(d1: Disk, d2: Disk): (r: Result<(), RaidSetupError>)
    ensures r.Err? <==> Abs(d1.size - d2.size) > d1.size / 10.0
    ensures r.Err? ==> r.error == MirrorSizeMismatch(d1, d2)
  {
    if Abs(d1.size - d2.size) > d1.size / 10.0 then Err(MirrorSizeMismatch(d1, d2)) else Ok(())
  }

  /** Equal sizes always pass, and the tolerance is a tenth of the first disk either way. */
  lemma CheckMirrorSizeTolerance(d1: Disk, d2: Disk)
    requires d1.size >= 0.0
    ensures d1.size == d2.size ==> CheckMirrorSize(d1, d2).Ok?
    ensures CheckMirrorSize(d1, d2).Ok? <==>
      d1.size - d1.size / 10.0 <= d2.size <= d1.size + d1.size / 10.0
  {
  }

  /**
   * The tolerance is relative to the first argument, so the check is not
   * symmetric: 11.05 GiB against a 10 GiB reference fails, the other way
   * round it passes.
   */
  lemma CheckMirrorSizeNotSymmetric(d1: Disk, d2: Disk)
    requires d1.size == 10.0 && d2.size == 11.05
    ensures CheckMirrorSize(d1, d2).Err?
    ensures CheckMirrorSize(d2, d1).Ok?
  {
  }

  /** The first position `k >= from` whose disk fails the size check against `reference`. */
  function FirstMismatch(reference: Disk, disks: seq<Disk>, from: nat): (r: Option<nat>)
    requires from <= |disks|
    ensures r.None? <==> forall k :: from <= k < |disks| ==> MirrorSizesMatch(reference, disks[k])
    ensures r.Some? ==>
      && from <= r.value < |disks| && !MirrorSizesMatch(reference, disks[r.value])
      && forall k :: from <= k < r.value ==> MirrorSizesMatch(reference, disks[k])
    decreases |disks| - from
  {
    if from == |disks| then None
    else if !MirrorSizesMatch(reference, disks[from]) then Some(from)
    else FirstMismatch(reference, disks, from + 1)
  }

  /** Pair number `p`, disks `2p` and `2p + 1`, passes the size check. */
  predicate PairMatches(disks: seq<Disk>, p: nat)
    requires 2 * p + 1 < |disks|
  {
    MirrorSizesMatch(disks[2 * p], disks[2 * p + 1])
  }

  /** The first pair number `p >= from` whose disks `2p` and `2p + 1` fail the size check. */
  function FirstPairMismatch(disks: seq<Disk>, from: nat): (r: Option<nat>)
    ensures r.None? <==> forall p: nat :: from <= p && 2 * p + 1 < |disks| ==> PairMatches(disks, p)
    ensures r.Some? ==>
      && from <= r.value && 2 * r.value + 1 < |disks| && !PairMatches(disks, r.value)
      && forall p: nat :: from <= p < r.value ==> PairMatches(disks, p)
    decreases |disks| - 2 * from
  {
    if 2 * from + 1 >= |disks| then None
    else if !PairMatches(disks, from) then Some(from)
    else FirstPairMismatch(disks, from + 1)
  }

  /**
   * What `ZfsRaidLevel::check_raid_disks_setup` reports: the count first;
   * then for RAID10 an odd count and the first mismatching pair; for the
   * other redundant levels the first disk that does not match `disks[0]`.
   */
  function ZfsRaidCheck(level: ZfsRaidLevel, disks: seq<Disk>): (r: Result<(), RaidSetupError>)
  {
    if |disks| < ZfsMinDisks(level) then Err(TooFewDisks(NeedAtLeast(ZfsMinDisks(level))))
    else match level
      case Raid0 => Ok(())
      case Raid10 =>
        if |disks| % 2 != 0 then Err(OddDiskCount(|disks|))
        else (match FirstPairMismatch(disks, 0)
              case None => Ok(())
              case Some(p) => Err(MirrorSizeMismatch(disks[2 * p], disks[2 * p + 1])))
      case _ =>
        match FirstMismatch(disks[0], disks, 0)
        case None => Ok(())
        case Some(k) => Err(MirrorSizeMismatch(disks[0], disks[k]))
  }

  /** `ZfsRaidLevel::check_raid_disks_setup`, with its loops. */
  method ZfsCheckRaidDisksSetup(level: ZfsRaidLevel, disks: seq<Disk>) returns (r: Result<(), RaidSetupError>)
    ensures r == ZfsRaidCheck(level, disks)
  {
    var minCheck := CheckRaidMinDisks(disks, ZfsMinDisks(level));
    if minCheck.Err? {
      return Err(TooFewDisks(minCheck.error));
    }
    match level {
      case Raid0 =>
      case Raid10 =>
        if |disks| % 2 != 0 {
          return Err(OddDiskCount(|disks|));
        }
        var i, pair := 0, 0;
        while i < |disks|
          invariant 0 <= i <= |disks| && i == 2 * pair
          invariant FirstPairMismatch(disks, 0) == FirstPairMismatch(disks, pair)
          decreases |disks| - i
        {
          var check := CheckMirrorSize(disks[i], disks[i + 1]);
          if check.Err? {
            return check;
          }
          i, pair := i + 2, pair + 1;
        }
      case _ =>
        var i := 0;
        while i < |disks|
          invariant 0 <= i <= |disks|
          invariant FirstMismatch(disks[0], disks, 0) == FirstMismatch(disks[0], disks, i)
        {
          var check := CheckMirrorSize(disks[0], disks[i]);
          if check.Err? {
            return check;
          }
          i := i + 1;
        }
    }
    return Ok(());
  }

  /** The accept rule of the ZFS check, per level. */
  lemma ZfsRaidCheckSpec(level: ZfsRaidLevel, disks: seq<Disk>)
    ensures ZfsRaidCheck(level, disks).Ok? <==>
      && |disks| >= ZfsMinDisks(level)
      && (level == ZfsRaidLevel.Raid10 ==>
            |disks| % 2 == 0 && forall p: nat :: 2 * p + 1 < |disks| ==> PairMatches(disks, p))
      && (level != ZfsRaidLevel.Raid0 && level != ZfsRaidLevel.Raid10 ==>
            forall k :: 0 <= k < |disks| ==> MirrorSizesMatch(disks[0], disks[k]))
    ensures ZfsRaidCheck(level, disks).Err? && ZfsRaidCheck(level, disks).error.MirrorSizeMismatch? ==>
      level != ZfsRaidLevel.Raid0
  {
  }

  /** RAID10 only compares partners, so two pairs of very different sizes pass. */
  lemma ZfsRaid10PairsOnly(disks: seq<Disk>)
    requires |disks| == 4
    requires disks[0].size == 1.0 && disks[1].size == 1.0 && disks[2].size == 100.0 && disks[3].size == 100.0
    ensures ZfsRaidCheck(ZfsRaidLevel.Raid10, disks).Ok?
    ensures ZfsRaidCheck(RaidZ, disks) == Err(MirrorSizeMismatch(disks[0], disks[2]))
  {
    ZfsRaidCheckSpec(ZfsRaidLevel.Raid10, disks);
    assert FirstMismatch(disks[0], disks, 2) == Some(2);
  }

  /**
   * The RAID unit tests: no disks and one disk fewer than the minimum fail,
   * and the minimum number of equally sized disks passes, for every level.
   */
  lemma RaidChecksOnSameSizeDisks(disks: seq<Disk>)
    requires forall i :: 0 <= i < |disks| ==> disks[i].size == 8.0
    ensures forall level: ZfsRaidLevel :: ZfsRaidCheck(level, []).Err?
    ensures forall level: BtrfsRaidLevel :: BtrfsCheckRaidDisksSetup(level, []).Err?
    ensures forall level: ZfsRaidLevel :: ZfsMinDisks(level) - 1 <= |disks| ==>
      ZfsRaidCheck(level, disks[..ZfsMinDisks(level) - 1]).Err?
    ensures forall level: ZfsRaidLevel :: ZfsMinDisks(level) <= |disks| ==>
      ZfsRaidCheck(level, disks[..ZfsMinDisks(level)]).Ok?
    ensures forall level: BtrfsRaidLevel :: BtrfsMinDisks(level) <= |disks| ==>
      BtrfsCheckRaidDisksSetup(level, disks[..BtrfsMinDisks(level)]).Ok?
  {
    forall level: ZfsRaidLevel | ZfsMinDisks(level) <= |disks|
      ensures ZfsRaidCheck(level, disks[..ZfsMinDisks(level)]).Ok?
    {
      var sel := disks[..ZfsMinDisks(level)];
      ZfsRaidCheckSpec(level, sel);
      assert forall k :: 0 <= k < |sel| ==> sel[k].size == 8.0;
    }
  }

  // ---------------------------------------------------------------------
  // Filesystem types

  predicate IsBtrfs(fs: FsType) { fs.Btrfs? }

  /** `FsType::is_lvm`: ext4 and XFS sit on top of LVM. */
  predicate IsLvm(fs: FsType) { fs == Ext4 || fs == Xfs }

  function FsMinDisks(fs: FsType): (n: nat)
    ensures n >= 1
    ensures IsLvm(fs) ==> n == 1
  {
    match fs
    case Ext4 => 1
    case Xfs => 1
    case Zfs(level) => ZfsMinDisks(level)
    case Btrfs(level) => BtrfsMinDisks(level)
  }

  /** The upper-case names of the ZFS RAID levels. */
  function ZfsRaidLevelName(level: ZfsRaidLevel): string
  {
    match level
    case Raid0 => "RAID0"
    case Raid1 => "RAID1"
    case Raid10 => "RAID10"
    case RaidZ => "RAIDZ-1"
    case RaidZ2 => "RAIDZ-2"
    case RaidZ3 => "RAIDZ-3"
  }

  function BtrfsRaidLevelName(level: BtrfsRaidLevel): string
  {
    match level
    case Raid0 => "RAID0"
    case Raid1 => "RAID1"
    case Raid10 => "RAID10"
  }

  /** `Display for FsType`: the name shown in the installer UI. */
  function FsTypeDisplay(fs: FsType): (r: string)
  {
    match fs
    case Ext4 => "ext4"
    case Xfs => "XFS"
    case Zfs(level) => "ZFS (" + ZfsRaidLevelName(level) + ")"
    case Btrfs(level) => "BTRFS (" + BtrfsRaidLevelName(level) + ")"
  }

  /** `Serialize for FsType`: the name the low-level installer expects. */
  function FsTypeSerialize(fs: FsType): (r: string)
  {
    match fs
    case Ext4 => "ext4"
    case Xfs => "xfs"
    case Zfs(level) => "zfs (" + ZfsRaidLevelName(level) + ")"
    case Btrfs(level) => "btrfs (" + BtrfsRaidLevelName(level) + ")"
  }

  datatype FsTypeParseError = UnknownFileSystem(name: string)

  /** `FromStr for FsType`: exactly the eleven serialised names. */
  function FsTypeFromStr(s: string): (r: Result<FsType, FsTypeParseError>)
    ensures r.Err? ==> r.error == UnknownFileSystem(s)
  {
    if s == "ext4" then Ok(Ext4)
    else if s == "xfs" then Ok(Xfs)
    else if s == "zfs (RAID0)" then Ok(FsType.Zfs(ZfsRaidLevel.Raid0))
    else if s == "zfs (RAID1)" then Ok(FsType.Zfs(ZfsRaidLevel.Raid1))
    else if s == "zfs (RAID10)" then Ok(FsType.Zfs(ZfsRaidLevel.Raid10))
    else if s == "zfs (RAIDZ-1)" then Ok(FsType.Zfs(RaidZ))
    else if s == "zfs (RAIDZ-2)" then Ok(FsType.Zfs(RaidZ2))
    else if s == "zfs (RAIDZ-3)" then Ok(FsType.Zfs(RaidZ3))
    else if s == "btrfs (RAID0)" then Ok(FsType.Btrfs(BtrfsRaidLevel.Raid0))
    else if s == "btrfs (RAID1)" then Ok(FsType.Btrfs(BtrfsRaidLevel.Raid1))
    else if s == "btrfs (RAID10)" then Ok(FsType.Btrfs(BtrfsRaidLevel.Raid10))
    else Err(UnknownFileSystem(s))
  }

  /** Parsing inverts serialising. */
  lemma FsTypeFromSerialize(fs: FsType)
    ensures FsTypeFromStr(FsTypeSerialize(fs)) == Ok(fs)
  {
    match fs
    case Ext4 =>
    case Xfs =>
    case Zfs(level) =>
      match level {
        case Raid0 => assert FsTypeSerialize(fs) == "zfs (RAID0)";
        case Raid1 => assert FsTypeSerialize(fs) == "zfs (RAID1)";
        case Raid10 => assert FsTypeSerialize(fs) == "zfs (RAID10)";
        case RaidZ => assert FsTypeSerialize(fs) == "zfs (RAIDZ-1)";
        case RaidZ2 => assert FsTypeSerialize(fs) == "zfs (RAIDZ-2)";
        case RaidZ3 => assert FsTypeSerialize(fs) == "zfs (RAIDZ-3)";
      }
    case Btrfs(level) =>
      match level {
        case Raid0 => assert FsTypeSerialize(fs) == "btrfs (RAID0)";
        case Raid1 => assert FsTypeSerialize(fs) == "btrfs (RAID1)";
        case Raid10 => assert FsTypeSerialize(fs) == "btrfs (RAID10)";
      }
  }

  /** Every accepted string is the serialised name of what it parses to. */
  lemma FsTypeSerializeFromStr(s: string)
    requires FsTypeFromStr(s).Ok?
    ensures FsTypeSerialize(FsTypeFromStr(s).value) == s
  {
    if s == "ext4" || s == "xfs" {
    } else if s == "zfs (RAID0)" {
      assert FsTypeSerialize(FsType.Zfs(ZfsRaidLevel.Raid0)) == s;
    } else if s == "zfs (RAID1)" {
      assert FsTypeSerialize(FsType.Zfs(ZfsRaidLevel.Raid1)) == s;
    } else if s == "zfs (RAID10)" {
      assert FsTypeSerialize(FsType.Zfs(ZfsRaidLevel.Raid10)) == s;
    } else if s == "zfs (RAIDZ-1)" {
      assert FsTypeSerialize(FsType.Zfs(RaidZ)) == s;
    } else if s == "zfs (RAIDZ-2)" {
      assert FsTypeSerialize(FsType.Zfs(RaidZ2)) == s;
    } else if s == "zfs (RAIDZ-3)" {
      assert FsTypeSerialize(FsType.Zfs(RaidZ3)) == s;
    } else if s == "btrfs (RAID0)" {
      assert FsTypeSerialize(FsType.Btrfs(BtrfsRaidLevel.Raid0)) == s;
    } else if s == "btrfs (RAID1)" {
      assert FsTypeSerialize(FsType.Btrfs(BtrfsRaidLevel.Raid1)) == s;
    } else {
      assert FsTypeSerialize(FsType.Btrfs(BtrfsRaidLevel.Raid10)) == s;
    }
  }

  /** The strings `FromStr` accepts are exactly the serialised names. */
  lemma FsTypeFromStrAccepts(s: string)
    ensures FsTypeFromStr(s).Ok? <==> exists f: FsType :: FsTypeSerialize(f) == s
  {
    if FsTypeFromStr(s).Ok? {
      FsTypeSerializeFromStr(s);
    }
    if exists f: FsType :: FsTypeSerialize(f) == s {
      var f: FsType :| FsTypeSerialize(f) == s;
      FsTypeFromSerialize(f);
    }
  }

  /** Distinct filesystem types have distinct serialised names. */
  lemma FsTypeSerializeInjective(a: FsType, b: FsType)
    ensures FsTypeSerialize(a) == FsTypeSerialize(b) ==> a == b
  {
    FsTypeFromSerialize(a);
    FsTypeFromSerialize(b);
  }

  // ---------------------------------------------------------------------
  // Network interface name pinning

  /** `MAX_IFNAME_LEN` of the kernel's `IFNAMSIZ`, less the terminating NUL. */
  const MAX_IFNAME_LEN: nat := 15

  datatype PinningError =
    | EmptyName(mac: string)
    | NameTooLong(name: string, mac: string, limit: nat)
    | FullyNumeric(name: string, mac: string)
    | StartsWithNumber(name: string, mac: string)
    | InvalidCharacters(name: string, mac: string)
    | DuplicateName(name: string, mac: string, duplicateMac: string)

  /** `char::is_numeric` is a Unicode property; on ASCII it holds for the digits only. */
  ghost predicate NumericOnAscii(isNumeric: char -> bool)
  {
    forall c :: IsAscii(c) ==> (isNumeric(c) <==> IsAsciiDigit(c))
  }

  predicate AllNumeric(name: string, isNumeric: char -> bool)
  {
    forall i :: 0 <= i < |name| ==> isNumeric(name[i])
  }

  predicate IsIfnameChar(c: char) { IsAsciiAlphanumeric(c) || c == '_' }

  /** The names `verify` admits: at most 15 bytes of `[A-Za-z0-9_]`, not starting with a digit. */
  predicate ValidIfname(name: string)
  {
    && |name| > 0
    && ByteLen(name) <= MAX_IFNAME_LEN
    && !IsAsciiDigit(name[0])
    && forall i :: 0 <= i < |name| ==> IsIfnameChar(name[i])
  }

  /** The first of the per-name checks of `verify` that `name` fails, in the order they run. */
  function IfnameError(mac: string, name: string, isNumeric: char -> bool): (r: Option<PinningError>)
    requires NumericOnAscii(isNumeric)
    ensures r.None? <==> ValidIfname(name)
    ensures r.Some? ==> !r.value.DuplicateName?
  {
    if name == [] then Some(EmptyName(mac))
    else if ByteLen(name) > MAX_IFNAME_LEN then Some(NameTooLong(name, mac, MAX_IFNAME_LEN))
    else if AllNumeric(name, isNumeric) then Some(FullyNumeric(name, mac))
    else if IsAsciiDigit(name[0]) then Some(StartsWithNumber(name, mac))
    else if !(forall i :: 0 <= i < |name| ==> IsIfnameChar(name[i])) then Some(InvalidCharacters(name, mac))
    else
      assert IsAscii(name[0]) && !isNumeric(name[0]);
      None
  }

  /** No two MAC addresses are mapped to the same name. */
  predicate NamesInjective(mapping: map<string, string>)
  {
    forall m1, m2 :: m1 in mapping && m2 in mapping && m1 != m2 ==> mapping[m1] != mapping[m2]
  }

  /** `e` describes a real defect of `mapping`. */
  predicate PinningErrorHolds(mapping: map<string, string>, isNumeric: char -> bool, e: PinningError)
    requires NumericOnAscii(isNumeric)
  {
    if e.DuplicateName? then
      && e.mac in mapping && e.duplicateMac in mapping && e.mac != e.duplicateMac
      && mapping[e.mac] == e.name && mapping[e.duplicateMac] == e.name
      && ValidIfname(e.name)
    else
      exists mac :: mac in mapping && IfnameError(mac, mapping[mac], isNumeric) == Some(e)
  }

  /**
   * The state of the `verify` loop while the MAC addresses in `remaining`
   * are still to be visited: the names of the visited ones are valid, and
   * `reverse` maps each of those names back to its one MAC address.
   */
  predicate PinningLoopState(mapping: map<string, string>, reverse: map<string, string>, remaining: set<string>)
  {
    && remaining <= mapping.Keys
    && (forall m :: m in mapping && m !in remaining ==> ValidIfname(mapping[m]))
    && (forall m :: m in mapping && m !in remaining ==> mapping[m] in reverse && reverse[mapping[m]] == m)
    && (forall n :: n in reverse ==> reverse[n] in mapping && reverse[n] !in remaining && mapping[reverse[n]] == n)
  }

  /** Visiting one more MAC address whose name is valid and not yet taken. */
  lemma PinningLoopStep(mapping: map<string, string>, reverse: map<string, string>, remaining: set<string>, mac: string)
    requires PinningLoopState(mapping, reverse, remaining)
    requires mac in remaining && ValidIfname(mapping[mac])
    requires mapping[mac] in reverse ==> reverse[mapping[mac]] == mac
    ensures PinningLoopState(mapping, reverse[mapping[mac] := mac], remaining - {mac})
  {
  }

  /** Once every MAC address has been visited, the names are valid and distinct. */
  lemma PinningLoopDone(mapping: map<string, string>, reverse: map<string, string>)
    requires PinningLoopState(mapping, reverse, {})
    ensures forall mac :: mac in mapping ==> ValidIfname(mapping[mac])
    ensures NamesInjective(mapping)
  {
    forall m1, m2 | m1 in mapping && m2 in mapping && m1 != m2 ensures mapping[m1] != mapping[m2] {
      assert reverse[mapping[m1]] == m1 && reverse[mapping[m2]] == m2;
    }
  }

  /**
   * `NetworkInterfacePinningOptions::verify`. The map is a `HashMap`, so the
   * entries are visited in no particular order; which defect is reported
   * depends on it, but that one is reported exactly when there is any.
   */
  method VerifyPinning(mapping: map<string, string>, isNumeric: char -> bool) returns (r: Result<(), PinningError>)
    requires NumericOnAscii(isNumeric)
    ensures r.Ok? <==> (forall mac :: mac in mapping ==> ValidIfname(mapping[mac])) && NamesInjective(mapping)
    ensures r.Err? ==> PinningErrorHolds(mapping, isNumeric, r.error)
  {
    var reverse: map<string, string> := map[];
    var remaining := mapping.Keys;
    while remaining != {}
      invariant PinningLoopState(mapping, reverse, remaining)
      decreases |remaining|
    {
      var mac :| mac in remaining;
      var name := mapping[mac];
      var err := IfnameError(mac, name, isNumeric);
      if err.Some? {
        assert !ValidIfname(mapping[mac]);
        assert PinningErrorHolds(mapping, isNumeric, err.value) by {
          assert !err.value.DuplicateName? && IfnameError(mac, mapping[mac], isNumeric) == err;
        }
        return Err(err.value);
      }
      if name in reverse && reverse[name] != mac {
        var duplicate := reverse[name];
        assert !NamesInjective(mapping) by {
          assert mapping[duplicate] == name && mapping[mac] == name;
        }
        return Err(DuplicateName(name, mac, duplicate));
      }
      PinningLoopStep(mapping, reverse, remaining, mac);
      reverse := reverse[name := mac];
      remaining := remaining - {mac};
    }
    PinningLoopDone(mapping, reverse);
    return Ok(());
  }

  /** Tests `fail_on_empty_name` and `fail_on_overlong_name`. */
  lemma PinningEmptyAndLongNames(isNumeric: char -> bool)
    requires NumericOnAscii(isNumeric)
    ensures IfnameError("ab:cd:ef:12:34:56", "", isNumeric) == Some(EmptyName("ab:cd:ef:12:34:56"))
    ensures IfnameError("ab:cd:ef:12:34:56", "waytoolonginterfacename", isNumeric)
      == Some(NameTooLong("waytoolonginterfacename", "ab:cd:ef:12:34:56", 15))
  {
    ByteLenBounds("waytoolonginterfacename");
  }

  /** Test `fail_on_invalid_characters`: the hyphen is not allowed. */
  lemma PinningInvalidCharacters(isNumeric: char -> bool)
    requires NumericOnAscii(isNumeric)
    ensures IfnameError("ab:cd:ef:12:34:56", "nic-", isNumeric) == Some(InvalidCharacters("nic-", "ab:cd:ef:12:34:56"))
  {
    AsciiByteLen("nic-");
    assert !AllNumeric("nic-", isNumeric) by { assert IsAscii("nic-"[0]) && !isNumeric("nic-"[0]); }
    assert !IsIfnameChar("nic-"[3]);
  }

  /** Test `fail_on_name_starting_with_number`. */
  lemma PinningLeadingDigit(isNumeric: char -> bool)
    requires NumericOnAscii(isNumeric)
    ensures IfnameError("ab:cd:ef:12:34:56", "0nic", isNumeric) == Some(StartsWithNumber("0nic", "ab:cd:ef:12:34:56"))
  {
    AsciiByteLen("0nic");
    assert !AllNumeric("0nic", isNumeric) by { assert IsAscii("0nic"[1]) && !isNumeric("0nic"[1]); }
  }

  /** Test `fail_on_fully_numeric_name`. */
  lemma PinningFullyNumeric(isNumeric: char -> bool)
    requires NumericOnAscii(isNumeric)
    ensures IfnameError("ab:cd:ef:12:34:56", "12345", isNumeric) == Some(FullyNumeric("12345", "ab:cd:ef:12:34:56"))
  {
    AsciiByteLen("12345");
    assert AllNumeric("12345", isNumeric) by {
      forall i | 0 <= i < 5 ensures isNumeric("12345"[i]) {
        assert IsAscii("12345"[i]) && IsAsciiDigit("12345"[i]);
      }
    }
  }

  lemma AsciiByteLen(s: string)
    requires forall i :: 0 <= i < |s| ==> IsAscii(s[i])
    ensures ByteLen(s) == |s|
  {
    ByteLenBounds(s);
  }

  /** Test `fail_on_duplicate_name`: two MACs mapped to `nic0` are reported together. */
  lemma PinningDuplicateCase(isNumeric: char -> bool, e: PinningError)
    requires NumericOnAscii(isNumeric)
    requires PinningErrorHolds(map["ab:cd:ef:12:34:56" := "nic0", "12:34:56:ab:cd:ef" := "nic0"], isNumeric, e)
    ensures e.DuplicateName? && e.name == "nic0"
    ensures {e.mac, e.duplicateMac} == {"ab:cd:ef:12:34:56", "12:34:56:ab:cd:ef"}
  {
    AsciiByteLen("nic0");
  }

  // ---------------------------------------------------------------------
  // Network options

  /**
   * `NetworkOptions`: the management interface, FQDN, address, gateway and DNS
   * server; `pinningOpts` is the MAC-to-name mapping of
   * `NetworkInterfacePinningOptions`, when pinning is enabled.
   */
  datatype NetworkOptions = NetworkOptions(
    ifname: string,
    fqdn: Fqdn,
    address: CidrAddress,
    gateway: IpAddr,
    dnsServer: IpAddr,
    pinningOpts: Option<map<string, string>>)

  // ---------------------------------------------------------------------
  // FQDN construction

  const DEFAULT_DOMAIN: string := "example.invalid"

  /**
   * `NetworkOptions::construct_fqdn`. The fallback FQDN is unwrapped, so the
   * default host name has to be a single non-numeric label.
   */
  function ConstructFqdn(network: NetworkInfo, defaultHostname: string, defaultDomain: Option<string>): (f: Fqdn)
    requires IsLabel(defaultHostname) && '.' !in defaultHostname && !AllAsciiDigits(defaultHostname)
    ensures ValidFqdn(f)
  {
    var hostname := network.hostname.UnwrapOr(defaultHostname);
    var primary := ParseFqdn(hostname + "." + FqdnDomainChoice(network, defaultDomain));
    if primary.Ok? then
      ParseFqdnValid(hostname + "." + FqdnDomainChoice(network, defaultDomain));
      primary.value
    else
      HostInDefaultDomain(defaultHostname);
      ParseFqdnValid(defaultHostname + ".example.invalid");
      ParseFqdn(defaultHostname + ".example.invalid").value
  }

  /** The caller's default domain, else the DHCP domain, else `example.invalid`. */
  function FqdnDomainChoice(network: NetworkInfo, defaultDomain: Option<string>): (d: string)
    ensures defaultDomain.Some? ==> d == defaultDomain.value
    ensures defaultDomain.None? && network.dns.domain.Some? ==> d == network.dns.domain.value
    ensures defaultDomain.None? && network.dns.domain.None? ==> d == DEFAULT_DOMAIN
  {
    match defaultDomain
    case Some(d) => d
    case None => network.dns.domain.UnwrapOr(DEFAULT_DOMAIN)
  }

  /** Splitting `h.d` at dots, for a label `h`, gives `h` and then the labels of `d`. */
  lemma SplitHostDomain(h: string, d: string)
    requires '.' !in h
    ensures Split(h + "." + d, '.') == [h] + Split(d, '.')
  {
    SplitOnceAt(h, d, '.');
  }

  /**
   * The precedence of `construct_fqdn`: the network's host name wins over the
   * product default, and the chosen domain is used whenever the combination
   * is a valid FQDN; otherwise the result is `<default host>.example.invalid`.
   */
  lemma ConstructFqdnChoice(network: NetworkInfo, defaultHostname: string, defaultDomain: Option<string>)
    requires IsLabel(defaultHostname) && '.' !in defaultHostname && !AllAsciiDigits(defaultHostname)
    ensures var hostname := network.hostname.UnwrapOr(defaultHostname);
      var domain := FqdnDomainChoice(network, defaultDomain);
      var f := ConstructFqdn(network, defaultHostname, defaultDomain);
      && (ParseFqdn(hostname + "." + domain).Ok? ==> f.ToString() == hostname + "." + domain)
      && (ParseFqdn(hostname + "." + domain).Ok? && '.' !in hostname ==>
            f.Host() == Some(hostname) && f.Domain() == domain)
      && (ParseFqdn(hostname + "." + domain).Err? ==>
            f.Host() == Some(defaultHostname) && f.Domain() == DEFAULT_DOMAIN)
  {
    var hostname := network.hostname.UnwrapOr(defaultHostname);
    var domain := FqdnDomainChoice(network, defaultDomain);
    var s := hostname + "." + domain;
    if ParseFqdn(s).Ok? {
      ParseFqdnDisplay(s);
      if '.' !in hostname {
        SplitHostDomain(hostname, domain);
        ParseFqdnHostDomain(s);
        JoinSplit(domain, '.');
        assert ([hostname] + Split(domain, '.'))[1..] == Split(domain, '.');
      }
    } else {
      HostInDefaultDomain(defaultHostname);
    }
  }

  // ---------------------------------------------------------------------
  // Defaults

  /** `LvmBootdiskOptions::defaults_from`: the whole disk, no size limits. */
  function LvmDefaultsFrom(disk: Disk): (o: LvmBootdiskOptions)
    ensures o.totalSize == disk.size
    ensures o.swapSize.None? && o.maxRootSize.None? && o.maxDataSize.None? && o.minLvmFree.None?
  {
    LvmBootdiskOptions(disk.size, None, None, None, None)
  }

  /** `0..n` collected. */
  function Range(n: nat): (r: seq<nat>)
    ensures |r| == n && forall i :: 0 <= i < n ==> r[i] == i
  {
    seq(n, i requires 0 <= i => i as nat)
  }

  /** `BtrfsBootdiskOptions::defaults_from`, which panics on an empty list. */
  function BtrfsDefaultsFrom(disks: seq<Disk>): (o: BtrfsBootdiskOptions)
    requires |disks| > 0
    ensures o.diskSize == disks[0].size && o.compress == BtrfsCompressOption.Off
    ensures o.selectedDisks == Range(|disks|)
  {
    BtrfsBootdiskOptions(disks[0].size, Range(|disks|), BtrfsCompressOption.Off)
  }

  /** `ZfsBootdiskOptions::defaults_from`, which panics without disks. */
  function ZfsDefaultsFrom(runtime: RuntimeInfo): (o: ZfsBootdiskOptions)
    requires |runtime.disks| > 0
    ensures o.ashift == 12 && o.copies == 1
    ensures o.compress == ZfsCompressOption.On && o.checksum == ZfsChecksumOption.On
    ensures o.arcMax == runtime.defaultZfsArcMax && o.diskSize == runtime.disks[0].size
    ensures o.selectedDisks == Range(|runtime.disks|)
  {
    ZfsBootdiskOptions(12, ZfsCompressOption.On, ZfsChecksumOption.On, 1,
      runtime.defaultZfsArcMax, runtime.disks[0].size, Range(|runtime.disks|))
  }

  /** `BootdiskOptions::defaults_from`: ext4 on LVM over the given disk. */
  function BootdiskDefaultsFrom(disk: Disk): (o: BootdiskOptions)
    ensures o.disks == [disk] && o.fstype == Ext4 && IsLvm(o.fstype)
    ensures o.advanced == AdvancedBootdiskOptions.Lvm(LvmDefaultsFrom(disk))
  {
    BootdiskOptions([disk], Ext4, AdvancedBootdiskOptions.Lvm(LvmDefaultsFrom(disk)))
  }

  datatype TimezoneOptions = TimezoneOptions(country: string, timezone: string, kbLayout: string)

  /**
   * `TimezoneOptions::defaults_from`: the detected country or `at`; that
   * country's first zone or `UTC`; its keyboard map or `en-us`.
   */
  function TimezoneDefaultsFrom(runtime: RuntimeInfo, locales: LocaleInfo): (o: TimezoneOptions)
    ensures o.country == runtime.country.UnwrapOr("at")
    ensures o.country in locales.cczones && |locales.cczones[o.country]| > 0 ==>
      o.timezone == locales.cczones[o.country][0]
    ensures !(o.country in locales.cczones && |locales.cczones[o.country]| > 0) ==> o.timezone == "UTC"
    ensures o.country in locales.countries && locales.countries[o.country].kmap != "" ==>
      o.kbLayout == locales.countries[o.country].kmap
    ensures !(o.country in locales.countries && locales.countries[o.country].kmap != "") ==>
      o.kbLayout == "en-us"
  {
    var country := runtime.country.UnwrapOr("at");
    var timezone :=
      if country in locales.cczones && |locales.cczones[country]| > 0 then locales.cczones[country][0]
      else "UTC";
    var kbLayout :=
      if country in locales.countries && locales.countries[country].kmap != "" then locales.countries[country].kmap
      else "en-us";
    TimezoneOptions(country, timezone, kbLayout)
  }

  /** The default timezone is always one the locale tables list, or `UTC`. */
  lemma TimezoneDefaultIsKnown(runtime: RuntimeInfo, locales: LocaleInfo)
    ensures var tz := TimezoneDefaultsFrom(runtime, locales).timezone;
      tz == "UTC" || exists cc :: cc in locales.cczones && tz in locales.cczones[cc]
  {
    var o := TimezoneDefaultsFrom(runtime, locales);
    if o.timezone != "UTC" {
      assert o.timezone in locales.cczones[o.country];
    }
  }

  datatype EmailError = NotAnAddress | DefaultAddress

  /**
   * `email_validate`: the address has to match the HTML e-mail pattern
   * (`matchesPattern`) and must not be the placeholder.
   */
  function EmailValidate(email: string, matchesPattern: string -> bool): (r: Result<(), EmailError>)
    ensures r.Ok? <==> matchesPattern(email) && email != EMAIL_DEFAULT_PLACEHOLDER
    ensures r == Err(NotAnAddress) <==> !matchesPattern(email)
  {
    if !matchesPattern(email) then Err(NotAnAddress)
    else if email == EMAIL_DEFAULT_PLACEHOLDER then Err(DefaultAddress)
    else Ok(())
  }
}
