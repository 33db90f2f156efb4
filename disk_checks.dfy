/**
 * `proxmox-installer-common/src/disk_checks.rs`: the checks run on a disk
 * selection before it is accepted.
 */
module DiskChecks {
  import opened Wrappers
  import opened Text
  import opened OptionTypes
  import opened CommonSetup

  /** The indices of `disks` are pairwise distinct. */
  predicate DistinctIndices(disks: seq<Disk>)
  {
    forall i, j :: 0 <= i < j < |disks| ==> disks[i].index != disks[j].index
  }

  /** `disks[k]` is the first disk whose index already occurred before it. */
  predicate FirstRepeat(disks: seq<Disk>, k: nat)
  {
    && k < |disks|
    && DistinctIndices(disks[..k])
    && exists j :: 0 <= j < k && disks[j].index == disks[k].index
  }

  /**
   * `check_for_duplicate_disks`: the indices are inserted into a set one by
   * one, and the first disk whose index is already present is returned.
   */
  method CheckForDuplicateDisks(disks: seq<Disk>) returns (r: Result<(), Disk>)
    ensures r.Ok? <==> DistinctIndices(disks)
    ensures r.Err? ==> exists k :: 0 <= k < |disks| && FirstRepeat(disks, k) && r.error == disks[k]
  {
    var seen: set<string> := {};
    var i := 0;
    while i < |disks|
      invariant 0 <= i <= |disks|
      invariant DistinctIndices(disks[..i])
      invariant seen == set j | 0 <= j < i :: disks[j].index
    {
      if disks[i].index in seen {
        var j :| 0 <= j < i && disks[j].index == disks[i].index;
        assert FirstRepeat(disks, i);
        assert !DistinctIndices(disks) by {
          assert disks[j].index == disks[i].index;
        }
        return Err(disks[i]);
      }
      assert forall j :: 0 <= j < i ==> disks[j].index != disks[i].index by {
        forall j | 0 <= j < i ensures disks[j].index != disks[i].index {
          assert disks[j].index in seen;
        }
      }
      seen := seen + {disks[i].index};
      assert disks[..i + 1] == disks[..i] + [disks[i]];
      i := i + 1;
    }
    assert disks[..i] == disks;
    return Ok(());
  }

  datatype MinDisksError = NeedAtLeast(min: nat)

  /** `check_raid_min_disks`: "Need at least {min} disks" exactly when too few are given. */
  function CheckRaidMinDisks(disks: seq<Disk>, min: nat): (r: Result<(), MinDisksError>)
    ensures r.Err? <==> |disks| < min
    ensures r.Err? ==> r.error == NeedAtLeast(min)
  {
    if |disks| < min then Err(NeedAtLeast(min)) else Ok(())
  }

  const LEGACY_4KN_ERROR := "Booting from 4Kn drive in legacy BIOS mode is not supported."

  const BLOCK_SIZE_4KN: nat := 4096

  /** `check_disks_4kn_legacy_boot`: legacy BIOS cannot boot from a 4Kn disk. */
  function CheckDisks4knLegacyBoot(bootType: BootType, disks: seq<Disk>): (r: Result<(), string>)
    ensures r.Err? <==> bootType == Bios && exists i :: 0 <= i < |disks| && disks[i].blockSize == Some(BLOCK_SIZE_4KN)
    ensures r.Err? ==> r.error == LEGACY_4KN_ERROR
  {
    if bootType == Bios && Any4kn(disks) then Err(LEGACY_4KN_ERROR) else Ok(())
  }

  /** `disks.iter().any(|disk| disk.block_size == Some(4096))`. */
  function Any4kn(disks: seq<Disk>): (b: bool)
    ensures b <==> exists i :: 0 <= i < |disks| && disks[i].blockSize == Some(BLOCK_SIZE_4KN)
  {
    if disks == [] then false
    else disks[0].blockSize == Some(BLOCK_SIZE_4KN) || (assert forall i :: 1 <= i < |disks| ==> disks[i] == disks[1..][i - 1]; Any4kn(disks[1..]))
  }

  /** The swap-size error names the requested size and the threshold (half the disk). */
  datatype SwapsizeError = SwapTooLarge(swapsize: real, threshold: real)

  /** `check_swapsize`: the swap may take at most half of the disk. */
  function CheckSwapsize(swapsize: real, hdsize: real): (r: Result<(), SwapsizeError>)
    ensures r.Ok? <==> swapsize <= hdsize / 2.0
    ensures r.Err? ==> r.error == SwapTooLarge(swapsize, hdsize / 2.0) && r.error.swapsize > r.error.threshold
  {
    var threshold := hdsize / 2.0;
    if swapsize <= threshold then Ok(()) else Err(SwapTooLarge(swapsize, threshold))
  }

  /** `check_lvm_bootdisk_opts`: only a given swap size is checked, against the total size. */
  function CheckLvmBootdiskOpts(opts: LvmBootdiskOptions): (r: Result<(), SwapsizeError>)
    ensures opts.swapSize.None? ==> r.Ok?
    ensures opts.swapSize.Some? ==> r == CheckSwapsize(opts.swapSize.value, opts.totalSize)
    ensures r.Ok? <==> opts.swapSize.None? || opts.swapSize.value * 2.0 <= opts.totalSize
  {
    match opts.swapSize
    case None => Ok(())
    case Some(swap) => CheckSwapsize(swap, opts.totalSize)
  }

  /** The disks `Disk::dummy(0..n)` of the unit tests. */
  function DummyDisk(i: nat): (d: Disk)
    ensures d.index == NatToString(i)
  {
    Disk(
      index := NatToString(i),
      path := "/dev/dummy" + NatToString(i),
      model := Some("Dummy disk"),
      size := 1024.0 * 1024.0 * 1024.0 * 8.0,
      blockSize := Some(512))
  }

  /** Test `duplicate_disks`: in dummies 0, 1, 2, 2, 3 the second 2 is the reported repeat. */
  lemma DuplicateDisksExample()
    ensures var disks := [DummyDisk(0), DummyDisk(1), DummyDisk(2), DummyDisk(2), DummyDisk(3)];
      !DistinctIndices(disks) && FirstRepeat(disks, 3) && disks[3] == DummyDisk(2)
  {
    var disks := [DummyDisk(0), DummyDisk(1), DummyDisk(2), DummyDisk(2), DummyDisk(3)];
    NatToStringInjective(0, 1);
    NatToStringInjective(0, 2);
    NatToStringInjective(1, 2);
    assert disks[..3] == [DummyDisk(0), DummyDisk(1), DummyDisk(2)];
    assert disks[2].index == disks[3].index;
  }
}
