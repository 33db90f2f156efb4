/**
 * `proxmox-chroot/src/main.rs`: preparing an installed system for `chroot`
 * and cleaning up afterwards. These are:
 * - the file system name given with `-f` and the one stored in the
 *   low-level configuration of the installation;
 * - the choice of the pool to import and of the BTRFS file system to mount;
 * - the order of the mounts and unmounts, and which failures stop it.
 *
 * Commands are not run: each one is an `Action`, and how it ends is an
 * `outcome` parameter. The output of `btrfs filesystem show`, the stored
 * configuration and the product name from the ISO information are
 * parameters too.
 */
module Chroot {
  import opened Wrappers
  import opened Text
  import opened Seqs
  import OptionTypes
  import CommonOptions
  import CommonSetup

  const ANSWER_MP := "answer"
  const BINDMOUNTS: seq<string> := ["dev", "proc", "run", "sys"]
  const TARGET_DIR := "/target"
  const ZPOOL_NAME := "rpool"

  /** `u64`, the type of the `--rpool-id` argument. */
  type U64 = n: nat | n < 0x1_0000_0000_0000_0000

  // ---------------------------------------------------------------------
  // File systems

  /** The four kinds of root file system the tool can mount. */
  datatype Filesystems = Zfs | Ext4 | Xfs | Btrfs

  datatype ChrootError =
    | UnknownFilesystem
    | NoLowLevelConfig
    | NoIsoInfo
    | BtrfsShowNotRun
    | BtrfsShowFailed(stderr: string)
    | NoBtrfsUuid
    | ManyBtrfsUuids(count: nat, uuidList: string)
    | ActionFailed(action: Action)

  /** `From<FsType> for Filesystems`: the RAID level is dropped. */
  function FromFsType(fs: OptionTypes.FsType): (r: Filesystems)
    ensures r == Ext4 || r == Xfs <==> CommonOptions.IsLvm(fs)
    ensures r == Zfs <==> fs.Zfs?
    ensures r == Btrfs <==> fs.Btrfs?
  {
    match fs
    case Xfs => Xfs
    case Ext4 => Ext4
    case Zfs(_) => Zfs
    case Btrfs(_) => Btrfs
  }

  /**
   * `FromStr for Filesystems`: "ext4" and "xfs" exactly, then any text
   * starting with "zfs" or with "btrfs".
   */
  function ParseFilesystems(s: string): (r: Result<Filesystems, ChrootError>)
  {
    if s == "ext4" then Ok(Ext4)
    else if s == "xfs" then Ok(Xfs)
    else if StartsWith(s, "zfs") then Ok(Zfs)
    else if StartsWith(s, "btrfs") then Ok(Btrfs)
    else Err(UnknownFilesystem)
  }

  /** Which texts name which file system, and that every other text is refused. */
  lemma ParseFilesystemsSpec(s: string)
    ensures ParseFilesystems(s) == Ok(Ext4) <==> s == "ext4"
    ensures ParseFilesystems(s) == Ok(Xfs) <==> s == "xfs"
    ensures ParseFilesystems(s) == Ok(Zfs) <==> StartsWith(s, "zfs")
    ensures ParseFilesystems(s) == Ok(Btrfs) <==> StartsWith(s, "btrfs")
    ensures ParseFilesystems(s).Err? <==>
              s != "ext4" && s != "xfs" && !StartsWith(s, "zfs") && !StartsWith(s, "btrfs")
  {
    if StartsWith(s, "zfs") {
      assert s[0] == 'z';
    }
    if StartsWith(s, "btrfs") {
      assert s[0] == 'b';
      assert s[..3] != "zfs";
    }
  }

  /** Any text after "zfs" names ZFS. */
  lemma ParseZfsPrefixed(rest: string)
    ensures ParseFilesystems("zfs" + rest) == Ok(Zfs)
  {
    var s := "zfs" + rest;
    assert s[..3] == "zfs";
    assert s[0] == 'z';
  }

  /** Any text after "btrfs" names BTRFS. */
  lemma ParseBtrfsPrefixed(rest: string)
    ensures ParseFilesystems("btrfs" + rest) == Ok(Btrfs)
  {
    var s := "btrfs" + rest;
    assert s[..5] == "btrfs";
    assert s[0] == 'b';
  }

  /**
   * The serialised name of every `FsType` (as the installer stores it)
   * parses to the file system that `From<FsType>` gives.
   */
  lemma {:induction false} ParseSerialized(fs: OptionTypes.FsType)
    ensures ParseFilesystems(CommonOptions.FsTypeSerialize(fs)) == Ok(FromFsType(fs))
  {
    match fs
    case Ext4 =>
    case Xfs =>
    case Zfs(level) =>
      var name := CommonOptions.ZfsRaidLevelName(level);
      assert CommonOptions.FsTypeSerialize(fs) == "zfs" + (" (" + name + ")");
      ParseZfsPrefixed(" (" + name + ")");
    case Btrfs(level) =>
      var name := CommonOptions.BtrfsRaidLevelName(level);
      assert CommonOptions.FsTypeSerialize(fs) == "btrfs" + (" (" + name + ")");
      ParseBtrfsPrefixed(" (" + name + ")");
  }

  /**
   * `get_fs`: the file system given on the command line, or else the one of
   * the stored low-level configuration; without either it is an error.
   */
  function GetFs(filesystem: Option<Filesystems>, lowLevelConfig: Option<CommonSetup.InstallConfig>)
    : (r: Result<Filesystems, ChrootError>)
    ensures filesystem.Some? ==> r == Ok(filesystem.value)
    ensures filesystem.None? && lowLevelConfig.None? ==> r == Err(NoLowLevelConfig)
    ensures filesystem.None? && lowLevelConfig.Some? ==> r == Ok(FromFsType(lowLevelConfig.value.filesys))
  {
    match filesystem
    case Some(fs) => Ok(fs)
    case None =>
      match lowLevelConfig
      case None => Err(NoLowLevelConfig)
      case Some(config) => Ok(FromFsType(config.filesys))
  }

  /** An explicit file system makes the stored configuration irrelevant. */
  lemma GetFsExplicitWins(fs: Filesystems, a: Option<CommonSetup.InstallConfig>, b: Option<CommonSetup.InstallConfig>)
    ensures GetFs(Some(fs), a) == GetFs(Some(fs), b) == Ok(fs)
  {
  }

  /** Without one, the stored file system's kind is used whatever its RAID level. */
  lemma GetFsFromConfig(config: CommonSetup.InstallConfig)
    ensures GetFs(None, Some(config)).Ok?
    ensures GetFs(None, Some(config)) == Ok(Zfs) <==> config.filesys.Zfs?
    ensures GetFs(None, Some(config)) == Ok(Btrfs) <==> config.filesys.Btrfs?
  {
  }

  // ---------------------------------------------------------------------
  // Commands and their outcomes

  /** One command or filesystem change the tool performs. */
  datatype Action =
    | CreateDir(path: string)
    | ImportPool(args: seq<string>)
    | ExportPool(pool: string)
    | ActivateVg(vg: string)
    | MountDevice(device: string, target: string)
    | MountUuid(uuid: string, target: string)
    | BindMount(source: string, target: string)
    | Unmount(target: string)
    | RemoveDir(path: string)

  /** How a command ended: it succeeded, exited with failure, or could not be started. */
  datatype Outcome = Succeeded | Failed | NotStarted

  /** The captured result of a command that could be started. */
  datatype CommandOutput = CommandOutput(success: bool, stdout: string, stderr: string)

  function Fails(outcome: Action -> Outcome): Action -> bool
  {
    (a: Action) => outcome(a) != Succeeded
  }

  /** Every action of `plan` succeeds. */
  predicate AllSucceed(plan: seq<Action>, outcome: Action -> Outcome)
  {
    FirstIndex(plan, Fails(outcome)).None?
  }

  /** The actions of `plan` up to and including the first that fails. */
  function Attempted(plan: seq<Action>, outcome: Action -> Outcome): seq<Action>
  {
    match FirstIndex(plan, Fails(outcome))
    case None => plan
    case Some(k) => plan[..k + 1]
  }

  /**
   * A sequence of commands joined by `?`: the log is the attempted prefix,
   * and the result is an error naming the last one exactly when one failed.
   */
  ghost predicate RanInOrder(plan: seq<Action>, outcome: Action -> Outcome, log: seq<Action>, r: Result<(), ChrootError>)
  {
    && log == Attempted(plan, outcome)
    && (r.Ok? <==> AllSucceed(plan, outcome))
    && (r.Err? ==> log != [] && r.error == ActionFailed(log[|log| - 1]))
  }

  /**
   * The attempted actions are a prefix of the plan in which all but the
   * last succeeded; the whole plan is attempted when all succeed, and
   * otherwise the last attempted one failed.
   */
  lemma AttemptedSpec(plan: seq<Action>, outcome: Action -> Outcome)
    ensures var a := Attempted(plan, outcome);
            && |a| <= |plan| && a == plan[..|a|]
            && (forall i :: 0 <= i < |a| - 1 ==> outcome(a[i]) == Succeeded)
            && (AllSucceed(plan, outcome) <==> a == plan && forall i :: 0 <= i < |plan| ==> outcome(plan[i]) == Succeeded)
            && (!AllSucceed(plan, outcome) ==> a != [] && outcome(a[|a| - 1]) != Succeeded)
  {
    FirstIndexSpec(plan, Fails(outcome));
    var a := Attempted(plan, outcome);
    if !AllSucceed(plan, outcome) {
      var k := FirstIndex(plan, Fails(outcome)).value;
      assert forall i :: 0 <= i < |a| ==> a[i] == plan[i];
      assert outcome(a[k]) != Succeeded;
    }
  }

  /** A plan of one action. */
  lemma AttemptedOne(a: Action, outcome: Action -> Outcome)
    ensures Attempted([a], outcome) == [a]
    ensures AllSucceed([a], outcome) <==> outcome(a) == Succeeded
  {
    assert FirstIndex([a], Fails(outcome)) == if outcome(a) != Succeeded then Some(0) else None by {
      assert [a][1..] == [];
    }
  }

  /** A plan of two actions: the second runs only after the first succeeded. */
  lemma AttemptedTwo(a: Action, b: Action, outcome: Action -> Outcome)
    ensures outcome(a) != Succeeded ==> Attempted([a, b], outcome) == [a] && !AllSucceed([a, b], outcome)
    ensures outcome(a) == Succeeded ==> Attempted([a, b], outcome) == [a, b]
    ensures AllSucceed([a, b], outcome) <==> outcome(a) == Succeeded && outcome(b) == Succeeded
  {
    assert [a, b][1..] == [b];
    AttemptedOne(b, outcome);
  }

  // ---------------------------------------------------------------------
  // Mounting the root file system

  /** `mount_zpool`: `zpool import -R /target` with the numeric pool id if given, else "rpool". */
  function ZpoolImportArgs(poolId: Option<U64>): (r: seq<string>)
    ensures |r| == 4 && r[..3] == ["import", "-R", TARGET_DIR]
    ensures r[3] == ZPOOL_NAME <==> poolId.None?
    ensures poolId.Some? ==> ParseUsize(r[3]) == Ok(poolId.value)
  {
    match poolId
    case None => ["import", "-R", TARGET_DIR, ZPOOL_NAME]
    case Some(id) =>
      var name := NatToString(id);
      ParseNatToString(id);
      assert name != ZPOOL_NAME by {
        assert IsAsciiDigit(name[0]);
      }
      ["import", "-R", TARGET_DIR, name]
  }

  /**
   * `mount_zpool` as written: only an import that exits with failure is an
   * error; one that could not be started is taken as success.
   */
  function ZpoolImportAsWritten(poolId: Option<U64>, outcome: Action -> Outcome): (r: Result<(), ChrootError>)
    ensures r.Err? <==> outcome(ImportPool(ZpoolImportArgs(poolId))) == Failed
  {
    var importPool := ImportPool(ZpoolImportArgs(poolId));
    if outcome(importPool) == Failed then Err(ActionFailed(importPool)) else Ok(())
  }

  /** `mount_zpool` with every unsuccessful import an error. */
  function ZpoolImport(poolId: Option<U64>, outcome: Action -> Outcome): (r: Result<(), ChrootError>)
    ensures RanInOrder([ImportPool(ZpoolImportArgs(poolId))], outcome, [ImportPool(ZpoolImportArgs(poolId))], r)
  {
    var importPool := ImportPool(ZpoolImportArgs(poolId));
    AttemptedOne(importPool, outcome);
    if outcome(importPool) != Succeeded then Err(ActionFailed(importPool)) else Ok(())
  }

  /** An import that could not be started is reported as done by the code as written. */
  lemma ZpoolImportNotStarted(poolId: Option<U64>)
    ensures ZpoolImportAsWritten(poolId, (a: Action) => NotStarted) == Ok(())
    ensures ZpoolImport(poolId, (a: Action) => NotStarted).Err?
  {
  }

  /** The two agree whenever the import could be started. */
  lemma ZpoolImportAgrees(poolId: Option<U64>, outcome: Action -> Outcome)
    requires outcome(ImportPool(ZpoolImportArgs(poolId))) != NotStarted
    ensures ZpoolImportAsWritten(poolId, outcome) == ZpoolImport(poolId, outcome)
  {
  }

  /** `mount_fs`: activate the product's volume group, then mount its root volume. */
  function MountFsPlan(product: string): seq<Action>
  {
    [ActivateVg(product), MountDevice("/dev/mapper/" + product + "-root", TARGET_DIR)]
  }

  /**
   * `mount_fs`: without the ISO information (the product name) nothing is
   * run; otherwise the two commands run in order and stop at a failure.
   */
  method MountFs(product: Option<string>, outcome: Action -> Outcome)
    returns (log: seq<Action>, r: Result<(), ChrootError>)
    ensures product.None? ==> log == [] && r == Err(NoIsoInfo)
    ensures product.Some? ==> RanInOrder(MountFsPlan(product.value), outcome, log, r)
  {
    if product.None? {
      return [], Err(NoIsoInfo);
    }
    var p := product.value;
    var activate := ActivateVg(p);
    var mount := MountDevice("/dev/mapper/" + p + "-root", TARGET_DIR);
    AttemptedTwo(activate, mount, outcome);
    log := [activate];
    if outcome(activate) != Succeeded {
      return log, Err(ActionFailed(activate));
    }
    log := log + [mount];
    if outcome(mount) != Succeeded {
      return log, Err(ActionFailed(mount));
    }
    r := Ok(());
  }

  // ---------------------------------------------------------------------
  // The BTRFS file system to mount

  const UUID_MARKER := "uuid: "

  predicate IsLowerHex(c: char) { '0' <= c <= '9' || 'a' <= c <= 'f' }

  predicate UuidDashAt(i: int) { i == 8 || i == 13 || i == 18 || i == 23 }

  /** Text of the form `[0-9a-f]{8}-[0-9a-f]{4}-[0-9a-f]{4}-[0-9a-f]{4}-[0-9a-f]{12}`. */
  predicate IsUuid(u: string)
  {
    |u| == 36 && forall i :: 0 <= i < 36 ==> if UuidDashAt(i) then u[i] == '-' else IsLowerHex(u[i])
  }

  /**
   * The first capture group of `uuid: (<uuid>)$` on one line. The pattern has
   * a fixed length and is anchored at the end, so a match is the line's last
   * 42 characters.
   */
  function UuidCapture(line: string): (r: Option<string>)
  {
    var n := |line|;
    if n >= 42 && line[n - 42..n - 36] == UUID_MARKER && IsUuid(line[n - 36..]) then Some(line[n - 36..])
    else None
  }

  predicate HasUuid(line: string) { UuidCapture(line).Some? }

  /** A captured UUID is well formed and ends its line, after the marker. */
  lemma UuidCaptureSpec(line: string)
    requires HasUuid(line)
    ensures var u := UuidCapture(line).value;
            IsUuid(u) && line == line[..|line| - 42] + UUID_MARKER + u
  {
    var n := |line|;
    assert line == line[..n - 42] + line[n - 42..n - 36] + line[n - 36..];
  }

  /** Every line ending in the marker and a UUID yields exactly that UUID. */
  lemma UuidCaptureOf(prefix: string, u: string)
    requires IsUuid(u)
    ensures UuidCapture(prefix + UUID_MARKER + u) == Some(u)
  {
    var line := prefix + UUID_MARKER + u;
    var n := |line|;
    assert line[n - 36..] == u;
    assert line[n - 42..n - 36] == UUID_MARKER;
  }

  /** The UUIDs captured from the lines, in order. */
  function Captured(lines: seq<string>): (r: seq<string>)
    ensures |r| == Count(lines, HasUuid)
    ensures forall k :: 0 <= k < |r| ==> IsUuid(r[k])
  {
    if lines == [] then []
    else
      var last := lines[|lines| - 1];
      Captured(lines[..|lines| - 1]) + match UuidCapture(last) { case Some(u) => [u] case None => [] }
  }

  /** The list in the error message: each UUID preceded by a line break, as the `fold` builds it. */
  function UuidList(uuids: seq<string>): string
  {
    if uuids == [] then ""
    else UuidList(uuids[..|uuids| - 1]) + "\n" + uuids[|uuids| - 1]
  }

  /** The UUID selection of `get_btrfs_uuid` on the output of `btrfs filesystem show`. */
  function BtrfsUuidOf(show: Option<CommandOutput>): Result<string, ChrootError>
  {
    match show
    case None => Err(BtrfsShowNotRun)
    case Some(output) =>
      if !output.success then Err(BtrfsShowFailed(output.stderr))
      else
        var uuids := Captured(Lines(output.stdout));
        if |uuids| == 0 then Err(NoBtrfsUuid)
        else if |uuids| > 1 then Err(ManyBtrfsUuids(|uuids|, UuidList(uuids)))
        else Ok(uuids[0])
  }

  /** `get_btrfs_uuid`: the loop collecting the captured UUIDs of each output line. */
  method GetBtrfsUuid(show: Option<CommandOutput>) returns (r: Result<string, ChrootError>)
    ensures r == BtrfsUuidOf(show)
  {
    if show.None? {
      return Err(BtrfsShowNotRun);
    }
    var output := show.value;
    if !output.success {
      return Err(BtrfsShowFailed(output.stderr));
    }
    var lines := Lines(output.stdout);
    var uuids: seq<string> := [];
    var i := 0;
    while i < |lines|
      invariant 0 <= i <= |lines|
      invariant uuids == Captured(lines[..i])
    {
      assert lines[..i + 1][..i] == lines[..i];
      var cap := UuidCapture(lines[i]);
      if cap.Some? {
        uuids := uuids + [cap.value];
      }
      i := i + 1;
    }
    assert lines[..i] == lines;
    if |uuids| == 0 {
      return Err(NoBtrfsUuid);
    }
    if |uuids| > 1 {
      return Err(ManyBtrfsUuids(|uuids|, UuidList(uuids)));
    }
    r := Ok(uuids[0]);
  }

  lemma {:induction false} JoinSnoc(xs: seq<string>, x: string, sep: string)
    requires xs != []
    ensures Join(xs + [x], sep) == Join(xs, sep) + sep + x
    decreases |xs|
  {
    if |xs| > 1 {
      assert (xs + [x])[1..] == xs[1..] + [x];
      JoinSnoc(xs[1..], x, sep);
    }
  }

  /** The fold puts a line break before each UUID. */
  lemma {:induction false} UuidListJoin(uuids: seq<string>)
    requires uuids != []
    ensures UuidList(uuids) == "\n" + Join(uuids, "\n")
    decreases |uuids|
  {
    if |uuids| > 1 {
      var init := uuids[..|uuids| - 1];
      UuidListJoin(init);
      JoinSnoc(init, uuids[|uuids| - 1], "\n");
      assert init + [uuids[|uuids| - 1]] == uuids;
    }
  }

  /** The message lists every UUID found, one per line, in output order. */
  lemma UuidListNames(uuids: seq<string>)
    requires uuids != []
    requires forall k :: 0 <= k < |uuids| ==> '\n' !in uuids[k]
    ensures Split(UuidList(uuids)[1..], '\n') == uuids
  {
    UuidListJoin(uuids);
    assert UuidList(uuids)[1..] == Join(uuids, "\n");
    assert "\n" == ['\n'];
    SplitJoin(uuids, '\n');
  }

  lemma UuidHasNoBreak(u: string)
    requires IsUuid(u)
    ensures '\n' !in u
  {
  }

  /**
   * No line with a UUID is an error; one is that line's UUID; several are
   * an error counting and listing all of them.
   */
  lemma BtrfsUuidCount(output: CommandOutput)
    requires output.success
    ensures var lines := Lines(output.stdout);
            var r := BtrfsUuidOf(Some(output));
            && (r == Err(NoBtrfsUuid) <==> !AnyHas(lines, HasUuid))
            && (r.Ok? <==> Count(lines, HasUuid) == 1)
            && (r.Ok? ==> IsUuid(r.value) && r.value == Captured(lines)[0])
            && (r.Err? && r.error.ManyBtrfsUuids? ==>
                  r.error.count == Count(lines, HasUuid) > 1
                  && Split(r.error.uuidList[1..], '\n') == Captured(lines))
  {
    var lines := Lines(output.stdout);
    var uuids := Captured(lines);
    CountZero(lines, HasUuid);
    if |uuids| > 1 {
      forall k | 0 <= k < |uuids| ensures '\n' !in uuids[k] {
        UuidHasNoBreak(uuids[k]);
      }
      UuidListNames(uuids);
    }
  }

  /** `mount_btrfs`: the UUID given on the command line, or the single one found. */
  method MountBtrfs(btrfsUuid: Option<string>, show: Option<CommandOutput>, outcome: Action -> Outcome)
    returns (log: seq<Action>, r: Result<(), ChrootError>)
    ensures btrfsUuid.Some? ==> RanInOrder([MountUuid(btrfsUuid.value, TARGET_DIR)], outcome, log, r)
    ensures btrfsUuid.None? && BtrfsUuidOf(show).Err? ==> log == [] && r == Err(BtrfsUuidOf(show).error)
    ensures btrfsUuid.None? && BtrfsUuidOf(show).Ok? ==>
              RanInOrder([MountUuid(BtrfsUuidOf(show).value, TARGET_DIR)], outcome, log, r)
  {
    var uuid: string;
    if btrfsUuid.Some? {
      uuid := btrfsUuid.value;
    } else {
      var found := GetBtrfsUuid(show);
      if found.Err? {
        return [], Err(found.error);
      }
      uuid := found.value;
    }
    var mount := MountUuid(uuid, TARGET_DIR);
    AttemptedOne(mount, outcome);
    log := [mount];
    if outcome(mount) != Succeeded {
      return log, Err(ActionFailed(mount));
    }
    r := Ok(());
  }

  // ---------------------------------------------------------------------
  // Bind mounts

  const ANSWER_SOURCE := "/mnt/" + ANSWER_MP
  const ANSWER_TARGET := TARGET_DIR + "/mnt/" + ANSWER_MP

  function BindAction(item: string): Action
  {
    BindMount("/" + item, TARGET_DIR + "/" + item)
  }

  /**
   * `bindmount`: each of dev, proc, run and sys onto the target, then, when
   * `/mnt/answer` exists, creating its mount point and bind-mounting it.
   */
  function BindPlan(answerExists: bool): (plan: seq<Action>)
    ensures |plan| == if answerExists then 6 else 4
    ensures forall i :: 0 <= i < 4 ==> plan[i] == BindAction(BINDMOUNTS[i])
  {
    seq(4, (i: int) requires 0 <= i < 4 => BindAction(BINDMOUNTS[i]))
    + (if answerExists then [CreateDir(ANSWER_TARGET), BindMount(ANSWER_SOURCE, ANSWER_TARGET)] else [])
  }

  /** The answer mount point is made before it is mounted, after the four virtual file systems. */
  lemma BindPlanAnswer(answerExists: bool)
    ensures var plan := BindPlan(answerExists);
            forall i :: 0 <= i < |plan| ==> (plan[i].BindMount? && plan[i].source == ANSWER_SOURCE <==> answerExists && i == 5)
  {
    var plan := BindPlan(answerExists);
    forall i | 0 <= i < |plan|
      ensures plan[i].BindMount? && plan[i].source == ANSWER_SOURCE <==> answerExists && i == 5
    {
      if i < 4 {
        var item := BINDMOUNTS[i];
        assert |item| <= 4;
        assert |plan[i].source| <= 5 < |ANSWER_SOURCE|;
      }
    }
  }

  /**
   * One more action of a plan run in order: logging it extends the
   * attempted prefix; if it fails, the run stops there with exactly this
   * log, and otherwise nothing has failed yet.
   */
  lemma AttemptStep(plan: seq<Action>, outcome: Action -> Outcome, log: seq<Action>, i: nat)
    requires i < |plan| && log == plan[..i]
    requires FirstIndex(log, Fails(outcome)).None?
    ensures log + [plan[i]] == plan[..i + 1]
    ensures outcome(plan[i]) != Succeeded ==> Attempted(plan, outcome) == log + [plan[i]] && !AllSucceed(plan, outcome)
    ensures outcome(plan[i]) == Succeeded ==> FirstIndex(plan[..i + 1], Fails(outcome)).None?
  {
    FirstIndexStep(plan, Fails(outcome), i);
  }

  /** A plan run in order to its end with nothing failed was attempted whole. */
  lemma AttemptDone(plan: seq<Action>, outcome: Action -> Outcome, log: seq<Action>)
    requires log == plan[..|plan|]
    requires FirstIndex(log, Fails(outcome)).None?
    ensures Attempted(plan, outcome) == log == plan && AllSucceed(plan, outcome)
  {
    assert plan[..|plan|] == plan;
  }

  /** `bindmount`: the plan in order, stopping at the first failure. */
  method BindMountAll(answerExists: bool, outcome: Action -> Outcome)
    returns (log: seq<Action>, r: Result<(), ChrootError>)
    ensures RanInOrder(BindPlan(answerExists), outcome, log, r)
  {
    ghost var plan := BindPlan(answerExists);
    log := [];
    var i := 0;
    while i < |BINDMOUNTS|
      invariant 0 <= i <= 4
      invariant log == plan[..i]
      invariant FirstIndex(log, Fails(outcome)).None?
    {
      var action := BindAction(BINDMOUNTS[i]);
      AttemptStep(plan, outcome, log, i);
      log := log + [action];
      if outcome(action) != Succeeded {
        return log, Err(ActionFailed(action));
      }
      i := i + 1;
    }
    if answerExists {
      var create := CreateDir(ANSWER_TARGET);
      AttemptStep(plan, outcome, log, 4);
      log := log + [create];
      if outcome(create) != Succeeded {
        return log, Err(ActionFailed(create));
      }
      var bind := BindMount(ANSWER_SOURCE, ANSWER_TARGET);
      AttemptStep(plan, outcome, log, 5);
      log := log + [bind];
      if outcome(bind) != Succeeded {
        return log, Err(ActionFailed(bind));
      }
    }
    AttemptDone(plan, outcome, log);
    r := Ok(());
  }

  function UmountAction(item: string): Action
  {
    Unmount(TARGET_DIR + "/" + item)
  }

  /** `bind_umount`: the four virtual file systems, in the order of `BINDMOUNTS`. */
  function VirtualUmountPlan(): (plan: seq<Action>)
    ensures |plan| == 4
    ensures forall i :: 0 <= i < 4 ==> plan[i] == UmountAction(BINDMOUNTS[i])
  {
    seq(4, (i: int) requires 0 <= i < 4 => UmountAction(BINDMOUNTS[i]))
  }

  /**
   * `bind_umount`: the four virtual file systems, then, when the answer
   * mount point exists in the target, unmounting and removing it.
   */
  function UmountPlan(answerTargetExists: bool): (plan: seq<Action>)
    ensures |plan| == if answerTargetExists then 6 else 4
  {
    VirtualUmountPlan() + if answerTargetExists then [Unmount(ANSWER_TARGET), RemoveDir(ANSWER_TARGET)] else []
  }

  /** One more entry of the loop of `bind_umount`: it is logged, and reported if it fails. */
  lemma UmountStep(outcome: Action -> Outcome, log: seq<Action>, failures: seq<Action>, i: nat)
    requires i < 4
    requires log == VirtualUmountPlan()[..i]
    requires failures == Filter(log, Fails(outcome))
    ensures var action := UmountAction(BINDMOUNTS[i]);
            && log + [action] == VirtualUmountPlan()[..i + 1]
            && (if outcome(action) != Succeeded then failures + [action] else failures)
               == Filter(VirtualUmountPlan()[..i + 1], Fails(outcome))
  {
    var plan := VirtualUmountPlan();
    assert plan[..i + 1] == plan[..i] + [plan[i]];
    FilterStep(plan, Fails(outcome), i);
  }

  /** The loop of `bind_umount`: every entry is attempted; the failures are only reported. */
  method UmountVirtual(outcome: Action -> Outcome) returns (log: seq<Action>, failures: seq<Action>)
    ensures log == VirtualUmountPlan()
    ensures failures == Filter(log, Fails(outcome))
  {
    ghost var plan := VirtualUmountPlan();
    log := [];
    failures := [];
    var i := 0;
    while i < |BINDMOUNTS|
      invariant 0 <= i <= 4
      invariant log == plan[..i]
      invariant failures == Filter(plan[..i], Fails(outcome))
    {
      var action := UmountAction(BINDMOUNTS[i]);
      UmountStep(outcome, log, failures, i);
      log := log + [action];
      if outcome(action) != Succeeded {
        failures := failures + [action];
      }
      i := i + 1;
    }
    assert log == plan[..4] == plan;
  }

  /**
   * `bind_umount`: every entry of the plan is attempted whatever the
   * earlier ones did; the failures are only reported.
   */
  method BindUmountAll(answerTargetExists: bool, outcome: Action -> Outcome)
    returns (log: seq<Action>, failures: seq<Action>)
    ensures log == UmountPlan(answerTargetExists)
    ensures failures == Filter(log, Fails(outcome))
  {
    log, failures := UmountVirtual(outcome);
    if answerTargetExists {
      var umount := Unmount(ANSWER_TARGET);
      var remove := RemoveDir(ANSWER_TARGET);
      FilterStep(log + [umount, remove], Fails(outcome), 4);
      FilterStep(log + [umount, remove], Fails(outcome), 5);
      assert (log + [umount, remove])[..4] == log;
      assert (log + [umount, remove])[..5] == log + [umount];
      assert (log + [umount, remove])[..6] == log + [umount, remove];
      if outcome(umount) != Succeeded {
        failures := failures + [umount];
      }
      if outcome(remove) != Succeeded {
        failures := failures + [remove];
      }
      log := log + [umount, remove];
    }
  }

  /** A failed unmount is reported exactly when it is one of the plan's entries that failed. */
  lemma UmountFailuresReported(answerTargetExists: bool, outcome: Action -> Outcome, a: Action)
    ensures var plan := UmountPlan(answerTargetExists);
            a in Filter(plan, Fails(outcome)) <==> a in plan && outcome(a) != Succeeded
  {
    FilterSpec(UmountPlan(answerTargetExists), Fails(outcome), a);
  }

  // ---------------------------------------------------------------------
  // The two subcommands

  /** The arguments of `prepare`. */
  datatype PrepareArgs = PrepareArgs(filesystem: Option<Filesystems>, rpoolId: Option<U64>, btrfsUuid: Option<string>)

  /**
   * What the commands would find: the stored configuration, the product
   * name of the ISO, the output of `btrfs filesystem show`, whether the
   * answer mount points exist, and how each action ends.
   */
  datatype Environment = Environment(
    lowLevelConfig: Option<CommonSetup.InstallConfig>,
    product: Option<string>,
    btrfsShow: Option<CommandOutput>,
    answerExists: bool,
    answerTargetExists: bool,
    outcome: Action -> Outcome)

  /** The UUID of the BTRFS file system to mount: the one given, else the single one found. */
  function BtrfsTarget(args: PrepareArgs, env: Environment): Result<string, ChrootError>
  {
    if args.btrfsUuid.Some? then Ok(args.btrfsUuid.value) else BtrfsUuidOf(env.btrfsShow)
  }

  /**
   * When the root mount of `prepare` succeeds: the pool import for ZFS;
   * for XFS and ext4 a known product whose volume group activates and whose
   * root volume mounts; for BTRFS a UUID to mount that mounts.
   */
  predicate RootMountSucceeds(fs: Filesystems, args: PrepareArgs, env: Environment)
  {
    match fs
    case Zfs => env.outcome(ImportPool(ZpoolImportArgs(args.rpoolId))) == Succeeded
    case Btrfs => BtrfsTarget(args, env).Ok? && env.outcome(MountUuid(BtrfsTarget(args, env).value, TARGET_DIR)) == Succeeded
    case _ =>
      && env.product.Some?
      && env.outcome(ActivateVg(env.product.value)) == Succeeded
      && env.outcome(MountDevice("/dev/mapper/" + env.product.value + "-root", TARGET_DIR)) == Succeeded
  }

  /**
   * The mount of the root file system in `prepare`: per file system, the
   * commands run and the result; it succeeds exactly when
   * `RootMountSucceeds`. On success every command run succeeded; on an
   * error naming a command, that command was the last one run and it
   * failed. Nothing is bind-mounted here.
   */
  method MountRoot(fs: Filesystems, args: PrepareArgs, env: Environment)
    returns (log: seq<Action>, r: Result<(), ChrootError>)
    ensures fs.Zfs? ==> log == [ImportPool(ZpoolImportArgs(args.rpoolId))] && r == ZpoolImport(args.rpoolId, env.outcome)
    ensures (fs.Xfs? || fs.Ext4?) && env.product.None? ==> log == [] && r == Err(NoIsoInfo)
    ensures (fs.Xfs? || fs.Ext4?) && env.product.Some? ==> RanInOrder(MountFsPlan(env.product.value), env.outcome, log, r)
    ensures fs.Btrfs? && BtrfsTarget(args, env).Err? ==> log == [] && r == Err(BtrfsTarget(args, env).error)
    ensures fs.Btrfs? && BtrfsTarget(args, env).Ok? ==>
              RanInOrder([MountUuid(BtrfsTarget(args, env).value, TARGET_DIR)], env.outcome, log, r)
    ensures r.Ok? <==> RootMountSucceeds(fs, args, env)
    ensures r.Ok? ==> forall i :: 0 <= i < |log| ==> env.outcome(log[i]) == Succeeded
    ensures forall i :: 0 <= i < |log| ==> !log[i].BindMount?
    ensures r.Err? && r.error.ActionFailed? ==>
              log != [] && r.error.action == log[|log| - 1] && env.outcome(log[|log| - 1]) != Succeeded
  {
    match fs {
      case Zfs =>
        log := [ImportPool(ZpoolImportArgs(args.rpoolId))];
        r := ZpoolImport(args.rpoolId, env.outcome);
        AttemptedSpec(log, env.outcome);
      case Xfs =>
        log, r := MountFs(env.product, env.outcome);
        if env.product.Some? {
          var p := env.product.value;
          AttemptedSpec(MountFsPlan(p), env.outcome);
          AttemptedTwo(ActivateVg(p), MountDevice("/dev/mapper/" + p + "-root", TARGET_DIR), env.outcome);
        }
      case Ext4 =>
        log, r := MountFs(env.product, env.outcome);
        if env.product.Some? {
          var p := env.product.value;
          AttemptedSpec(MountFsPlan(p), env.outcome);
          AttemptedTwo(ActivateVg(p), MountDevice("/dev/mapper/" + p + "-root", TARGET_DIR), env.outcome);
        }
      case Btrfs =>
        log, r := MountBtrfs(args.btrfsUuid, env.btrfsShow, env.outcome);
        if BtrfsTarget(args, env).Ok? {
          AttemptedSpec([MountUuid(BtrfsTarget(args, env).value, TARGET_DIR)], env.outcome);
          AttemptedOne(MountUuid(BtrfsTarget(args, env).value, TARGET_DIR), env.outcome);
        }
    }
  }

  /**
   * `prepare`: find the file system, create `/target`, mount the root file
   * system, then the bind mounts. A bind mount that fails does not make
   * `prepare` fail.
   */
  method Prepare(args: PrepareArgs, env: Environment) returns (log: seq<Action>, r: Result<(), ChrootError>)
    ensures GetFs(args.filesystem, env.lowLevelConfig).Err? ==>
              log == [] && r == Err(GetFs(args.filesystem, env.lowLevelConfig).error)
    ensures GetFs(args.filesystem, env.lowLevelConfig).Ok? ==> log != [] && log[0] == CreateDir(TARGET_DIR)
    ensures r.Ok? <==>
              && GetFs(args.filesystem, env.lowLevelConfig).Ok?
              && env.outcome(CreateDir(TARGET_DIR)) == Succeeded
              && RootMountSucceeds(GetFs(args.filesystem, env.lowLevelConfig).value, args, env)
    ensures r.Ok? ==>
              var bind := Attempted(BindPlan(env.answerExists), env.outcome);
              && |log| > |bind| && log[|log| - |bind|..] == bind
              && forall i :: 0 <= i < |log| - |bind| ==> env.outcome(log[i]) == Succeeded
    ensures r.Err? ==> forall i :: 0 <= i < |log| ==> !log[i].BindMount?
    ensures r.Err? && r.error.ActionFailed? ==>
              log != [] && r.error.action == log[|log| - 1] && env.outcome(log[|log| - 1]) != Succeeded
  {
    var fs := GetFs(args.filesystem, env.lowLevelConfig);
    if fs.Err? {
      return [], Err(fs.error);
    }
    var create := CreateDir(TARGET_DIR);
    log := [create];
    if env.outcome(create) != Succeeded {
      return log, Err(ActionFailed(create));
    }
    var rootLog, mounted := MountRoot(fs.value, args, env);
    log := log + rootLog;
    if mounted.Err? {
      return log, mounted;
    }
    var bindLog, bound := BindMountAll(env.answerExists, env.outcome);
    log := log + bindLog;
    r := Ok(());
  }

  /**
   * `cleanup`: find the file system, undo the bind mounts (reporting
   * failures), then export the pool or unmount `/target`. Only a failed
   * unmount of `/target` makes it fail.
   */
  method Cleanup(filesystem: Option<Filesystems>, env: Environment)
    returns (log: seq<Action>, failures: seq<Action>, r: Result<(), ChrootError>)
    ensures GetFs(filesystem, env.lowLevelConfig).Err? ==>
              log == [] && r == Err(GetFs(filesystem, env.lowLevelConfig).error)
    ensures GetFs(filesystem, env.lowLevelConfig).Ok? ==>
              var last := if GetFs(filesystem, env.lowLevelConfig).value == Zfs then ExportPool(ZPOOL_NAME) else Unmount(TARGET_DIR);
              && log == UmountPlan(env.answerTargetExists) + [last]
              && failures == Filter(UmountPlan(env.answerTargetExists), Fails(env.outcome))
              && (r.Ok? <==> last.ExportPool? || env.outcome(last) == Succeeded)
  {
    var fs := GetFs(filesystem, env.lowLevelConfig);
    if fs.Err? {
      return [], [], Err(fs.error);
    }
    log, failures := BindUmountAll(env.answerTargetExists, env.outcome);
    if fs.value == Zfs {
      log := log + [ExportPool(ZPOOL_NAME)];
      r := Ok(());
    } else {
      var umount := Unmount(TARGET_DIR);
      log := log + [umount];
      r := if env.outcome(umount) != Succeeded then Err(ActionFailed(umount)) else Ok(());
    }
  }
}
