/**
 * `proxmox-installer-common/src/setup.rs`: the information the installer
 * loads at start-up (product, locales, runtime environment), the custom
 * deserialisers that reshape it, the interface renderers, and the
 * `InstallConfig` handed to the low-level installer.
 *
 * JSON decoding itself is not modelled: each deserialiser starts from the
 * already-decoded value it post-processes.
 */
module CommonSetup {
  import opened Wrappers
  import opened Text
  import opened OptionTypes
  import opened CommonUtils

  // ---------------------------------------------------------------------
  // Product

  datatype ProxmoxProduct = PVE | PBS | PMG

  function DefaultHostname(product: ProxmoxProduct): (r: string)
  {
    match product
    case PVE => "pve"
    case PMG => "pmg"
    case PBS => "pbs"
  }

  /**
   * The default host names are distinct, and each one with the fallback
   * domain `example.invalid` parses as an FQDN whose host is that name.
   */
  lemma DefaultHostnameFqdn(product: ProxmoxProduct)
    ensures DefaultHostname(product) in {"pve", "pmg", "pbs"}
    ensures forall p: ProxmoxProduct :: p != product ==> DefaultHostname(p) != DefaultHostname(product)
    ensures var f := ParseFqdn(DefaultHostname(product) + ".example.invalid");
      f.Ok? && f.value.Host() == Some(DefaultHostname(product)) && f.value.Domain() == "example.invalid"
  {
    var h := DefaultHostname(product);
    assert IsLabel(h) && '.' !in h && !AllAsciiDigits(h) by {
      assert forall j :: 0 <= j < |h| ==> IsAsciiAlphabetic(h[j]);
      assert !IsAsciiDigit(h[0]);
    }
    HostInDefaultDomain(h);
  }

  /** A non-numeric label followed by `.example.invalid` is an FQDN with that host. */
  lemma HostInDefaultDomain(h: string)
    requires IsLabel(h) && '.' !in h && !AllAsciiDigits(h)
    ensures var f := ParseFqdn(h + ".example.invalid");
      f.Ok? && f.value.Host() == Some(h) && f.value.Domain() == "example.invalid"
  {
    var f := Fqdn([h, "example", "invalid"]);
    DefaultDomainFqdn(h);
    FqdnRoundTrip(f);
  }

  lemma DefaultDomainFqdn(h: string)
    requires IsLabel(h) && '.' !in h && !AllAsciiDigits(h)
    ensures var f := Fqdn([h, "example", "invalid"]);
      ValidFqdn(f) && f.ToString() == h + ".example.invalid" && f.Domain() == "example.invalid"
  {
    var f := Fqdn([h, "example", "invalid"]);
    DefaultDomainLabels();
    assert ValidFqdn(f) by {
      assert forall i :: 0 <= i < |f.parts| ==> f.parts[i] == h || f.parts[i] == "example" || f.parts[i] == "invalid";
    }
    var tail := ["example", "invalid"];
    assert f.parts[1..] == tail;
    DefaultDomainJoin();
    assert f.ToString() == h + "." + Join(tail, ".");
  }

  lemma DefaultDomainJoin()
    ensures Join(["example", "invalid"], ".") == "example.invalid"
  {
    assert Join(["invalid"], ".") == "invalid";
  }

  lemma DefaultDomainLabels()
    ensures IsLabel("example") && IsLabel("invalid")
    ensures '.' !in "example" && '.' !in "invalid"
  {
  }

  datatype ProductConfig = ProductConfig(fullname: string, product: ProxmoxProduct, enableBtrfs: bool)

  datatype IsoInfo = IsoInfo(release: string, isorelease: string)

  datatype SetupInfo = SetupInfo(config: ProductConfig, isoInfo: IsoInfo, isoLocation: string)

  // ---------------------------------------------------------------------
  // Locales

  datatype CountryInfo = CountryInfo(name: string, zone: string, kmap: string)

  datatype KeyboardMapping = KeyboardMapping(name: string, id: string, xkbLayout: string, xkbVariant: string)

  /** The maps are Rust `HashMap`s: no iteration order is promised. */
  datatype LocaleInfo = LocaleInfo(
    cczones: map<string, seq<string>>,
    countries: map<string, CountryInfo>,
    kmap: map<string, KeyboardMapping>)

  // ---------------------------------------------------------------------
  // Runtime environment

  datatype BootType = Bios | Efi

  datatype Dns = Dns(domain: Option<string>, dns: seq<IpAddr>)

  datatype Gateway = Gateway(dev: string, gateway: IpAddr)

  datatype Routes = Routes(gateway4: Option<Gateway>, gateway6: Option<Gateway>)

  datatype InterfaceState = Up | Down | Unknown

  datatype Interface = Interface(
    name: string,
    index: nat,
    mac: string,
    state: InterfaceState,
    addresses: Option<seq<CidrAddress>>)

  datatype NetworkInfo = NetworkInfo(
    dns: Dns,
    routes: Option<Routes>,
    interfaces: map<string, Interface>,
    hostname: Option<string>)

  /**
   * `defaultZfsArcMax` is read by options.rs and the auto-installer but is not
   * a field of the `RuntimeInfo` shown in setup.rs; it is kept here so that
   * both readers can be modelled.
   */
  datatype RuntimeInfo = RuntimeInfo(
    bootType: BootType,
    country: Option<string>,
    disks: seq<Disk>,
    network: NetworkInfo,
    totalMemory: nat,
    hvmSupported: bool,
    defaultZfsArcMax: nat)

  // ---------------------------------------------------------------------
  // Renderers

  /** `InterfaceState::render`: a filled circle for an interface that is up. */
  function RenderState(state: InterfaceState): (r: string)
    ensures |r| == 1
    ensures r == "●" <==> state == Up
    ensures r == " " <==> state != Up
  {
    match state
    case Up => "●"
    case Down | Unknown => " "
  }

  /** `Interface::render`: the state marker, a space, the name. */
  function RenderInterface(iface: Interface): (r: string)
    ensures |r| == |iface.name| + 2
    ensures r[..1] == RenderState(iface.state) && r[1] == ' ' && r[2..] == iface.name
  {
    RenderState(iface.state) + " " + iface.name
  }

  // ---------------------------------------------------------------------
  // Deserialisers

  /** A deserialisation failure; `message` repeats the `Debug` form of the cause. */
  datatype DeError = OutOfRange(value: int) | BadAddress(address: string) | BadCidr(error: CidrAddressParseError)

  const U32_LIMIT: int := 0x1_0000_0000

  /** `deserialize_bool_from_int`: a `u32`, true unless zero. */
  function DeserializeBoolFromInt(value: int): (r: Result<bool, DeError>)
    ensures r.Ok? <==> 0 <= value < U32_LIMIT
    ensures r.Ok? ==> (r.value <==> value != 0)
  {
    if value < 0 || value >= U32_LIMIT then Err(OutOfRange(value))
    else Ok(value != 0)
  }

  /** `s` lists the elements of `keys`, each exactly once. */
  predicate Enumerates(s: seq<string>, keys: set<string>)
  {
    |s| == |keys| && (forall k :: k in keys ==> k in s) && (forall i :: 0 <= i < |s| ==> s[i] in keys)
  }

  /** `HashMap::into_keys().collect()`: the keys in an unspecified order. */
  method KeysInSomeOrder<V>(m: map<string, V>) returns (keys: seq<string>)
    ensures Enumerates(keys, m.Keys)
  {
    keys := [];
    var remaining := m.Keys;
    while remaining != {}
      invariant forall k :: k in m.Keys <==> k in remaining || k in keys
      invariant forall k :: k in remaining ==> k !in keys
      invariant |keys| + |remaining| == |m.Keys|
      decreases |remaining|
    {
      var k :| k in remaining;
      keys := keys + [k];
      remaining := remaining - {k};
    }
    assert |keys| == |m.Keys|;
  }

  /**
   * `deserialize_cczones_map`: every country code is kept, and its zone list
   * enumerates the keys of the inner map.
   */
  method DeserializeCczonesMap(zones: map<string, map<string, nat>>) returns (result: map<string, seq<string>>)
    ensures result.Keys == zones.Keys
    ensures forall cc :: cc in result ==> Enumerates(result[cc], zones[cc].Keys)
  {
    result := map[];
    var remaining := zones.Keys;
    while remaining != {}
      invariant remaining <= zones.Keys
      invariant result.Keys == zones.Keys - remaining
      invariant forall cc :: cc in result ==> Enumerates(result[cc], zones[cc].Keys)
      decreases |remaining|
    {
      var cc :| cc in remaining;
      var list := KeysInSomeOrder(zones[cc]);
      result := result[cc := list];
      remaining := remaining - {cc};
    }
  }

  /** One disk as the low-level installer lists it; the size is in 512-byte sectors. */
  datatype RawDisk = RawDisk(
    index: nat,
    device: string,
    sectors: real,
    model: string,
    logicalBlockSize: Option<nat>,
    syspath: string)

  const SECTOR_SIZE: real := 512.0
  const GIB: real := 1024.0 * 1024.0 * 1024.0

  /**
   * One entry of `deserialize_disks_map`: the numeric index as decimal text,
   * no model for an empty model string, and the size converted from sectors
   * to GiB.
   */
  function DeserializeDisk(raw: RawDisk): (d: Disk)
    ensures raw.index < USIZE_LIMIT ==> ParseUsize(d.index) == Ok(raw.index)
    ensures AllAsciiDigits(d.index) && |d.index| >= 1
    ensures d.path == raw.device && d.blockSize == raw.logicalBlockSize
    ensures d.model.None? <==> raw.model == ""
    ensures d.model.Some? ==> d.model.value == raw.model
    ensures d.size * GIB == raw.sectors * SECTOR_SIZE
  {
    if raw.index < USIZE_LIMIT then ParseNatToString(raw.index); DiskOf(raw)
    else DiskOf(raw)
  }

  function DiskOf(raw: RawDisk): Disk
  {
    Disk(
      index := NatToString(raw.index),
      path := raw.device,
      model := if raw.model != "" then Some(raw.model) else None,
      size := (raw.sectors * SECTOR_SIZE) / GIB,
      blockSize := raw.logicalBlockSize)
  }

  /** `deserialize_disks_map`: one disk per entry, in order. */
  function DeserializeDisksMap(raws: seq<RawDisk>): (disks: seq<Disk>)
    ensures |disks| == |raws|
    ensures forall i :: 0 <= i < |raws| ==> disks[i] == DeserializeDisk(raws[i])
  {
    if raws == [] then [] else [DeserializeDisk(raws[0])] + DeserializeDisksMap(raws[1..])
  }

  datatype CidrDescriptor = CidrDescriptor(address: string, prefix: nat)

  /**
   * `deserialize_cidr_list`: parses every entry in order and stops at the
   * first address that does not parse or whose prefix is too long.
   */
  method DeserializeCidrList(list: seq<CidrDescriptor>, parseIp: string -> Option<IpAddr>)
    returns (r: Result<seq<CidrAddress>, DeError>)
    ensures r.Ok? <==> forall i :: 0 <= i < |list| ==> CidrEntryOk(list[i], parseIp)
    ensures r.Ok? ==> |r.value| == |list| && forall i :: 0 <= i < |list| ==>
      r.value[i] == CidrAddress(parseIp(list[i].address).value, list[i].prefix) && r.value[i].Valid()
    ensures r.Err? ==>
      exists k :: && 0 <= k < |list| && !CidrEntryOk(list[k], parseIp)
                  && (forall i :: 0 <= i < k ==> CidrEntryOk(list[i], parseIp))
                  && r.error == CidrEntryError(list[k], parseIp)
  {
    var result: seq<CidrAddress> := [];
    var i := 0;
    while i < |list|
      invariant 0 <= i <= |list|
      invariant |result| == i
      invariant forall j :: 0 <= j < i ==> CidrEntryOk(list[j], parseIp)
      invariant forall j :: 0 <= j < i ==>
        result[j] == CidrAddress(parseIp(list[j].address).value, list[j].prefix) && result[j].Valid()
    {
      var desc := list[i];
      match parseIp(desc.address)
      case None =>
        return Err(BadAddress(desc.address));
      case Some(ip) =>
        match NewCidr(ip, desc.prefix)
        case Err(e) =>
          return Err(BadCidr(e));
        case Ok(c) =>
          result := result + [c];
      i := i + 1;
    }
    return Ok(result);
  }

  predicate CidrEntryOk(desc: CidrDescriptor, parseIp: string -> Option<IpAddr>)
  {
    parseIp(desc.address).Some? && desc.prefix <= MaskLimit(parseIp(desc.address).value)
  }

  function CidrEntryError(desc: CidrDescriptor, parseIp: string -> Option<IpAddr>): DeError
  {
    if parseIp(desc.address).None? then BadAddress(desc.address) else BadCidr(InvalidMask(None))
  }

  // ---------------------------------------------------------------------
  // installer_setup post-processing

  /** Disks in the order of `Ord for Disk`, which compares the index text. */
  predicate SortedByIndex(disks: seq<Disk>)
  {
    forall i, j :: 0 <= i < j < |disks| ==> LexLe(disks[i].index, disks[j].index)
  }

  /** The first `i` disks are sorted and none of them is larger than a later one. */
  predicate SortedPrefix(disks: seq<Disk>, i: nat)
    requires i <= |disks|
  {
    && SortedByIndex(disks[..i])
    && forall p, q :: 0 <= p < i <= q < |disks| ==> LexLe(disks[p].index, disks[q].index)
  }

  /** Swapping a smallest remaining disk into position `i` extends the sorted prefix by one. */
  lemma SelectionStep(before: seq<Disk>, i: nat, m: nat)
    requires i <= m < |before|
    requires SortedPrefix(before, i)
    requires forall p :: i <= p < |before| ==> LexLe(before[m].index, before[p].index)
    ensures SortedPrefix(before[i := before[m]][m := before[i]], i + 1)
    ensures multiset(before[i := before[m]][m := before[i]]) == multiset(before)
  {
    var after := before[i := before[m]][m := before[i]];
    assert forall p :: 0 <= p < i ==> after[p] == before[p];
    assert after[i] == before[m];
    assert forall q :: i < q < |after| ==> LexLe(before[m].index, after[q].index);
    var sorted := after[..i + 1];
    forall p, q | 0 <= p < q < i + 1 ensures LexLe(sorted[p].index, sorted[q].index) {
      assert sorted[p] == after[p] && sorted[q] == after[q];
      if q < i {
        assert before[..i][p] == before[p] && before[..i][q] == before[q];
      }
    }
  }

  /** `[Disk]::sort`, done in place on an array. */
  method SortDisks(a: array<Disk>)
    modifies a
    ensures SortedByIndex(a[..])
    ensures multiset(a[..]) == multiset(old(a[..]))
  {
    var i := 0;
    while i < a.Length
      invariant 0 <= i <= a.Length
      invariant SortedPrefix(a[..], i)
      invariant multiset(a[..]) == multiset(old(a[..]))
    {
      var m := MinIndexFrom(a, i);
      SelectionStep(a[..], i, m);
      a[i], a[m] := a[m], a[i];
      i := i + 1;
    }
    assert a[..] == a[..][..a.Length];
  }

  /** The position of a smallest disk in `a[from..]`. */
  method MinIndexFrom(a: array<Disk>, from: nat) returns (m: nat)
    requires from < a.Length
    ensures from <= m < a.Length
    ensures forall p :: from <= p < a.Length ==> LexLe(a[m].index, a[p].index)
  {
    m := from;
    var k := from + 1;
    LexLeRefl(a[m].index);
    while k < a.Length
      invariant from <= m < k <= a.Length
      invariant forall p :: from <= p < k ==> LexLe(a[m].index, a[p].index)
    {
      if !LexLe(a[m].index, a[k].index) {
        LexLeTotal(a[m].index, a[k].index);
        LexLeRefl(a[k].index);
        forall p | from <= p < k ensures LexLe(a[k].index, a[p].index) {
          LexLeTrans(a[k].index, a[m].index, a[p].index);
        }
        m := k;
      }
      k := k + 1;
    }
  }

  /**
   * The tail of `installer_setup`: the disks are sorted by index, and an
   * empty disk list is an error.
   */
  method FinishInstallerSetup(runtime: RuntimeInfo) returns (r: Result<RuntimeInfo, string>)
    ensures r.Err? <==> |runtime.disks| == 0
    ensures r.Err? ==> r.error == "The installer could not find any supported hard disks."
    ensures r.Ok? ==>
      && r.value == runtime.(disks := r.value.disks)
      && SortedByIndex(r.value.disks)
      && multiset(r.value.disks) == multiset(runtime.disks)
  {
    var a := new Disk[|runtime.disks|](i requires 0 <= i < |runtime.disks| => runtime.disks[i]);
    assert a[..] == runtime.disks;
    SortDisks(a);
    var sorted := runtime.(disks := a[..]);
    assert |sorted.disks| == |runtime.disks| by {
      assert |multiset(a[..])| == |multiset(runtime.disks)|;
    }
    if |sorted.disks| == 0 {
      return Err("The installer could not find any supported hard disks.");
    }
    return Ok(sorted);
  }

  // ---------------------------------------------------------------------
  // Install configuration

  /** `InstallZfsOption::from`: the ZFS options the low-level installer reads. */
  datatype InstallZfsOption = InstallZfsOption(
    ashift: nat,
    compress: ZfsCompressOption,
    checksum: ZfsChecksumOption,
    copies: nat,
    arcMax: nat)

  function InstallZfsOptionFrom(opts: ZfsBootdiskOptions): (r: InstallZfsOption)
    ensures r.ashift == opts.ashift && r.compress == opts.compress && r.checksum == opts.checksum
    ensures r.copies == opts.copies && r.arcMax == opts.arcMax
  {
    InstallZfsOption(opts.ashift, opts.compress, opts.checksum, opts.copies, opts.arcMax)
  }

  datatype InstallBtrfsOption = InstallBtrfsOption(compress: BtrfsCompressOption)

  datatype InstallRootPassword = InstallRootPassword(plain: Option<string>, hashed: Option<string>)

  datatype InstallFirstBootSetup = InstallFirstBootSetup(enabled: bool, orderingTarget: Option<string>)

  const DEFAULT_FIRST_BOOT := InstallFirstBootSetup(false, None)

  /**
   * The configuration passed to the low-level installer. `diskSelection` is a
   * `BTreeMap`, iterated in key order.
   */
  datatype InstallConfig = InstallConfig(
    autoreboot: nat,
    filesys: FsType,
    hdsize: real,
    swapsize: Option<real>,
    maxroot: Option<real>,
    minfree: Option<real>,
    maxvz: Option<real>,
    zfsOpts: Option<InstallZfsOption>,
    btrfsOpts: Option<InstallBtrfsOption>,
    targetHd: Option<string>,
    diskSelection: map<string, string>,
    existingStorageAutoRename: nat,
    country: string,
    timezone: string,
    keymap: string,
    rootPassword: InstallRootPassword,
    mailto: string,
    rootSshKeys: seq<string>,
    mngmtNic: string,
    networkInterfacePinMap: map<string, string>,
    hostname: string,
    domain: string,
    cidr: CidrAddress,
    gateway: IpAddr,
    dns: IpAddr,
    firstBoot: InstallFirstBootSetup)
}
