/**
 * `proxmox-post-hook/src/main.rs`: the parts of the post-installation
 * report that are computed from text and bytes. These are:
 * - the installed kernel package and image, from `dpkg-query` output;
 * - the kernel version string, from the boot header of the image;
 * - the CPU summary, from `/proc/cpuinfo`;
 * - the boot-disk and management-interface flags of the disk and NIC lists.
 *
 * Commands, files and the JSON inputs are not run or read: their text
 * or bytes are parameters.
 */
module PostHook {
  import opened Wrappers
  import opened Text
  import opened Seqs
  import opened OptionTypes
  import opened CommonUtils
  import opened CommonSetup
  import opened CommonOptions
  import opened AutoUtils

  /** The messages of the report gatherers, one constructor per message. */
  datatype PostHookError =
    | KernelPackageNotFound
    | KernelImageNotFound
    | OffsetUnreadable
    | VersionUnreadable
    | NoNulTerminator
    | NotUtf8
    | BadVersionString
    | NoUdevForDisk(path: string)
    | NoUdevForNic(name: string)

  // ---------------------------------------------------------------------
  // The installed kernel package and image

  /** A line of the package listing: exactly three `|` fields, status `ii`, the given architecture. */
  predicate InstalledFor(arch: string, line: string)
  {
    var fields := Split(line, '|');
    |fields| == 3 && Trim(fields[0]) == "ii" && Trim(fields[1]) == arch
  }

  function InstalledPred(arch: string): string -> bool
  {
    line => InstalledFor(arch, line)
  }

  /** The trimmed last `|` field of a line: the package name of an installed line. */
  function PackageField(line: string): string
  {
    var fields := Split(line, '|');
    Trim(fields[|fields| - 1])
  }

  /** The package of the first installed line for `arch`, if any. */
  function KernelPackage(arch: string, lines: seq<string>): Option<string>
  {
    match FirstIndex(lines, InstalledPred(arch))
    case None => None
    case Some(k) => Some(PackageField(lines[k]))
  }

  /**
   * A package is found exactly when some line is installed for `arch`; it
   * is the third field of the first such line, trimmed.
   */
  lemma KernelPackageSpec(arch: string, lines: seq<string>)
    ensures KernelPackage(arch, lines).None? <==> forall i :: 0 <= i < |lines| ==> !InstalledFor(arch, lines[i])
    ensures KernelPackage(arch, lines).Some? ==>
      var k := FirstIndex(lines, InstalledPred(arch)).value;
      && InstalledFor(arch, lines[k])
      && (forall i :: 0 <= i < k ==> !InstalledFor(arch, lines[i]))
      && KernelPackage(arch, lines).value == Trim(Split(lines[k], '|')[2])
  {
    FirstIndexSpec(lines, InstalledPred(arch));
  }

  /**
   * `find_kernel_package_name`: the architecture printed by `dpkg`, trimmed,
   * and the first listing line installed for it.
   */
  method FindKernelPackageName(archOutput: string, packages: string) returns (r: Result<string, PostHookError>)
    ensures var pkg := KernelPackage(Trim(archOutput), Lines(packages));
      && (r.Ok? <==> pkg.Some?)
      && (r.Ok? ==> r.value == pkg.value)
      && (r.Err? ==> r.error == KernelPackageNotFound)
  {
    var arch := Trim(archOutput);
    var lines := Lines(packages);
    var i := 0;
    while i < |lines|
      invariant 0 <= i <= |lines|
      invariant FirstIndex(lines[..i], InstalledPred(arch)).None?
    {
      FirstIndexStep(lines, InstalledPred(arch), i);
      var fields := Split(lines[i], '|');
      if |fields| == 3 && Trim(fields[0]) == "ii" && Trim(fields[1]) == arch {
        assert InstalledPred(arch)(lines[i]);
        return Ok(Trim(fields[2]));
      }
      i := i + 1;
    }
    assert lines[..i] == lines;
    return Err(KernelPackageNotFound);
  }

  /** A listing line from its three fields. */
  function PackageLine(status: string, arch: string, name: string): string
  {
    status + "|" + arch + "|" + name
  }

  /** Three `|`-free fields joined by `|` split back into the same three. */
  lemma ThreeFields(a: string, b: string, c: string)
    requires '|' !in a && '|' !in b && '|' !in c
    ensures Split(PackageLine(a, b, c), '|') == [a, b, c]
  {
    var tail := b + ['|'] + c;
    assert PackageLine(a, b, c) == a + ['|'] + tail;
    SplitOnceAt(a, tail, '|');
    SplitOnceAt(b, c, '|');
    assert Split(c, '|') == [c];
    assert Split(tail, '|') == [b, c];
  }

  /** A three-field line is installed for `arch` exactly by its trimmed status and architecture. */
  lemma PackageLineFields(arch: string, status: string, archField: string, name: string)
    requires '|' !in status && '|' !in archField && '|' !in name
    ensures InstalledFor(arch, PackageLine(status, archField, name)) <==> Trim(status) == "ii" && Trim(archField) == arch
    ensures PackageField(PackageLine(status, archField, name)) == Trim(name)
  {
    ThreeFields(status, archField, name);
  }

  lemma TrimInstalled() ensures Trim("ii ") == "ii" { TrimTrailing("ii", ' '); }

  lemma TrimUnpacked() ensures Trim("un ") == "un" { TrimTrailing("un", ' '); }

  lemma TrimAll() ensures Trim("all") == "all" { TrimKeeps("all"); }

  lemma TrimAmd64() ensures Trim("amd64") == "amd64" { TrimKeeps("amd64"); }

  /** `dpkg --print-architecture` ends its output with a newline, which is trimmed off. */
  lemma TrimArchOutput() ensures Trim("amd64\n") == "amd64" { TrimTrailing("amd64", '\n'); }

  /** The first test line, `ii |all|<name>`, is installed for `all` alone. */
  lemma TestArchAllLine(arch: string, name: string)
    requires '|' !in name && arch != "all"
    ensures !InstalledFor(arch, PackageLine("ii ", "all", name))
  {
    PackageLineFields(arch, "ii ", "all", name);
    TrimAll();
  }

  /** The second test line, `un ||<name>`, is not installed. */
  lemma TestUnpackedLine(arch: string, name: string)
    requires '|' !in name
    ensures !InstalledFor(arch, PackageLine("un ", "", name))
  {
    PackageLineFields(arch, "un ", "", name);
    TrimUnpacked();
  }

  /** The third test line, `ii |amd64|<name>`, is installed for amd64 and names the package. */
  lemma TestAmd64Line(name: string)
    requires '|' !in name
    ensures InstalledFor("amd64", PackageLine("ii ", "amd64", name))
    ensures PackageField(PackageLine("ii ", "amd64", name)) == Trim(name)
  {
    PackageLineFields("amd64", "ii ", "amd64", name);
    TrimInstalled();
    TrimAmd64();
  }

  /** The third test line is installed for no other architecture. */
  lemma TestAmd64LineOnly(arch: string, name: string)
    requires '|' !in name && arch != "amd64"
    ensures !InstalledFor(arch, PackageLine("ii ", "amd64", name))
  {
    PackageLineFields(arch, "ii ", "amd64", name);
    TrimAmd64();
  }

  /** A line without `|`, such as the blank last line of the test, is installed for nothing. */
  lemma TestBarlessLine(arch: string, line: string)
    requires '|' !in line
    ensures !InstalledFor(arch, line)
  {
    assert SplitOnce(line, '|').None?;
  }

  /**
   * The package-name tests, for any package names and last line without
   * `|`: the third line's package is found for amd64; nothing is found for
   * arm64, nor for amd64 without the third line.
   */
  lemma KernelPackageTests(generic: string, unpacked: string, signed: string, blank: string)
    requires '|' !in generic && '|' !in unpacked && '|' !in signed && '|' !in blank
    ensures var lines := [PackageLine("ii ", "all", generic), PackageLine("un ", "", unpacked),
                          PackageLine("ii ", "amd64", signed), blank];
      && KernelPackage("amd64", lines) == Some(Trim(signed))
      && KernelPackage("arm64", lines).None?
      && KernelPackage("amd64", [lines[0], lines[1], lines[3]]).None?
  {
    TestArchAllLine("amd64", generic);
    TestArchAllLine("arm64", generic);
    TestUnpackedLine("amd64", unpacked);
    TestUnpackedLine("arm64", unpacked);
    TestAmd64Line(signed);
    TestAmd64LineOnly("arm64", signed);
    TestBarlessLine("amd64", blank);
    TestBarlessLine("arm64", blank);
    var l0, l1, l2 := PackageLine("ii ", "all", generic), PackageLine("un ", "", unpacked), PackageLine("ii ", "amd64", signed);
    ThirdOfFour("amd64", l0, l1, l2, blank);
    NoneOfFour("arm64", l0, l1, l2, blank);
    NoneOfThree("amd64", l0, l1, blank);
  }

  /** Lines before the third not installed and the third installed: its package is found. */
  lemma ThirdOfFour(arch: string, l0: string, l1: string, l2: string, l3: string)
    requires !InstalledFor(arch, l0) && !InstalledFor(arch, l1) && InstalledFor(arch, l2)
    ensures KernelPackage(arch, [l0, l1, l2, l3]) == Some(PackageField(l2))
  {
    var lines := [l0, l1, l2, l3];
    assert forall j :: 0 <= j < 2 ==> lines[j] in {l0, l1};
    FirstIndexAt(lines, InstalledPred(arch), 2);
  }

  /** No line installed: no package. */
  lemma NoneOfFour(arch: string, l0: string, l1: string, l2: string, l3: string)
    requires !InstalledFor(arch, l0) && !InstalledFor(arch, l1) && !InstalledFor(arch, l2) && !InstalledFor(arch, l3)
    ensures KernelPackage(arch, [l0, l1, l2, l3]).None?
  {
    var lines := [l0, l1, l2, l3];
    assert forall i :: 0 <= i < |lines| ==> lines[i] in {l0, l1, l2, l3};
    FirstIndexSpec(lines, InstalledPred(arch));
  }

  lemma NoneOfThree(arch: string, l0: string, l1: string, l2: string)
    requires !InstalledFor(arch, l0) && !InstalledFor(arch, l1) && !InstalledFor(arch, l2)
    ensures KernelPackage(arch, [l0, l1, l2]).None?
  {
    var lines := [l0, l1, l2];
    assert forall i :: 0 <= i < |lines| ==> lines[i] in {l0, l1, l2};
    FirstIndexSpec(lines, InstalledPred(arch));
  }

  const KERNEL_IMAGE_PREFIX: string := "/boot/vmlinuz-"

  predicate IsKernelImage(file: string) { StartsWith(file, KERNEL_IMAGE_PREFIX) }

  /** The first listed file under the kernel image prefix, if any. */
  function KernelImage(files: seq<string>): Option<string>
  {
    match FirstIndex(files, IsKernelImage)
    case None => None
    case Some(k) => Some(files[k])
  }

  /**
   * `find_kernel_image_path`: the kernel package, then the first file of
   * its listing (`listFiles`, the output of `dpkg-query --listfiles`) that
   * starts with `/boot/vmlinuz-`.
   */
  method FindKernelImagePath(archOutput: string, packages: string, listFiles: string -> string)
    returns (r: Result<string, PostHookError>)
    ensures var pkg := KernelPackage(Trim(archOutput), Lines(packages));
      && (pkg.None? ==> r == Err(KernelPackageNotFound))
      && (pkg.Some? ==> var image := KernelImage(Lines(listFiles(pkg.value)));
            && (r.Ok? <==> image.Some?)
            && (r.Ok? ==> r.value == image.value && StartsWith(r.value, KERNEL_IMAGE_PREFIX))
            && (r.Err? ==> r.error == KernelImageNotFound))
  {
    var pkg := FindKernelPackageName(archOutput, packages);
    if pkg.Err? {
      return Err(pkg.error);
    }
    r := FirstKernelImage(listFiles(pkg.value));
  }

  /** The first line of a package's file listing that is a kernel image. */
  method FirstKernelImage(listing: string) returns (r: Result<string, PostHookError>)
    ensures var image := KernelImage(Lines(listing));
      && (r.Ok? <==> image.Some?)
      && (r.Ok? ==> r.value == image.value && StartsWith(r.value, KERNEL_IMAGE_PREFIX))
      && (r.Err? ==> r.error == KernelImageNotFound)
  {
    var files := Lines(listing);
    var i := 0;
    while i < |files|
      invariant 0 <= i <= |files|
      invariant FirstIndex(files[..i], IsKernelImage).None?
    {
      FirstIndexStep(files, IsKernelImage, i);
      if StartsWith(files[i], KERNEL_IMAGE_PREFIX) {
        return Ok(files[i]);
      }
      i := i + 1;
    }
    assert files[..i] == files;
    return Err(KernelImageNotFound);
  }

  /**
   * The image-path test: in the listing of the signed kernel package the
   * image is `/boot/vmlinuz-6.8.8-2-pve`, whatever the listing holds after it.
   */
  lemma KernelImageTest(tail: seq<string>)
    ensures KernelImage(["", "/.", "/boot", "/boot/System.map-6.8.8-2-pve", "/boot/config-6.8.8-2-pve",
                         "/boot/vmlinuz-6.8.8-2-pve"] + tail) == Some("/boot/vmlinuz-6.8.8-2-pve")
  {
    var files := ["", "/.", "/boot", "/boot/System.map-6.8.8-2-pve", "/boot/config-6.8.8-2-pve",
                  "/boot/vmlinuz-6.8.8-2-pve"] + tail;
    assert files[3][6] != KERNEL_IMAGE_PREFIX[6];
    assert files[4][6] != KERNEL_IMAGE_PREFIX[6];
    assert files[5][..14] == KERNEL_IMAGE_PREFIX;
    FirstIndexAt(files, IsKernelImage, 5);
  }

  // ---------------------------------------------------------------------
  // The kernel version string in the image's boot header

  type Byte = b: int | 0 <= b < 256

  /** Where the boot header keeps the offset of the version string (less 0x200). */
  const KERNEL_VERSION_FIELD: nat := 0x20e

  /** The string is read through a buffer of this many bytes. */
  const VERSION_BUFFER_LEN: nat := 256

  /** `gather_kernel_version` exists for x86_64 builds only, so `consts::ARCH` is this. */
  const MACHINE: string := "x86_64"

  /** `read_exact_at`: exactly `len` bytes at `offset`, or an error past the end. */
  function ReadExactAt(image: seq<Byte>, offset: nat, len: nat): (r: Option<seq<Byte>>)
    ensures r.Some? <==> offset + len <= |image|
    ensures r.Some? ==> |r.value| == len
  {
    if offset + len <= |image| then Some(image[offset..offset + len]) else None
  }

  /**
   * `u16::from_le_bytes(buffer) + 0x200`: the sum is a `u16`, which wraps in
   * a release build.
   */
  function VersionOffset(lo: Byte, hi: Byte): (r: nat)
    ensures r < 0x1_0000
    ensures lo + 256 * hi + 0x200 < 0x1_0000 ==> r == lo + 256 * hi + 0x200
  {
    (lo + 256 * hi + 0x200) % 0x1_0000
  }

  predicate IsNul(b: Byte) { b == 0 }

  /** `CStr::from_bytes_until_nul`: the bytes before the first NUL, an error without one. */
  function UntilNul(buffer: seq<Byte>): (r: Option<seq<Byte>>)
    ensures r.None? <==> 0 !in buffer
    ensures r.Some? ==> |r.value| < |buffer| && buffer[|r.value|] == 0 && r.value == buffer[..|r.value|] && 0 !in r.value
  {
    FirstIndexSpec(buffer, IsNul);
    match FirstIndex(buffer, IsNul)
    case None => None
    case Some(k) => Some(buffer[..k])
  }

  /** `splitn(3, ' ')` with exactly three parts: release, build host, and the rest. */
  function SplitKernelVersion(s: string): (r: Option<(string, string, string)>)
    ensures r.Some? ==> s == r.value.0 + " " + r.value.1 + " " + r.value.2 && ' ' !in r.value.0 && ' ' !in r.value.1
  {
    var parts := SplitN(s, ' ', 3);
    if |parts| != 3 then None
    else
      assert Join(parts[1..], " ") == parts[1] + " " + parts[2];
      Some((parts[0], parts[1], parts[2]))
  }

  /** Text with fewer than two spaces has no release/version split. */
  lemma SplitKernelVersionFewSpaces(a: string, b: string)
    requires ' ' !in a && ' ' !in b
    ensures SplitKernelVersion(a).None?
    ensures SplitKernelVersion(a + " " + b).None?
  {
    assert SplitOnce(a, ' ').None?;
    assert SplitOnce(b, ' ').None?;
    SplitOnceAt(a, b, ' ');
  }

  datatype KernelVersionInformation = KernelVersionInformation(
    machine: string,
    sysname: string,
    release: string,
    version: string)

  /**
   * `gather_kernel_version` after the image is opened: the two header bytes
   * at 0x20e give the offset, 256 bytes are read there, the text before the
   * first NUL must be UTF-8 (`decode`, the library's `to_str`), and the
   * text splits into release, build host and version.
   */
  function KernelVersion(image: seq<Byte>, decode: seq<Byte> -> Option<string>)
    : (r: Result<KernelVersionInformation, PostHookError>)
    ensures r.Ok? ==> r.value.machine == MACHINE && r.value.sysname == "Linux" && ' ' !in r.value.release
  {
    match ReadExactAt(image, KERNEL_VERSION_FIELD, 2)
    case None => Err(OffsetUnreadable)
    case Some(field) =>
      match ReadExactAt(image, VersionOffset(field[0], field[1]), VERSION_BUFFER_LEN)
      case None => Err(VersionUnreadable)
      case Some(buffer) => VersionOfBuffer(buffer, decode)
  }

  /** The version information in the 256 bytes read at the offset. */
  function VersionOfBuffer(buffer: seq<Byte>, decode: seq<Byte> -> Option<string>)
    : (r: Result<KernelVersionInformation, PostHookError>)
    ensures r.Ok? ==> r.value.machine == MACHINE && r.value.sysname == "Linux" && ' ' !in r.value.release
  {
    match UntilNul(buffer)
    case None => Err(NoNulTerminator)
    case Some(bytes) =>
      match decode(bytes)
      case None => Err(NotUtf8)
      case Some(text) =>
        match SplitKernelVersion(text)
        case None => Err(BadVersionString)
        case Some((release, _, version)) => Ok(KernelVersionInformation(MACHINE, "Linux", release, version))
  }

  /**
   * An image whose header points at a NUL-terminated version string
   * `release build version` reports that release and version.
   */
  lemma KernelVersionOfImage(image: seq<Byte>, decode: seq<Byte> -> Option<string>, text: seq<Byte>,
                             release: string, build: string, version: string)
    requires |image| >= KERNEL_VERSION_FIELD + 2
    requires var o := VersionOffset(image[KERNEL_VERSION_FIELD], image[KERNEL_VERSION_FIELD + 1]);
      && o + VERSION_BUFFER_LEN <= |image| && |text| < VERSION_BUFFER_LEN
      && image[o..o + |text|] == text && image[o + |text|] == 0
    requires 0 !in text
    requires decode(text) == Some(release + " " + build + " " + version)
    requires ' ' !in release && ' ' !in build
    ensures KernelVersion(image, decode) == Ok(KernelVersionInformation(MACHINE, "Linux", release, version))
  {
    var o := VersionOffset(image[KERNEL_VERSION_FIELD], image[KERNEL_VERSION_FIELD + 1]);
    var field := image[KERNEL_VERSION_FIELD..KERNEL_VERSION_FIELD + 2];
    assert field[0] == image[KERNEL_VERSION_FIELD] && field[1] == image[KERNEL_VERSION_FIELD + 1];
    assert ReadExactAt(image, KERNEL_VERSION_FIELD, 2) == Some(field);
    var buffer := image[o..o + VERSION_BUFFER_LEN];
    assert ReadExactAt(image, o, VERSION_BUFFER_LEN) == Some(buffer);
    assert buffer[..|text|] == image[o..o + |text|];
    assert buffer[|text|] == image[o + |text|];
    VersionOfBufferWith(buffer, decode, text, release, build, version);
  }

  /** The buffer half of the above: text, a NUL, and a decodable three-part string. */
  lemma VersionOfBufferWith(buffer: seq<Byte>, decode: seq<Byte> -> Option<string>, text: seq<Byte>,
                            release: string, build: string, version: string)
    requires |text| < |buffer| && buffer[..|text|] == text && buffer[|text|] == 0
    requires 0 !in text
    requires decode(text) == Some(release + " " + build + " " + version)
    requires ' ' !in release && ' ' !in build
    ensures VersionOfBuffer(buffer, decode) == Ok(KernelVersionInformation(MACHINE, "Linux", release, version))
  {
    UntilNulOf(buffer, text);
    SplitNThree(release, build, version, ' ');
  }

  /** A buffer holding NUL-free text and then a NUL yields that text. */
  lemma UntilNulOf(buffer: seq<Byte>, text: seq<Byte>)
    requires |text| < |buffer| && buffer[..|text|] == text && buffer[|text|] == 0
    requires 0 !in text
    ensures UntilNul(buffer) == Some(text)
  {
    assert forall j :: 0 <= j < |text| ==> buffer[j] == text[j];
    FirstIndexAt(buffer, IsNul, |text|);
  }

  // ---------------------------------------------------------------------
  // CPU summary from /proc/cpuinfo

  datatype CpuInfo = CpuInfo(cores: nat, cpus: nat, flags: string, hvm: bool, model: string, sockets: nat)

  /** The keys of `/proc/cpuinfo` the summary reads; every other line is `Other`. */
  datatype CpuField = Processor | CoreId | PhysicalId | Flags | ModelName | Other

  /** The field a trimmed key names. */
  function FieldNamed(key: string): (f: CpuField)
    ensures f == Processor <==> key == "processor"
    ensures f == CoreId <==> key == "core id"
    ensures f == PhysicalId <==> key == "physical id"
    ensures f == Flags <==> key == "flags"
    ensures f == ModelName <==> key == "model name"
  {
    if key == "processor" then Processor
    else if key == "core id" then CoreId
    else if key == "physical id" then PhysicalId
    else if key == "flags" then Flags
    else if key == "model name" then ModelName
    else Other
  }

  /** The field of a line: its text before the first `:`, trimmed; `Other` without a `:`. */
  function LineField(line: string): CpuField
  {
    match SplitOnce(line, ':')
    case None => Other
    case Some((key, _)) => FieldNamed(Trim(key))
  }

  /** The untrimmed text after the first `:`. */
  function CpuValue(line: string): string
  {
    match SplitOnce(line, ':')
    case None => ""
    case Some((_, value)) => value
  }

  /** The lines a classifier puts in field `f`. */
  function FieldIs(classify: string -> CpuField, f: CpuField): string -> bool
  {
    line => classify(line) == f
  }

  /** The distinct untrimmed values of the lines of field `f`. */
  function Values(lines: seq<string>, f: CpuField): set<string>
  {
    Collect(lines, FieldIs(LineField, f), CpuValue)
  }

  /** A value is collected exactly when some line of field `f` carries it. */
  lemma ValuesSpec(lines: seq<string>, f: CpuField, v: string)
    ensures v in Values(lines, f) <==> exists i :: 0 <= i < |lines| && LineField(lines[i]) == f && CpuValue(lines[i]) == v
  {
    CollectSpec(lines, FieldIs(LineField, f), CpuValue, v);
  }

  /** There are no more distinct values than lines of field `f`. */
  lemma ValuesAtMostCount(lines: seq<string>, f: CpuField)
    ensures |Values(lines, f)| <= Count(lines, FieldIs(LineField, f))
  {
    CollectAtMostCount(lines, FieldIs(LineField, f), CpuValue);
  }

  /** The trimmed value of the last line of field `f`, or empty text, for any classifier. */
  function LastValueOf(lines: seq<string>, classify: string -> CpuField, valueOf: string -> string, f: CpuField): string
  {
    match LastIndex(lines, FieldIs(classify, f))
    case None => ""
    case Some(k) => Trim(valueOf(lines[k]))
  }

  /** The trimmed value of the last line of field `f`, or empty text. */
  function LastValue(lines: seq<string>, f: CpuField): string
  {
    LastValueOf(lines, LineField, CpuValue, f)
  }

  /** The last line of field `f` carries the value, and no later line is of that field. */
  lemma LastValueSpec(lines: seq<string>, f: CpuField)
    ensures (forall i :: 0 <= i < |lines| ==> LineField(lines[i]) != f) ==> LastValue(lines, f) == ""
    ensures forall k :: 0 <= k < |lines| && LineField(lines[k]) == f && (forall i :: k < i < |lines| ==> LineField(lines[i]) != f)
              ==> LastValue(lines, f) == Trim(CpuValue(lines[k]))
  {
    var p := FieldIs(LineField, f);
    LastIndexSpec(lines, p);
    forall k | 0 <= k < |lines| && LineField(lines[k]) == f && (forall i :: k < i < |lines| ==> LineField(lines[i]) != f)
      ensures LastValue(lines, f) == Trim(CpuValue(lines[k]))
    {
      var j := LastIndex(lines, p).value;
      assert !(j < k) && !(k < j);
    }
  }

  /** The loop state of `gather_cpu_info`. */
  datatype CpuTally = CpuTally(cpus: nat, cores: set<string>, sockets: set<string>, flags: string, model: string)

  /** What one line of the given field and value contributes: the body of the loop over the lines. */
  function TallyLine(t: CpuTally, field: CpuField, value: string): CpuTally
  {
    match field
    case Processor => t.(cpus := t.cpus + 1)
    case CoreId => t.(cores := t.cores + {value})
    case PhysicalId => t.(sockets := t.sockets + {value})
    case Flags => t.(flags := Trim(value))
    case ModelName => t.(model := Trim(value))
    case Other => t
  }

  /**
   * The state after the given lines. It is stated for any classifier and
   * value function, so that its lemmas do not depend on how a line is split.
   */
  function TallyOf(lines: seq<string>, classify: string -> CpuField, valueOf: string -> string): CpuTally
  {
    if lines == [] then CpuTally(0, {}, {}, "", "")
    else
      var last := lines[|lines| - 1];
      TallyLine(TallyOf(lines[..|lines| - 1], classify, valueOf), classify(last), valueOf(last))
  }

  /** The CPU count is the number of `processor` lines. */
  lemma {:induction false} TallyCpus(lines: seq<string>, classify: string -> CpuField, valueOf: string -> string)
    ensures TallyOf(lines, classify, valueOf).cpus == Count(lines, FieldIs(classify, Processor))
  {
    if lines != [] {
      TallyCpus(lines[..|lines| - 1], classify, valueOf);
    }
  }

  /** The core set holds the distinct `core id` values. */
  lemma {:induction false} TallyCores(lines: seq<string>, classify: string -> CpuField, valueOf: string -> string)
    ensures TallyOf(lines, classify, valueOf).cores == Collect(lines, FieldIs(classify, CoreId), valueOf)
  {
    if lines != [] {
      TallyCores(lines[..|lines| - 1], classify, valueOf);
    }
  }

  /** The socket set holds the distinct `physical id` values. */
  lemma {:induction false} TallySockets(lines: seq<string>, classify: string -> CpuField, valueOf: string -> string)
    ensures TallyOf(lines, classify, valueOf).sockets == Collect(lines, FieldIs(classify, PhysicalId), valueOf)
  {
    if lines != [] {
      TallySockets(lines[..|lines| - 1], classify, valueOf);
    }
  }

  /** A line changes the text of field `f` (`flags` or `model name`) only when it is of that field. */
  lemma TallyLineText(t: CpuTally, field: CpuField, value: string)
    ensures TallyLine(t, field, value).flags == if field == Flags then Trim(value) else t.flags
    ensures TallyLine(t, field, value).model == if field == ModelName then Trim(value) else t.model
  {
  }

  /** The last value of field `f` after one more line. */
  lemma LastValueOfStep(lines: seq<string>, classify: string -> CpuField, valueOf: string -> string, f: CpuField)
    requires lines != []
    ensures var last := lines[|lines| - 1];
      LastValueOf(lines, classify, valueOf, f)
        == if classify(last) == f then Trim(valueOf(last)) else LastValueOf(lines[..|lines| - 1], classify, valueOf, f)
  {
    var init, last := lines[..|lines| - 1], lines[|lines| - 1];
    var p := FieldIs(classify, f);
    assert p(last) == (classify(last) == f);
    if !p(last) {
      match LastIndex(init, p)
      case None =>
      case Some(k) => assert lines[k] == init[k];
    }
  }

  /** `flags` holds the trimmed value of the last `flags` line. */
  lemma {:induction false} TallyFlags(lines: seq<string>, classify: string -> CpuField, valueOf: string -> string)
    ensures TallyOf(lines, classify, valueOf).flags == LastValueOf(lines, classify, valueOf, Flags)
  {
    if lines != [] {
      var init, last := lines[..|lines| - 1], lines[|lines| - 1];
      TallyFlags(init, classify, valueOf);
      TallyLineText(TallyOf(init, classify, valueOf), classify(last), valueOf(last));
      LastValueOfStep(lines, classify, valueOf, Flags);
    }
  }

  /** `model` holds the trimmed value of the last `model name` line. */
  lemma {:induction false} TallyModel(lines: seq<string>, classify: string -> CpuField, valueOf: string -> string)
    ensures TallyOf(lines, classify, valueOf).model == LastValueOf(lines, classify, valueOf, ModelName)
  {
    if lines != [] {
      var init, last := lines[..|lines| - 1], lines[|lines| - 1];
      TallyModel(init, classify, valueOf);
      TallyLineText(TallyOf(init, classify, valueOf), classify(last), valueOf(last));
      LastValueOfStep(lines, classify, valueOf, ModelName);
    }
  }

  /**
   * `gather_cpu_info`: `processor` lines are counted, the distinct `core id`
   * and `physical id` values are counted, and `flags` and `model name` keep
   * the trimmed value of their last line; `hvm` comes from the runtime info.
   */
  method GatherCpuInfo(cpuinfo: string, hvm: bool) returns (info: CpuInfo)
    ensures info.cpus == Count(Lines(cpuinfo), FieldIs(LineField, Processor))
    ensures info.cores == |Values(Lines(cpuinfo), CoreId)|
    ensures info.sockets == |Values(Lines(cpuinfo), PhysicalId)|
    ensures info.flags == LastValue(Lines(cpuinfo), Flags)
    ensures info.model == LastValue(Lines(cpuinfo), ModelName)
    ensures info.hvm == hvm
  {
    var lines := Lines(cpuinfo);
    var cpus := 0;
    var flags, model := "", "";
    var cores: set<string> := {};
    var sockets: set<string> := {};
    var i := 0;
    while i < |lines|
      invariant 0 <= i <= |lines|
      invariant CpuTally(cpus, cores, sockets, flags, model) == TallyOf(lines[..i], LineField, CpuValue)
    {
      assert lines[..i + 1][..i] == lines[..i];
      var value := CpuValue(lines[i]);
      match LineField(lines[i]) {
        case Processor => cpus := cpus + 1;
        case CoreId => cores := cores + {value};
        case PhysicalId => sockets := sockets + {value};
        case Flags => flags := Trim(value);
        case ModelName => model := Trim(value);
        case Other =>
      }
      i := i + 1;
    }
    assert lines[..i] == lines;
    TallyCpus(lines, LineField, CpuValue);
    TallyCores(lines, LineField, CpuValue);
    TallySockets(lines, LineField, CpuValue);
    TallyFlags(lines, LineField, CpuValue);
    TallyModel(lines, LineField, CpuValue);
    info := CpuInfo(|cores|, cpus, flags, hvm, model, |sockets|);
  }

  // ---------------------------------------------------------------------
  // Disks and network interfaces of the report

  const SIZE_GIB: nat := 1024 * 1024 * 1024

  /**
   * `(hdsize * SIZE_GIB as f64) as usize`: rounded toward zero, and
   * saturating at zero and at the largest `usize`.
   */
  function ByteSize(hdsize: real): (r: nat)
    ensures r < USIZE_LIMIT
    ensures var b := hdsize * SIZE_GIB as real;
      0.0 <= b < USIZE_LIMIT as real ==> r as real <= b < r as real + 1.0
  {
    var b := hdsize * SIZE_GIB as real;
    if b < 0.0 then 0 else if b >= USIZE_LIMIT as real then USIZE_LIMIT - 1 else b.Floor
  }

  datatype DiskInfo = DiskInfo(size: nat, isBootdisk: Option<bool>, udevProperties: map<string, string>)

  /**
   * The boot-disk flag: on LVM the one disk whose path is `target_hd`, on
   * ZFS and Btrfs every disk whose index is a value of `disk_selection`.
   */
  function IsBootdisk(config: InstallConfig, disk: Disk): (r: Option<bool>)
    ensures r.None? || r == Some(true)
    ensures IsLvm(config.filesys) ==> (r.Some? <==> config.targetHd == Some(disk.path))
    ensures !IsLvm(config.filesys) ==> (r.Some? <==> exists k :: k in config.diskSelection && config.diskSelection[k] == disk.index)
  {
    if IsLvm(config.filesys) then
      if config.targetHd == Some(disk.path) then Some(true) else None
    else if disk.index in config.diskSelection.Values then Some(true) else None
  }

  function DiskInfoOf(config: InstallConfig, disk: Disk, props: map<string, string>): DiskInfo
  {
    DiskInfo(ByteSize(config.hdsize), IsBootdisk(config, disk), props)
  }

  /**
   * `gather_disks` as written: the closure's `?` makes a disk without udev
   * data an `Err`, and `flat_map` over a `Result` drops it without a trace.
   */
  function GatherDisksAsWritten(config: InstallConfig, disks: seq<Disk>, udev: UdevInfo): (r: seq<DiskInfo>)
    ensures |r| <= |disks|
  {
    if disks == [] then []
    else
      var rest := GatherDisksAsWritten(config, disks[1..], udev);
      if disks[0].index in udev.disks then [DiskInfoOf(config, disks[0], udev.disks[disks[0].index])] + rest
      else rest
  }

  /** `gather_disks` with the error it builds reported: the first disk without udev data. */
  function GatherDisks(config: InstallConfig, disks: seq<Disk>, udev: UdevInfo): (r: Result<seq<DiskInfo>, PostHookError>)
    ensures r.Ok? ==> |r.value| == |disks|
  {
    if disks == [] then Ok([])
    else if disks[0].index !in udev.disks then Err(NoUdevForDisk(disks[0].path))
    else
      match GatherDisks(config, disks[1..], udev)
      case Err(e) => Err(e)
      case Ok(rest) => Ok([DiskInfoOf(config, disks[0], udev.disks[disks[0].index])] + rest)
  }

  function MissingDiskPred(udevDisks: map<string, map<string, string>>): Disk -> bool
  {
    (d: Disk) => d.index !in udevDisks
  }

  /** The disks are gathered exactly when each has udev data; otherwise the first without is named. */
  lemma {:induction false} GatherDisksErrors(config: InstallConfig, disks: seq<Disk>, udev: UdevInfo)
    ensures GatherDisks(config, disks, udev).Err? <==> FirstIndex(disks, MissingDiskPred(udev.disks)).Some?
    ensures GatherDisks(config, disks, udev).Err? ==>
      GatherDisks(config, disks, udev).error == NoUdevForDisk(disks[FirstIndex(disks, MissingDiskPred(udev.disks)).value].path)
  {
    if disks != [] && disks[0].index in udev.disks {
      GatherDisksErrors(config, disks[1..], udev);
    }
  }

  /** Each gathered entry describes the disk at the same position, with that disk's udev data. */
  lemma {:induction false} GatherDisksEntries(config: InstallConfig, disks: seq<Disk>, udev: UdevInfo)
    requires GatherDisks(config, disks, udev).Ok?
    ensures forall i :: 0 <= i < |disks| ==>
      disks[i].index in udev.disks
      && GatherDisks(config, disks, udev).value[i] == DiskInfoOf(config, disks[i], udev.disks[disks[i].index])
  {
    if disks != [] {
      var tail := disks[1..];
      GatherDisksEntries(config, tail, udev);
      assert forall i :: 1 <= i < |disks| ==> disks[i] == tail[i - 1];
    }
  }

  /** When every disk has udev data, the code as written gives the same list. */
  lemma {:induction false} GatherDisksAsWrittenAgrees(config: InstallConfig, disks: seq<Disk>, udev: UdevInfo)
    requires GatherDisks(config, disks, udev).Ok?
    ensures GatherDisksAsWritten(config, disks, udev) == GatherDisks(config, disks, udev).value
  {
    if disks != [] {
      GatherDisksAsWrittenAgrees(config, disks[1..], udev);
    }
  }

  /** A disk without udev data vanishes from the list as written, where an error was meant. */
  lemma GatherDisksDropsUnknown(config: InstallConfig, disk: Disk, udev: UdevInfo)
    requires disk.index !in udev.disks
    ensures GatherDisksAsWritten(config, [disk], udev) == []
    ensures GatherDisks(config, [disk], udev) == Err(NoUdevForDisk(disk.path))
  {
    assert [disk][1..] == [];
  }

  datatype NetworkInterfaceInfo = NetworkInterfaceInfo(
    mac: string,
    address: Option<CidrAddress>,
    isManagement: Option<bool>,
    udevProperties: map<string, string>)

  /** Only the management interface carries the configured address and the management flag. */
  function NicInfoOf(config: InstallConfig, nic: Interface, props: map<string, string>): (r: NetworkInterfaceInfo)
    ensures r.mac == nic.mac && r.udevProperties == props
    ensures r.isManagement.None? || r.isManagement == Some(true)
    ensures r.isManagement.Some? <==> nic.name == config.mngmtNic
    ensures r.address.Some? <==> nic.name == config.mngmtNic
    ensures r.address.Some? ==> r.address.value == config.cidr
  {
    if config.mngmtNic == nic.name then NetworkInterfaceInfo(nic.mac, Some(config.cidr), Some(true), props)
    else NetworkInterfaceInfo(nic.mac, None, None, props)
  }

  /**
   * `gather_nic` as written, over the interfaces in the order the runtime
   * information's map yields them: an interface without udev data is
   * dropped by `flat_map`, like a disk.
   */
  function GatherNicsAsWritten(config: InstallConfig, nics: seq<Interface>, udev: UdevInfo): (r: seq<NetworkInterfaceInfo>)
    ensures |r| <= |nics|
  {
    if nics == [] then []
    else
      var rest := GatherNicsAsWritten(config, nics[1..], udev);
      if nics[0].name in udev.nics then [NicInfoOf(config, nics[0], udev.nics[nics[0].name])] + rest
      else rest
  }

  /** `gather_nic` with the error it builds reported: the first interface without udev data. */
  function GatherNics(config: InstallConfig, nics: seq<Interface>, udev: UdevInfo)
    : (r: Result<seq<NetworkInterfaceInfo>, PostHookError>)
    ensures r.Ok? ==> |r.value| == |nics|
  {
    if nics == [] then Ok([])
    else if nics[0].name !in udev.nics then Err(NoUdevForNic(nics[0].name))
    else
      match GatherNics(config, nics[1..], udev)
      case Err(e) => Err(e)
      case Ok(rest) => Ok([NicInfoOf(config, nics[0], udev.nics[nics[0].name])] + rest)
  }

  function MissingNicPred(udevNics: map<string, map<string, string>>): Interface -> bool
  {
    (nic: Interface) => nic.name !in udevNics
  }

  /** The interfaces are gathered exactly when each has udev data; otherwise the first without is named. */
  lemma {:induction false} GatherNicsErrors(config: InstallConfig, nics: seq<Interface>, udev: UdevInfo)
    ensures GatherNics(config, nics, udev).Err? <==> FirstIndex(nics, MissingNicPred(udev.nics)).Some?
    ensures GatherNics(config, nics, udev).Err? ==>
      GatherNics(config, nics, udev).error == NoUdevForNic(nics[FirstIndex(nics, MissingNicPred(udev.nics)).value].name)
  {
    if nics != [] && nics[0].name in udev.nics {
      GatherNicsErrors(config, nics[1..], udev);
    }
  }

  /** Each gathered entry describes the interface at the same position; only the management one is flagged. */
  lemma {:induction false} GatherNicsEntries(config: InstallConfig, nics: seq<Interface>, udev: UdevInfo)
    requires GatherNics(config, nics, udev).Ok?
    ensures forall i :: 0 <= i < |nics| ==>
      nics[i].name in udev.nics
      && GatherNics(config, nics, udev).value[i] == NicInfoOf(config, nics[i], udev.nics[nics[i].name])
  {
    if nics != [] {
      var tail := nics[1..];
      GatherNicsEntries(config, tail, udev);
      assert forall i :: 1 <= i < |nics| ==> nics[i] == tail[i - 1];
    }
  }

  /** When every interface has udev data, the code as written gives the same list. */
  lemma {:induction false} GatherNicsAsWrittenAgrees(config: InstallConfig, nics: seq<Interface>, udev: UdevInfo)
    requires GatherNics(config, nics, udev).Ok?
    ensures GatherNicsAsWritten(config, nics, udev) == GatherNics(config, nics, udev).value
  {
    if nics != [] {
      GatherNicsAsWrittenAgrees(config, nics[1..], udev);
    }
  }

  /** An interface without udev data vanishes from the list as written, where an error was meant. */
  lemma GatherNicsDropsUnknown(config: InstallConfig, nic: Interface, udev: UdevInfo)
    requires nic.name !in udev.nics
    ensures GatherNicsAsWritten(config, [nic], udev) == []
    ensures GatherNics(config, [nic], udev) == Err(NoUdevForNic(nic.name))
  {
    assert [nic][1..] == [];
  }
}
