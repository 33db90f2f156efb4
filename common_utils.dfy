/**
 * `proxmox-installer-common/src/utils.rs`: CIDR addresses and fully
 * qualified domain names, their parsers and their display forms.
 *
 * `std::net::IpAddr` is visible to the model only through its family; its
 * text parser and formatter are parameters (`parseIp`, `showIp`).
 */
module CommonUtils {
  import opened Wrappers
  import opened Text

  /** An IP address; the number stands for the address bits. */
  datatype IpAddr = V4(v4: nat) | V6(v6: nat)
  {
    predicate IsIpv4() { this.V4? }
    predicate IsIpv6() { this.V6? }
  }

  /** The text form of IP addresses never contains the CIDR delimiter. */
  ghost predicate IpTextRoundTrips(parseIp: string -> Option<IpAddr>, showIp: IpAddr -> string)
  {
    forall a :: parseIp(showIp(a)) == Some(a) && '/' !in showIp(a)
  }

  // ---------------------------------------------------------------------
  // CidrAddress

  datatype CidrAddressParseError =
    | NoDelimiter
    | InvalidAddr
    | InvalidMask(cause: Option<ParseIntError>)

  /** An address with its network mask; `Valid` is what the constructors enforce. */
  datatype CidrAddress = CidrAddress(addr: IpAddr, mask: nat)
  {
    predicate Valid() { mask <= MaskLimit(addr) }

    function Addr(): IpAddr { addr }
    function Mask(): nat { mask }
    predicate IsIpv4() { addr.IsIpv4() }
    predicate IsIpv6() { addr.IsIpv6() }
  }

  function MaskLimit(addr: IpAddr): (r: nat)
    ensures r == 32 || r == 128
    ensures r == 32 <==> addr.IsIpv4()
  {
    if addr.IsIpv4() then 32 else 128
  }

  /** `CidrAddress::new`: rejects a mask longer than the address family allows. */
  function NewCidr(addr: IpAddr, mask: nat): (r: Result<CidrAddress, CidrAddressParseError>)
    ensures r.Ok? <==> mask <= (if addr.V4? then 32 else 128)
    ensures r.Ok? ==> r.value.Addr() == addr && r.value.Mask() == mask && r.value.Valid()
    ensures r.Err? ==> r.error == InvalidMask(None)
  {
    if mask > MaskLimit(addr) then Err(InvalidMask(None))
    else Ok(CidrAddress(addr, mask))
  }

  /** `FromStr for CidrAddress`: `<addr>/<mask>`, split at the first `/`. */
  function ParseCidr(s: string, parseIp: string -> Option<IpAddr>): (r: Result<CidrAddress, CidrAddressParseError>)
    ensures r == Err(NoDelimiter) <==> '/' !in s
    ensures r.Ok? ==> r.value.Valid()
    ensures r.Ok? ==> exists i :: 0 <= i < |s| && s[i] == '/' && '/' !in s[..i]
                        && parseIp(s[..i]) == Some(r.value.addr)
                        && ParseUsize(s[i + 1..]) == Ok(r.value.mask)
    ensures forall i :: 0 <= i < |s| && s[i] == '/' && '/' !in s[..i] ==>
              && (r == Err(InvalidAddr) <==> parseIp(s[..i]).None?)
              && (parseIp(s[..i]).Some? && ParseUsize(s[i + 1..]).Err? ==>
                    r == Err(InvalidMask(Some(ParseUsize(s[i + 1..]).error))))
              && (r == Err(InvalidMask(None)) <==>
                    parseIp(s[..i]).Some? && ParseUsize(s[i + 1..]).Ok?
                    && ParseUsize(s[i + 1..]).value > MaskLimit(parseIp(s[..i]).value))
  {
    match SplitOnce(s, '/')
    case None => Err(NoDelimiter)
    case Some((addrText, maskText)) =>
      assert s[..|addrText|] == addrText && s[|addrText| + 1..] == maskText;
      match parseIp(addrText)
      case None => Err(InvalidAddr)
      case Some(addr) =>
        match ParseUsize(maskText)
        case Err(e) => Err(InvalidMask(Some(e)))
        case Ok(mask) =>
          if mask > MaskLimit(addr) then Err(InvalidMask(None))
          else Ok(CidrAddress(addr, mask))
  }

  /** `Display for CidrAddress`. */
  function ShowCidr(c: CidrAddress, showIp: IpAddr -> string): string
  {
    showIp(c.addr) + "/" + NatToString(c.mask)
  }

  /** A mask above the family limit is `InvalidMask(None)`, whatever else the text says. */
  lemma ParseCidrMaskTooLong(a: string, m: nat, parseIp: string -> Option<IpAddr>)
    requires '/' !in a && parseIp(a).Some?
    requires MaskLimit(parseIp(a).value) < m < USIZE_LIMIT
    ensures ParseCidr(a + "/" + NatToString(m), parseIp) == Err(InvalidMask(None))
  {
    SplitOnceAt(a, NatToString(m), '/');
    ParseNatToString(m);
  }

  /** Displaying a valid CIDR address and parsing the text gives it back. */
  lemma ParseShowCidr(c: CidrAddress, parseIp: string -> Option<IpAddr>, showIp: IpAddr -> string)
    requires IpTextRoundTrips(parseIp, showIp)
    requires c.Valid()
    ensures ParseCidr(ShowCidr(c, showIp), parseIp) == Ok(c)
  {
    assert parseIp(showIp(c.addr)) == Some(c.addr) && '/' !in showIp(c.addr);
    SplitOnceAt(showIp(c.addr), NatToString(c.mask), '/');
    ParseNatToString(c.mask);
  }

  // ---------------------------------------------------------------------
  // Fqdn

  datatype FqdnParseError = MissingHostname | NumericHostname | InvalidPart(part: string)

  datatype Fqdn = Fqdn(parts: seq<string>)
  {
    /** More than one label: the first one is the host. */
    predicate HasHost() { |parts| > 1 }

    function Host(): (r: Option<string>)
    {
      if HasHost() then Some(parts[0]) else None
    }

    function Domain(): string
    {
      Join(if HasHost() then parts[1..] else parts, ".")
    }

    /** `Display for Fqdn`. */
    function ToString(): string { Join(parts, ".") }
  }

  /** A well-formed DNS label, stated on characters. */
  predicate IsLabel(s: string)
  {
    |s| > 0 && IsAsciiAlphanumeric(s[0]) && IsAsciiAlphanumeric(s[|s| - 1])
    && forall i :: 0 < i < |s| - 1 ==> IsAsciiAlphanumeric(s[i]) || s[i] == '-'
  }

  function SaturatingSub(a: nat, b: nat): nat { if a >= b then a - b else 0 }

  /**
   * `Fqdn::validate_single`, as written: the middle characters are those after
   * the first, at most `len() - 2` of them, where `len()` counts UTF-8 bytes.
   */
  predicate ValidateSingle(s: string)
  {
    |s| > 0
    && IsAsciiAlphanumeric(s[0])
    && IsAsciiAlphanumeric(s[|s| - 1])
    && var middle := s[1..][..Min(SaturatingSub(ByteLen(s), 2), |s| - 1)];
       forall i :: 0 <= i < |middle| ==> IsAsciiAlphanumeric(middle[i]) || middle[i] == '-'
  }

  function Min(a: nat, b: nat): nat { if a <= b then a else b }

  /** Counting bytes instead of characters does not change which labels pass. */
  lemma ValidateSingleIsLabel(s: string)
    ensures ValidateSingle(s) <==> IsLabel(s)
  {
    if |s| > 0 {
      ByteLenBounds(s);
      var n := Min(SaturatingSub(ByteLen(s), 2), |s| - 1);
      assert n >= |s| - 2;
      var middle := s[1..][..n];
      assert forall i :: 0 <= i < |middle| ==> middle[i] == s[i + 1];
    }
  }

  /** The first part, in order, that does not validate. */
  function FirstInvalidPart(parts: seq<string>): (r: Option<nat>)
    ensures r.None? <==> forall i :: 0 <= i < |parts| ==> ValidateSingle(parts[i])
    ensures r.Some? ==> r.value < |parts| && !ValidateSingle(parts[r.value])
                        && forall i :: 0 <= i < r.value ==> ValidateSingle(parts[i])
  {
    if parts == [] then None
    else if !ValidateSingle(parts[0]) then Some(0)
    else
      match FirstInvalidPart(parts[1..])
      case None => None
      case Some(k) => Some(k + 1)
  }

  /** `Fqdn::from`. */
  function ParseFqdn(fqdn: string): (r: Result<Fqdn, FqdnParseError>)
  {
    var parts := Split(fqdn, '.');
    match FirstInvalidPart(parts)
    case Some(k) => Err(InvalidPart(parts[k]))
    case None =>
      if |parts| < 2 then Err(MissingHostname)
      else if AllAsciiDigits(parts[0]) then Err(NumericHostname)
      else Ok(Fqdn(parts))
  }

  /** What a parsed FQDN looks like: two or more labels, the first not all digits. */
  predicate ValidFqdn(f: Fqdn)
  {
    |f.parts| >= 2 && !AllAsciiDigits(f.parts[0])
    && (forall i :: 0 <= i < |f.parts| ==> IsLabel(f.parts[i]))
    && (forall i :: 0 <= i < |f.parts| ==> '.' !in f.parts[i])
  }

  /**
   * The accept/reject rule of `Fqdn::from`: labels are checked first, in
   * order, then the count, then the host label.
   */
  lemma ParseFqdnSpec(s: string)
    ensures var parts := Split(s, '.');
      && (ParseFqdn(s).Ok? <==>
            (forall i :: 0 <= i < |parts| ==> IsLabel(parts[i]))
            && |parts| >= 2 && !AllAsciiDigits(parts[0]))
      && (ParseFqdn(s).Ok? ==> ParseFqdn(s).value.parts == parts && ValidFqdn(ParseFqdn(s).value))
      && (ParseFqdn(s).Err? && ParseFqdn(s).error.InvalidPart? <==>
            exists k :: 0 <= k < |parts| && !IsLabel(parts[k]))
      && (ParseFqdn(s) == Err(MissingHostname) <==>
            |parts| < 2 && forall i :: 0 <= i < |parts| ==> IsLabel(parts[i]))
  {
    var parts := Split(s, '.');
    forall i | 0 <= i < |parts| ensures ValidateSingle(parts[i]) <==> IsLabel(parts[i]) {
      ValidateSingleIsLabel(parts[i]);
    }
  }

  /** A parsed FQDN is valid. */
  lemma ParseFqdnValid(s: string)
    requires ParseFqdn(s).Ok?
    ensures ValidFqdn(ParseFqdn(s).value)
  {
    ParseFqdnSpec(s);
  }

  /** The reported invalid part is the first label, in order, that is not well formed. */
  lemma ParseFqdnFirstInvalid(s: string, part: string)
    requires ParseFqdn(s) == Err(InvalidPart(part))
    ensures exists k :: 0 <= k < |Split(s, '.')| && Split(s, '.')[k] == part && !IsLabel(part)
                        && forall i :: 0 <= i < k ==> IsLabel(Split(s, '.')[i])
  {
    var parts := Split(s, '.');
    var k := FirstInvalidPart(parts).value;
    ValidateSingleIsLabel(parts[k]);
    forall i | 0 <= i < k ensures IsLabel(parts[i]) { ValidateSingleIsLabel(parts[i]); }
  }

  /** Displaying a parsed FQDN gives back the text it was parsed from. */
  lemma ParseFqdnDisplay(s: string)
    requires ParseFqdn(s).Ok?
    ensures ParseFqdn(s).value.ToString() == s
  {
    JoinSplit(s, '.');
  }

  /** The host is the first label; the domain joins the remaining ones. */
  lemma ParseFqdnHostDomain(s: string)
    requires ParseFqdn(s).Ok?
    ensures var f := ParseFqdn(s).value;
      && f.Host() == Some(Split(s, '.')[0])
      && f.Domain() == Join(Split(s, '.')[1..], ".")
      && s == f.Host().value + "." + f.Domain()
  {
    JoinSplit(s, '.');
  }

  /** A valid FQDN survives display and re-parsing unchanged. */
  lemma FqdnRoundTrip(f: Fqdn)
    requires ValidFqdn(f)
    ensures ParseFqdn(f.ToString()) == Ok(f)
  {
    SplitJoin(f.parts, '.');
    forall i | 0 <= i < |f.parts| ensures ValidateSingle(f.parts[i]) {
      ValidateSingleIsLabel(f.parts[i]);
    }
  }
}
