/**
 * `proxmox-tui-installer/src/utils.rs`: the TUI's own copy of `CidrAddress`,
 * with its constructor, parser, display form and accessors.
 *
 * The fields are private in Rust, so every value is one the constructor or
 * the parser accepted (`Valid`). The text parser and formatter of `IpAddr`
 * are parameters (`parseIp`, `showIp`). The copy in the common crate is
 * `CommonUtils.CidrAddress`; the lemmas at the end show the two agree.
 */
module TuiUtils {
  import opened Wrappers
  import opened Text
  import CommonUtils

  type IpAddr = CommonUtils.IpAddr

  datatype CidrAddressParseError =
    | NoDelimiter
    | InvalidAddr
    | InvalidMask(cause: Option<ParseIntError>)

  datatype CidrAddress = CidrAddress(addr: IpAddr, mask: nat)
  {
    predicate Valid() { mask <= MaskLimit(addr) }

    /** `CidrAddress::addr`. */
    function Addr(): (r: IpAddr)
      ensures r == addr
    {
      addr
    }

    /** `CidrAddress::mask`. */
    function Mask(): (r: nat)
      ensures r == mask
    {
      mask
    }
  }

  /** `mask_limit`: the number of address bits of the family. */
  function MaskLimit(addr: IpAddr): (r: nat)
    ensures r == 32 <==> addr.V4?
    ensures r == 128 <==> addr.V6?
  {
    if addr.IsIpv4() then 32 else 128
  }

  /** `CidrAddress::new`: rejects a mask longer than the address family allows. */
  function New(addr: IpAddr, mask: nat): (r: Result<CidrAddress, CidrAddressParseError>)
  {
    if mask > MaskLimit(addr) then Err(InvalidMask(None)) else Ok(CidrAddress(addr, mask))
  }

  /** `FromStr for CidrAddress`: `<addr>/<mask>`, split at the first `/`. */
  function FromStr(s: string, parseIp: string -> Option<IpAddr>): (r: Result<CidrAddress, CidrAddressParseError>)
    ensures r == Err(NoDelimiter) <==> '/' !in s
    ensures r.Ok? ==> r.value.Valid()
  {
    match SplitOnce(s, '/')
    case None => Err(NoDelimiter)
    case Some((addrText, maskText)) =>
      match parseIp(addrText)
      case None => Err(InvalidAddr)
      case Some(addr) =>
        match ParseUsize(maskText)
        case Err(e) => Err(InvalidMask(Some(e)))
        case Ok(mask) =>
          if mask > MaskLimit(addr) then Err(InvalidMask(None)) else Ok(CidrAddress(addr, mask))
  }

  /** `Display for CidrAddress`: `<addr>/<mask>`. */
  function Show(c: CidrAddress, showIp: IpAddr -> string): string
  {
    showIp(c.addr) + "/" + NatToString(c.mask)
  }

  // ---------------------------------------------------------------------
  // Properties

  /**
   * `new` succeeds exactly for masks up to 32 (IPv4) or 128 (IPv6), and the
   * accessors give back what was passed in; anything longer is
   * `InvalidMask(None)`.
   */
  lemma NewSpec(addr: IpAddr, mask: nat)
    ensures New(addr, mask).Ok? <==> (addr.V4? && mask <= 32) || (addr.V6? && mask <= 128)
    ensures New(addr, mask).Ok? ==>
      New(addr, mask).value.Addr() == addr && New(addr, mask).value.Mask() == mask && New(addr, mask).value.Valid()
    ensures New(addr, mask).Err? ==> New(addr, mask) == Err(InvalidMask(None))
  {
  }

  /** The common crate's address for a TUI address. */
  function ToCommon(c: CidrAddress): (r: CommonUtils.CidrAddress)
    ensures r.addr == c.addr && r.mask == c.mask
  {
    CommonUtils.CidrAddress(c.addr, c.mask)
  }

  /** The common crate's error for a TUI parse error. */
  function ErrorToCommon(e: CidrAddressParseError): CommonUtils.CidrAddressParseError
  {
    match e
    case NoDelimiter => CommonUtils.NoDelimiter
    case InvalidAddr => CommonUtils.InvalidAddr
    case InvalidMask(cause) => CommonUtils.InvalidMask(cause)
  }

  function ResultToCommon(r: Result<CidrAddress, CidrAddressParseError>): Result<CommonUtils.CidrAddress, CommonUtils.CidrAddressParseError>
  {
    match r
    case Ok(c) => Ok(ToCommon(c))
    case Err(e) => Err(ErrorToCommon(e))
  }

  /** The TUI parser accepts and rejects exactly what the common parser does. */
  lemma FromStrAgrees(s: string, parseIp: string -> Option<IpAddr>)
    ensures ResultToCommon(FromStr(s, parseIp)) == CommonUtils.ParseCidr(s, parseIp)
  {
  }

  /** The TUI constructor agrees with the common one. */
  lemma NewAgrees(addr: IpAddr, mask: nat)
    ensures ResultToCommon(New(addr, mask)) == CommonUtils.NewCidr(addr, mask)
  {
  }

  /** Displaying an address and parsing the text gives it back. */
  lemma ShowFromStr(c: CidrAddress, parseIp: string -> Option<IpAddr>, showIp: IpAddr -> string)
    requires CommonUtils.IpTextRoundTrips(parseIp, showIp)
    requires c.Valid()
    ensures FromStr(Show(c, showIp), parseIp) == Ok(c)
  {
    var text := Show(c, showIp);
    assert text == CommonUtils.ShowCidr(ToCommon(c), showIp);
    CommonUtils.ParseShowCidr(ToCommon(c), parseIp, showIp);
    FromStrAgrees(text, parseIp);
  }

  /** A mask longer than the family limit is rejected as `InvalidMask(None)`. */
  lemma FromStrMaskTooLong(a: string, m: nat, parseIp: string -> Option<IpAddr>)
    requires '/' !in a && parseIp(a).Some?
    requires MaskLimit(parseIp(a).value) < m < USIZE_LIMIT
    ensures FromStr(a + "/" + NatToString(m), parseIp) == Err(InvalidMask(None))
  {
    SplitOnceAt(a, NatToString(m), '/');
    ParseNatToString(m);
  }
}
