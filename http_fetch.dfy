/**
 * `proxmox-fetch-answer/src/fetch_plugins/http.rs`: where the HTTP fetch
 * of the answer file gets its URL and certificate fingerprint. These are:
 * - the settings baked into the ISO;
 * - the custom options of the DHCP lease file;
 * - TXT records under the search domain of `/etc/resolv.conf`.
 *
 * The lease file, `resolv.conf` and the output of each `dig` query are
 * parameters; the POST request itself is not modelled.
 */
module HttpFetch {
  import opened Wrappers
  import opened Text
  import opened Seqs

  const ANSWER_URL_SUBDOMAIN := "proxmox-auto-installer"
  const ANSWER_CERT_FP_SUBDOMAIN := "proxmox-auto-installer-cert-fingerprint"
  const DHCP_URL_OPTION := "proxmox-auto-installer-manifest-url"
  const DHCP_CERT_FP_OPTION := "proxmox-auto-installer-cert-fingerprint"

  /** The start of a lease-file line carrying the URL option. */
  const URL_MATCH := "option proxmox-auto-installer-manifest-url"
  /** The start of a lease-file line carrying the fingerprint option. */
  const FP_MATCH := "option proxmox-auto-installer-cert-fingerprint"

  /** The panic of a string slice whose bounds are out of range or not on a character boundary. */
  const STRIP_PANIC := "byte index out of range or not on a char boundary"

  /** The URL and fingerprint settings of the ISO (`HttpOptions`). */
  datatype HttpOptions = HttpOptions(url: Option<string>, certFingerprint: Option<string>)

  /** The captured result of a command that could be started. */
  datatype CommandOutput = CommandOutput(success: bool, stdout: string, stderr: string)

  datatype FetchError =
    | LeasesUnreadable
    | NoDhcpUrl
    | ResolvConfUnreadable
    | NoSearchDomain
    | DigNotRun(query: string)
    | DigFailed(query: string, stderr: string)
    | EmptyTxt
    | Panic(reason: string)

  // ---------------------------------------------------------------------
  // DHCP options

  /**
   * `strip_dhcp_option` on a present value: the text between the first
   * byte and the last two bytes, so that `"v";` becomes `v`. Shorter
   * values, and bounds that fall inside a character, panic.
   */
  function StripDhcpValue(v: string): (r: Result<string, FetchError>)
    ensures r.Err? ==> r.error == Panic(STRIP_PANIC)
    ensures ByteLen(v) < 3 ==> r.Err?
  {
    if ByteLen(v) < 3 || !IsAscii(v[0]) then Err(Panic(STRIP_PANIC))
    else if Utf8Len(v[|v| - 1]) == 2 then Ok(v[1..|v| - 1])
    // `|v| >= 3` follows from the byte length here; it is written for the slice bounds.
    else if IsAscii(v[|v| - 1]) && |v| >= 3 && IsAscii(v[|v| - 2]) then Ok(v[1..|v| - 2])
    else Err(Panic(STRIP_PANIC))
  }

  /** `strip_dhcp_option`: an absent value stays absent. */
  function StripDhcpOption(value: Option<string>): (r: Result<Option<string>, FetchError>)
    ensures value.None? ==> r == Ok(None)
    ensures value.Some? && r.Ok? ==> r.value.Some?
    ensures r.Err? ==> r.error == Panic(STRIP_PANIC)
  {
    match value
    case None => Ok(None)
    case Some(v) =>
      match StripDhcpValue(v)
      case Ok(s) => Ok(Some(s))
      case Err(e) => Err(e)
  }

  /** A value in the lease file's form, a quoted text and a semicolon, gives back the text. */
  lemma StripQuoted(v: string)
    ensures StripDhcpValue(['"'] + v + ['"', ';']) == Ok(v)
  {
    var s := ['"'] + v + ['"', ';'];
    ByteLenBounds(s);
    assert s[1..|s| - 2] == v;
  }

  /** `line.split(' ').nth_back(0)`: the last space-separated field. */
  function LastField(line: string): string
  {
    var fields := Split(line, ' ');
    fields[|fields| - 1]
  }

  predicate UrlLine(line: string) { StartsWith(Trim(line), URL_MATCH) }

  predicate FpLine(line: string) { StartsWith(Trim(line), FP_MATCH) }

  function StripLine(line: string): Result<Option<string>, FetchError>
  {
    StripDhcpOption(Some(LastField(line)))
  }

  /** The stripped value of the first line with property `p`, if there is one. */
  function FirstOption(lines: seq<string>, p: string -> bool): (r: Result<Option<string>, FetchError>)
    ensures r.Err? ==> r.error == Panic(STRIP_PANIC)
    ensures r.Ok? ==> (r.value.None? <==> FirstIndex(lines, p).None?)
  {
    match FirstIndex(lines, p)
    case None => Ok(None)
    case Some(k) => StripLine(lines[k])
  }

  /** One more line: it is taken only when it is the first with `p`. */
  lemma FirstOptionStep(lines: seq<string>, p: string -> bool, i: nat)
    requires i < |lines|
    ensures FirstOption(lines[..i + 1], p) ==
              if FirstIndex(lines[..i], p).None? && p(lines[i]) then StripLine(lines[i])
              else FirstOption(lines[..i], p)
  {
    var longer := lines[..i + 1];
    assert longer[..i] == lines[..i];
    if FirstIndex(lines[..i], p).None? {
      FirstIndexStep(longer, p, i);
      assert longer[i] == lines[i];
      assert longer[..i + 1] == longer;
    } else {
      FirstIndexPrefix(longer, p, i);
      var k := FirstIndex(lines[..i], p).value;
      assert longer[k] == lines[..i][k];
    }
  }

  /** Once a prefix has a line with `p`, later lines do not change the answer. */
  lemma FirstOptionFinal(lines: seq<string>, p: string -> bool, j: nat)
    requires j <= |lines| && FirstIndex(lines[..j], p).Some?
    ensures FirstOption(lines, p) == FirstOption(lines[..j], p)
  {
    FirstIndexPrefix(lines, p, j);
    var k := FirstIndex(lines[..j], p).value;
    assert lines[..j][k] == lines[k];
  }

  /**
   * The lease scan of `fetch_dhcp`: the URL of the first URL-option line,
   * and the fingerprint supplied or else that of the first fingerprint
   * line. A value that cannot be stripped panics; no URL is an error. The
   * two line tests are parameters here (`UrlLine` and `FpLine` in use).
   */
  function DhcpScan(lines: seq<string>, fingerprint: Option<string>, isUrl: string -> bool, isFp: string -> bool)
    : Result<(string, Option<string>), FetchError>
  {
    var url := FirstOption(lines, isUrl);
    var fp := if fingerprint.Some? then Ok(fingerprint) else FirstOption(lines, isFp);
    if url.Err? then Err(url.error)
    else if fp.Err? then Err(fp.error)
    else
      match url.value
      case None => Err(NoDhcpUrl)
      case Some(u) => Ok((u, fp.value))
  }

  function DhcpOf(leases: Option<string>, fingerprint: Option<string>): Result<(string, Option<string>), FetchError>
  {
    match leases
    case None => Err(LeasesUnreadable)
    case Some(text) => DhcpScan(Lines(text), fingerprint, UrlLine, FpLine)
  }

  /**
   * `fetch_dhcp`: the lease file's lines scanned for the two options.
   */
  method FetchDhcp(leases: Option<string>, fingerprint: Option<string>)
    returns (r: Result<(string, Option<string>), FetchError>)
    ensures r == DhcpOf(leases, fingerprint)
  {
    if leases.None? {
      return Err(LeasesUnreadable);
    }
    r := ScanLeases(Lines(leases.value), fingerprint, UrlLine, FpLine);
  }

  /**
   * The loop of `fetch_dhcp`, keeping the first URL and, while none is
   * known, the first fingerprint.
   */
  method ScanLeases(lines: seq<string>, fingerprint: Option<string>, isUrl: string -> bool, isFp: string -> bool)
    returns (r: Result<(string, Option<string>), FetchError>)
    ensures r == DhcpScan(lines, fingerprint, isUrl, isFp)
  {
    var answerUrl: Option<string> := None;
    var fp := fingerprint;
    var i := 0;
    while i < |lines|
      invariant 0 <= i <= |lines|
      invariant FirstOption(lines[..i], isUrl) == Ok(answerUrl)
      invariant fingerprint.Some? ==> fp == fingerprint
      invariant fingerprint.None? ==> FirstOption(lines[..i], isFp) == Ok(fp)
    {
      var line := lines[i];
      FirstOptionStep(lines, isUrl, i);
      FirstOptionStep(lines, isFp, i);
      if answerUrl.None? && isUrl(line) {
        var stripped := StripDhcpOption(Some(LastField(line)));
        if stripped.Err? {
          FirstOptionFinal(lines, isUrl, i + 1);
          return Err(stripped.error);
        }
        answerUrl := stripped.value;
      }
      if fp.None? && isFp(line) {
        var stripped := StripDhcpOption(Some(LastField(line)));
        if stripped.Err? {
          FirstOptionFinal(lines, isFp, i + 1);
          return Err(stripped.error);
        }
        fp := stripped.value;
      }
      i := i + 1;
    }
    assert lines[..i] == lines;
    if answerUrl.None? {
      return Err(NoDhcpUrl);
    }
    r := Ok((answerUrl.value, fp));
  }

  /**
   * What the scan promises: a URL comes from the first URL-option line; a
   * supplied fingerprint is kept; otherwise the fingerprint comes from the
   * first fingerprint line, or is absent when there is none; a panic is the
   * only other error besides a missing URL.
   */
  lemma DhcpScanSpec(lines: seq<string>, fingerprint: Option<string>, isUrl: string -> bool, isFp: string -> bool)
    ensures var r := DhcpScan(lines, fingerprint, isUrl, isFp);
            && (r.Ok? ==> FirstIndex(lines, isUrl).Some?
                          && StripLine(lines[FirstIndex(lines, isUrl).value]) == Ok(Some(r.value.0)))
            && (r.Ok? && fingerprint.Some? ==> r.value.1 == fingerprint)
            && (r.Ok? && fingerprint.None? ==>
                  (r.value.1.None? <==> forall i :: 0 <= i < |lines| ==> !isFp(lines[i])))
            && (r == Err(NoDhcpUrl) ==> forall i :: 0 <= i < |lines| ==> !isUrl(lines[i]))
            && (r.Err? ==> r.error == NoDhcpUrl || r.error == Panic(STRIP_PANIC))
  {
    FirstIndexSpec(lines, isUrl);
    FirstIndexSpec(lines, isFp);
  }

  /** The URL option followed by its value is a URL line. */
  lemma UrlLineOf(value: string)
    requires value != [] && !IsWhitespace(value[|value| - 1])
    ensures UrlLine(URL_MATCH + [' '] + value)
  {
    var line := URL_MATCH + [' '] + value;
    assert line[0] == 'o' && line[|line| - 1] == value[|value| - 1];
    TrimKeeps(line);
    assert line[..|URL_MATCH|] == URL_MATCH;
  }

  lemma UrlMatchHasNoBreak()
    ensures '\n' !in URL_MATCH
  {
  }

  /** A lease file of one URL line, and a fingerprint supplied by the ISO. */
  lemma DhcpOneLine(line: string, v: string, fp: string)
    requires line != [] && '\n' !in line
    requires UrlLine(line) && StripLine(line) == Ok(Some(v))
    ensures DhcpOf(Some(line), Some(fp)) == Ok((v, Some(fp)))
  {
    LinesOfOne(line);
    FirstIndexAt([line], UrlLine, 0);
  }

  /** A lease line with the URL option and a quoted value, and a fingerprint supplied by the ISO. */
  lemma DhcpExample(v: string, fp: string)
    requires ' ' !in v && '\n' !in v
    ensures DhcpOf(Some(URL_MATCH + " " + (['"'] + v + ['"', ';'])), Some(fp)) == Ok((v, Some(fp)))
  {
    var value := ['"'] + v + ['"', ';'];
    var line := URL_MATCH + [' '] + value;
    assert URL_MATCH + " " + value == line;
    assert ' ' !in value && '\n' !in value;
    SplitLast(URL_MATCH, value, ' ');
    StripQuoted(v);
    UrlLineOf(value);
    UrlMatchHasNoBreak();
    assert '\n' !in line;
    DhcpOneLine(line, v, fp);
  }

  // ---------------------------------------------------------------------
  // DNS

  /** A `resolv.conf` line whose first space-separated key is exactly "search". */
  predicate IsSearchLine(line: string)
  {
    match SplitOnce(line, ' ')
    case None => false
    case Some((key, _)) => key == "search"
  }

  /** The trimmed text after the first space of a search line. */
  function SearchValue(line: string): string
  {
    match SplitOnce(line, ' ')
    case None => []
    case Some((_, value)) => Trim(value)
  }

  /** The search domain: the trimmed rest of the first search line. */
  function SearchDomainOf(resolv: Option<string>): Result<string, FetchError>
  {
    match resolv
    case None => Err(ResolvConfUnreadable)
    case Some(text) =>
      var lines := Lines(text);
      match FirstIndex(lines, IsSearchLine)
      case None => Err(NoSearchDomain)
      case Some(k) => Ok(SearchValue(lines[k]))
  }

  /** `get_search_domain`: the loop returning at the first search line. */
  method GetSearchDomain(resolv: Option<string>) returns (r: Result<string, FetchError>)
    ensures r == SearchDomainOf(resolv)
  {
    if resolv.None? {
      return Err(ResolvConfUnreadable);
    }
    var lines := Lines(resolv.value);
    var i := 0;
    while i < |lines|
      invariant 0 <= i <= |lines|
      invariant FirstIndex(lines[..i], IsSearchLine).None?
    {
      FirstIndexStep(lines, IsSearchLine, i);
      match SplitOnce(lines[i], ' ') {
        case Some((key, value)) =>
          if key == "search" {
            return Ok(Trim(value));
          }
        case None =>
      }
      i := i + 1;
    }
    assert lines[..i] == lines;
    r := Err(NoSearchDomain);
  }

  /**
   * The search domain comes from a search line with none before it, and
   * there is none exactly when no line is a search line.
   */
  lemma SearchDomainSpec(text: string)
    ensures var lines := Lines(text);
            var r := SearchDomainOf(Some(text));
            && (r == Err(NoSearchDomain) <==> forall i :: 0 <= i < |lines| ==> !IsSearchLine(lines[i]))
            && (r.Ok? ==> exists k :: 0 <= k < |lines| && IsSearchLine(lines[k]) && r.value == SearchValue(lines[k])
                                  && forall i :: 0 <= i < k ==> !IsSearchLine(lines[i]))
  {
    var lines := Lines(text);
    FirstIndexSpec(lines, IsSearchLine);
    if FirstIndex(lines, IsSearchLine).Some? {
      var k := FirstIndex(lines, IsSearchLine).value;
      assert IsSearchLine(lines[k]);
    }
  }

  /** `search <domains>` is a search line whose value is the trimmed rest. */
  lemma SearchLineExample(value: string)
    ensures IsSearchLine("search " + value)
    ensures SearchValue("search " + value) == Trim(value)
  {
    assert "search " + value == "search" + [' '] + value;
    assert ' ' !in "search";
    SplitOnceAt("search", value, ' ');
  }

  /**
   * `query_txt_record`: the output of `dig txt +short` with every double
   * quote removed and trimmed; empty output is an error.
   */
  function TxtRecord(query: string, dig: Option<CommandOutput>): (r: Result<string, FetchError>)
    ensures r.Ok? ==> r.value != [] && '"' !in r.value
    ensures r.Ok? ==> !IsWhitespace(r.value[0]) && !IsWhitespace(r.value[|r.value| - 1])
  {
    match dig
    case None => Err(DigNotRun(query))
    case Some(output) =>
      if !output.success then Err(DigFailed(query, output.stderr))
      else
        var unquoted := RemoveChar(output.stdout, '"');
        TrimExcludes(unquoted, '"');
        var url := Trim(unquoted);
        if url == [] then Err(EmptyTxt) else Ok(url)
  }

  /** Removing quotes from quote-free text followed by a quote and a line break. */
  lemma {:induction false} RemoveClosingQuote(v: string)
    requires '"' !in v
    ensures RemoveChar(v + ['"', '\n'], '"') == v + ['\n']
    decreases |v|
  {
    var t := v + ['"', '\n'];
    if v == [] {
      assert t == ['"', '\n'] && t[1..] == ['\n'];
      assert RemoveChar(['\n'], '"') == ['\n'] by {
        assert ['\n'][1..] == [];
      }
    } else {
      assert t[0] == v[0] && t[1..] == v[1..] + ['"', '\n'];
      RemoveClosingQuote(v[1..]);
      assert [v[0]] + (v[1..] + ['\n']) == v + ['\n'];
    }
  }

  lemma RemoveQuotes(v: string)
    requires '"' !in v
    ensures RemoveChar(['"'] + v + ['"', '\n'], '"') == v + ['\n']
  {
    var s := ['"'] + v + ['"', '\n'];
    assert s[0] == '"' && s[1..] == v + ['"', '\n'];
    RemoveClosingQuote(v);
  }

  /** A quoted record as `dig` prints it, on a line of its own, gives back the text. */
  lemma TxtRecordQuoted(query: string, v: string, stderr: string)
    requires v != [] && '"' !in v && !IsWhitespace(v[0]) && !IsWhitespace(v[|v| - 1])
    ensures TxtRecord(query, Some(CommandOutput(true, ['"'] + v + ['"', '\n'], stderr))) == Ok(v)
  {
    RemoveQuotes(v);
    assert IsWhitespace('\n');
    TrimTrailing(v, '\n');
  }

  /**
   * `fetch_dns`: the URL from the TXT record of the answer subdomain of the
   * search domain, and, unless one is supplied, the fingerprint from the
   * TXT record of the fingerprint subdomain; a failing fingerprint query
   * only leaves it absent.
   */
  function FetchDns(fingerprint: Option<string>, resolv: Option<string>, dig: string -> Option<CommandOutput>)
    : (r: Result<(string, Option<string>), FetchError>)
    ensures r.Ok? && fingerprint.Some? ==> r.value.1 == fingerprint
    ensures r.Ok? ==> SearchDomainOf(resolv).Ok?
    ensures r.Ok? ==> var query := ANSWER_URL_SUBDOMAIN + "." + SearchDomainOf(resolv).value;
                      TxtRecord(query, dig(query)) == Ok(r.value.0)
    ensures SearchDomainOf(resolv).Err? ==> r == Err(SearchDomainOf(resolv).error)
    ensures SearchDomainOf(resolv).Ok? ==>
              var query := ANSWER_URL_SUBDOMAIN + "." + SearchDomainOf(resolv).value;
              && (TxtRecord(query, dig(query)).Err? ==> r == Err(TxtRecord(query, dig(query)).error))
              && (TxtRecord(query, dig(query)).Ok? ==> r.Ok?)
    ensures r.Ok? && fingerprint.None? ==>
              var query := ANSWER_CERT_FP_SUBDOMAIN + "." + SearchDomainOf(resolv).value;
              && (TxtRecord(query, dig(query)).Ok? ==> r.value.1 == Some(TxtRecord(query, dig(query)).value))
              && (TxtRecord(query, dig(query)).Err? ==> r.value.1.None?)
  {
    match SearchDomainOf(resolv)
    case Err(e) => Err(e)
    case Ok(domain) =>
      var urlQuery := ANSWER_URL_SUBDOMAIN + "." + domain;
      match TxtRecord(urlQuery, dig(urlQuery))
      case Err(e) => Err(e)
      case Ok(url) =>
        if fingerprint.Some? then Ok((url, fingerprint))
        else
          var fpQuery := ANSWER_CERT_FP_SUBDOMAIN + "." + domain;
          match TxtRecord(fpQuery, dig(fpQuery))
          case Ok(fp) => Ok((url, Some(fp)))
          case Err(_) => Ok((url, None))
  }

  // ---------------------------------------------------------------------
  // Precedence

  /**
   * `get_answer` up to the request: the ISO's URL wins outright; otherwise
   * the DHCP options, and DNS when those fail (a panic is not caught). The
   * ISO's fingerprint is passed on and never replaced.
   */
  method AnswerSource(settings: HttpOptions, leases: Option<string>, resolv: Option<string>,
                      dig: string -> Option<CommandOutput>)
    returns (r: Result<(string, Option<string>), FetchError>)
    ensures settings.url.Some? ==> r == Ok((settings.url.value, settings.certFingerprint))
    ensures settings.url.None? && DhcpOf(leases, settings.certFingerprint).Ok? ==>
              r == DhcpOf(leases, settings.certFingerprint)
    ensures settings.url.None? && DhcpOf(leases, settings.certFingerprint) == Err(Panic(STRIP_PANIC)) ==>
              r == Err(Panic(STRIP_PANIC))
    ensures settings.url.None? && DhcpOf(leases, settings.certFingerprint).Err?
              && !DhcpOf(leases, settings.certFingerprint).error.Panic? ==>
              r == FetchDns(settings.certFingerprint, resolv, dig)
    ensures r.Ok? && settings.certFingerprint.Some? ==> r.value.1 == settings.certFingerprint
  {
    var fingerprint := settings.certFingerprint;
    var answerUrl: string;
    if settings.url.Some? {
      answerUrl := settings.url.value;
    } else {
      var dhcp := FetchDhcp(leases, fingerprint);
      if leases.Some? {
        DhcpScanSpec(Lines(leases.value), fingerprint, UrlLine, FpLine);
      }
      if dhcp.Ok? {
        answerUrl, fingerprint := dhcp.value.0, dhcp.value.1;
      } else if dhcp.error.Panic? {
        return Err(dhcp.error);
      } else {
        var dns := FetchDns(fingerprint, resolv, dig);
        if dns.Err? {
          return Err(dns.error);
        }
        answerUrl, fingerprint := dns.value.0, dns.value.1;
      }
    }
    r := Ok((answerUrl, fingerprint));
  }
}
