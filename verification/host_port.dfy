/** Printing and parsing of `host:port` and of upstream addresses. */
module HostPort {
  import opened Basics
  import opened Text
  import opened Stamps

  /** The standard library's address parsers, and the stamp and URL parsers' verdicts, taken as given. */
  datatype Addresses = Addresses(
    isIpv6: string -> bool,
    showSocket: SocketAddr -> string,
    parseSocket: string -> Option<SocketAddr>,
    parseIp: string -> Option<Ip>,
    sdnsOk: string -> bool,
    httpsOk: string -> bool)
  {
    /** An IPv6 literal contains a colon and no bracket; printed socket addresses parse back. */
    ghost predicate Lawful() {
      && (forall h :: isIpv6(h) ==> ':' in h && ']' !in h && '[' !in h)
      && (forall a :: parseSocket(showSocket(a)) == Some(a))
    }
  }

  /** An IPv6 host is bracketed. */
  function FormatHostPort(a: Addresses, host: string, port: u16): string {
    if a.isIpv6(host) then "[" + host + "]" + ":" + Decimal(port) else host + ":" + Decimal(port)
  }

  datatype Problem = Unterminated | BadPort | TrailingText | NotLiteralIp | BadStamp | Unsupported

  function SplitHostPort(rest: string): Result<(string, Option<u16>), Problem> {
    if rest != "" && rest[0] == '[' then
      match SplitOnce(rest[1..], "]")
      case None => Err(Unterminated)
      case Some((host, after)) =>
        if after == "" then Ok((host, None))
        else if after[0] != ':' then Err(TrailingText)
        else (match ParseU16(after[1..]) case None => Err(BadPort) case Some(p) => Ok((host, Some(p))))
    else
      match RSplitOnce(rest, ':')
      case None => Ok((rest, None))
      case Some((host, port)) =>
        if ':' in host then Ok((rest, None))
        else (match ParseU16(port) case None => Err(BadPort) case Some(p) => Ok((host, Some(p))))
  }

  /** The hosts whose printed form is unambiguous. */
  predicate Plain(a: Addresses, host: string) {
    a.isIpv6(host) || (':' !in host && (host == "" || host[0] != '['))
  }

  lemma BracketedRoundTrip(host: string, port: u16)
    requires ']' !in host
    ensures SplitHostPort("[" + host + "]" + ":" + Decimal(port)) == Ok((host, Some(port)))
  {
    var after := ":" + Decimal(port);
    var s := "[" + host + "]" + ":" + Decimal(port);
    assert s[1..] == host + "]" + after;
    SplitOnceAtChar(host, ']', after);
    assert after[1..] == Decimal(port);
    ParsePrintU16(port);
  }

  lemma DigitsHaveNo(p: u16, c: char)
    requires !IsDigit(c)
    ensures c !in Decimal(p)
  {
  }

  /** What the parser makes of a host printed without brackets. */
  lemma UnbracketedRoundTripIff(host: string, port: u16)
    ensures SplitHostPort(host + ":" + Decimal(port)) == Ok((host, Some(port)))
            <==> ':' !in host && (host == "" || host[0] != '[')
  {
    var s := host + ":" + Decimal(port);
    DigitsHaveNo(port, ':');
    DigitsHaveNo(port, ']');
    if host != "" && host[0] == '[' {
      SplitOnceChar(s[1..], ']');
      if SplitOnce(s[1..], "]").Some? {
        var (h, after) := SplitOnce(s[1..], "]").value;
        // the bracket that ends the host lies inside `host`, so what is read is shorter
        assert s[1 + |h|] == ']';
        assert forall i :: |host| <= i < |s| ==> s[i] == ':' || s[i] in Decimal(port);
        assert 1 + |h| < |host|;
      }
    } else {
      RSplitOnceAt(host, ':', Decimal(port));
      ParsePrintU16(port);
    }
  }

  /** Splitting undoes formatting, for every port, exactly on the hosts that are IPv6 literals or
      have neither a colon nor a leading bracket. */
  lemma HostPortRoundTripIff(a: Addresses, host: string, port: u16)
    requires a.Lawful()
    ensures SplitHostPort(FormatHostPort(a, host, port)) == Ok((host, Some(port))) <==> Plain(a, host)
  {
    if a.isIpv6(host) {
      BracketedRoundTrip(host, port);
    } else {
      UnbracketedRoundTripIff(host, port);
    }
  }

  // ----- upstream addresses -----

  datatype Upstream =
    | PlainUdp(addr: SocketAddr)
    | PlainTcp(host: string, port: u16)
    | Tls(host: string, port: u16)
    | Quic(host: string, port: u16)
    | Sdns(url: string)
    | Https(url: string)

  const PLAIN_PORT: u16 := 53
  const SECURE_PORT: u16 := 853

  function WithPort(rest: string, fallback: u16): Result<(string, u16), Problem> {
    match SplitHostPort(rest)
    case Err(e) => Err(e)
    case Ok((host, port)) => Ok((host, if port.Some? then port.value else fallback))
  }

  /** The scheme before the first "://", or "udp" for a bare address, decides how the rest is read. */
  function ParseAny(a: Addresses, addr: string): Result<Upstream, Problem> {
    var (scheme, rest) := match SplitOnce(addr, "://") case None => ("udp", addr) case Some(parts) => parts;
    if scheme == "udp" then
      if a.parseSocket(rest).Some? then Ok(PlainUdp(a.parseSocket(rest).value))
      else if a.parseIp(rest).Some? then Ok(PlainUdp(SocketAddr(a.parseIp(rest).value, PLAIN_PORT)))
      else Err(NotLiteralIp)
    else if scheme == "tcp" then
      (match WithPort(rest, PLAIN_PORT) case Err(e) => Err(e) case Ok((h, p)) => Ok(PlainTcp(h, p)))
    else if scheme == "tls" then
      (match WithPort(rest, SECURE_PORT) case Err(e) => Err(e) case Ok((h, p)) => Ok(Tls(h, p)))
    else if scheme == "quic" then
      (match WithPort(rest, SECURE_PORT) case Err(e) => Err(e) case Ok((h, p)) => Ok(Quic(h, p)))
    else if scheme == "sdns" then if a.sdnsOk(addr) then Ok(Sdns(addr)) else Err(BadStamp)
    else if (scheme == "https" || scheme == "h3") && a.httpsOk(addr) then Ok(Https(addr))
    else Err(Unsupported)
  }

  /** The address an upstream reports for itself. */
  function Address(a: Addresses, u: Upstream): string {
    match u
    case PlainUdp(addr) => "udp" + "://" + a.showSocket(addr)
    case PlainTcp(h, p) => "tcp" + "://" + FormatHostPort(a, h, p)
    case Tls(h, p) => "tls" + "://" + FormatHostPort(a, h, p)
    case Quic(h, p) => "quic" + "://" + FormatHostPort(a, h, p)
    case Sdns(url) => url
    case Https(url) => url
  }

  lemma SchemeSplits(scheme: string, rest: string)
    requires ':' !in scheme
    ensures SplitOnce(scheme + "://" + rest, "://") == Some((scheme, rest))
  {
    var s := scheme + "://" + rest;
    forall i | 0 <= i < |scheme|
      ensures !OccursAt(s, "://", i)
    {
      assert s[i] == scheme[i];
      assert i + 3 <= |s| ==> s[i..i + 3][0] == s[i];
    }
    SplitOnceAt(scheme, "://", rest);
  }

  /** Reading back the address of a tcp, tls or quic upstream gives that upstream exactly when its
      host is unambiguous; a udp upstream is always given back. */
  lemma AddressRoundTripIff(a: Addresses, u: Upstream)
    requires a.Lawful()
    requires u.PlainUdp? || u.PlainTcp? || u.Tls? || u.Quic?
    ensures ParseAny(a, Address(a, u)) == Ok(u) <==> u.PlainUdp? || Plain(a, u.host)
  {
    match u
    case PlainUdp(addr) => SchemeSplits("udp", a.showSocket(addr));
    case PlainTcp(h, p) => ReadBack(a, "tcp", h, p, PLAIN_PORT);
    case Tls(h, p) => ReadBack(a, "tls", h, p, SECURE_PORT);
    case Quic(h, p) => ReadBack(a, "quic", h, p, SECURE_PORT);
  }

  lemma ReadBack(a: Addresses, scheme: string, h: string, p: u16, fallback: u16)
    requires a.Lawful() && ':' !in scheme
    ensures var text := FormatHostPort(a, h, p);
            && SplitOnce(scheme + "://" + text, "://") == Some((scheme, text))
            && (WithPort(text, fallback) == Ok((h, p)) <==> Plain(a, h))
  {
    var text := FormatHostPort(a, h, p);
    SchemeSplits(scheme, text);
    HostPortRoundTripIff(a, h, p);
    if !Plain(a, h) {
      NoPortMeansLonger(a, h, p);
    }
  }

  /** An ambiguous host is not recovered even through the default port. */
  lemma NoPortMeansLonger(a: Addresses, h: string, p: u16)
    requires a.Lawful() && !Plain(a, h)
    ensures var r := SplitHostPort(FormatHostPort(a, h, p)); r.Ok? && r.value.1.None? ==> r.value.0 != h
  {
    var s := h + ":" + Decimal(p);
    if h != "" && h[0] == '[' {
      SplitOnceChar(s[1..], ']');
      DigitsHaveNo(p, ']');
      assert s[|s| - 1] in Decimal(p);
    } else {
      RSplitOnceAt(h, ':', Decimal(p));
      DigitsHaveNo(p, ':');
    }
  }

  // ----- default ports and other forms -----

  /** A host without a port, bracketed or not, gets the default. */
  lemma NoPort(host: string, fallback: u16)
    ensures ']' !in host ==> WithPort("[" + host + "]", fallback) == Ok((host, fallback))
    ensures ':' !in host && (host == "" || host[0] != '[') ==> WithPort(host, fallback) == Ok((host, fallback))
  {
    if ']' !in host {
      var s := "[" + host + "]";
      assert s[1..] == host + "]" + "";
      SplitOnceAtChar(host, ']', "");
    }
  }

  /** An IPv6 literal without brackets, which has two colons, is a host without a port. */
  lemma BareColons(a: string, b: string, c: string, fallback: u16)
    requires var s := a + ":" + b + ":" + c; s[0] != '[' && ':' !in c
    ensures var s := a + ":" + b + ":" + c; WithPort(s, fallback) == Ok((s, fallback))
  {
    var head := a + ":" + b;
    RSplitOnceAt(head, ':', c);
    assert head[|a|] == ':';
  }

  /** The ports an address without one gets: 53 for plain DNS, 853 for TLS and QUIC; an address
      without a scheme is plain DNS over UDP and must be a literal IP. */
  lemma DefaultPorts(a: Addresses, host: string)
    requires ':' !in host && (host == "" || host[0] != '[')
    ensures ParseAny(a, "tcp" + "://" + host) == Ok(PlainTcp(host, 53))
    ensures ParseAny(a, "tls" + "://" + host) == Ok(Tls(host, 853))
    ensures ParseAny(a, "quic" + "://" + host) == Ok(Quic(host, 853))
  {
    SchemeSplits("tcp", host);
    SchemeSplits("tls", host);
    SchemeSplits("quic", host);
    NoPort(host, 53);
    NoPort(host, 853);
  }

  lemma PlainAddress(a: Addresses, addr: string)
    requires forall i: nat :: !OccursAt(addr, "://", i)
    ensures ParseAny(a, addr) == ParseAny(a, "udp" + "://" + addr)
    ensures ParseAny(a, addr)
         == if a.parseSocket(addr).Some? then Ok(PlainUdp(a.parseSocket(addr).value))
            else if a.parseIp(addr).Some? then Ok(PlainUdp(SocketAddr(a.parseIp(addr).value, 53)))
            else Err(NotLiteralIp)
  {
    SplitOnceFirst(addr, "://");
    SchemeSplits("udp", addr);
  }

  /** A bracketed host may be followed by a colon and a port, by nothing, and by nothing else. */
  lemma BracketForms(host: string, after: string)
    requires ']' !in host
    ensures var r := SplitHostPort("[" + host + "]" + after);
            if after == "" then r == Ok((host, None))
            else if after[0] != ':' then r == Err(TrailingText)
            else match ParseU16(after[1..]) case None => r == Err(BadPort) case Some(p) => r == Ok((host, Some(p)))
    ensures SplitHostPort("[" + host) == Err(Unterminated)
  {
    var s := "[" + host + "]" + after;
    assert s[1..] == host + "]" + after;
    SplitOnceAtChar(host, ']', after);
    assert ("[" + host)[1..] == host;
    SplitOnceChar(host, ']');
  }

  /** Every other scheme than these seven is refused. */
  lemma OtherSchemes(a: Addresses, scheme: string, rest: string)
    requires ':' !in scheme
    ensures var r := ParseAny(a, scheme + "://" + rest);
            && (scheme !in {"udp", "tcp", "tls", "quic", "sdns", "https", "h3"} ==> r == Err(Unsupported))
            && (scheme == "https" || scheme == "h3" ==>
                  r == if a.httpsOk(scheme + "://" + rest) then Ok(Https(scheme + "://" + rest)) else Err(Unsupported))
            && (scheme == "sdns" ==> r == if a.sdnsOk(scheme + "://" + rest) then Ok(Sdns(scheme + "://" + rest)) else Err(BadStamp))
  {
    SchemeSplits(scheme, rest);
  }
}
