/** `homeserver_for_domain` (main.py, lines 34-57): where to send federation requests
    for a domain. The script follows a reduced form of "Resolving server names" in
    the Matrix Server-Server API r0.1.3: the `.well-known` delegation, then the first
    `_matrix._tcp` SRV record, then the default port 8448. */
module Resolution {
  import opened Wrappers
  import opened Text
  import opened Net

  /** Which tier produced the homeserver. */
  datatype Tier = WellKnown | Srv | Fallback {
    /** The string the script returns for the tier. */
    function Label(): string
    {
      match this
      case WellKnown => "well-known"
      case Srv => "SRV"
      case Fallback => "fallback"
    }
  }

  /** The triple `(homeserver, headers, method)`. */
  datatype Resolution = Resolution(homeserver: string, header: Option<Header>, tier: Tier)

  /** Appended to a name that carries no port. */
  const DefaultPortSuffix: string := ":8448"

  /** The tiers, once the well-known value (`res['m.server']`) and the SRV answer are
      known; `None` stands for the exception that sends the script to the next tier. */
  function Resolve(domain: string, wellKnown: Option<string>, srv: Option<seq<SrvRecord>>): (r: Resolution)
    ensures r.header.Some? <==> r.tier == Srv
    ensures r.header.Some? ==> r.header.value == Header("Host", domain)
    ensures ':' in r.homeserver
    ensures r.tier == WellKnown <==> wellKnown.Some?
    ensures r.tier == Srv <==> wellKnown.None? && srv.Some? && srv.value != []
    ensures r.tier.Label() == (if r.tier == WellKnown then "well-known"
      else if r.header.Some? then "SRV" else "fallback")
  {
    match wellKnown
    case Some(server) =>
      var homeserver := if ':' !in server then server + DefaultPortSuffix else server;
      Resolution(homeserver, None, WellKnown)
    case None =>
      if srv.Some? && srv.value != [] then
        var record := srv.value[0];
        Resolution(record.host + ":" + Decimal(record.port), Some(Header("Host", domain)), Srv)
      else
        Resolution(domain + DefaultPortSuffix, None, Fallback)
  }

  /** A delegated name without a port gets `:8448`; one with a colon is used as it is. */
  lemma WellKnownTier(domain: string, server: string, srv: Option<seq<SrvRecord>>)
    ensures Resolve(domain, Some(server), srv).tier == WellKnown
    ensures Resolve(domain, Some(server), srv).header == None
    ensures ':' !in server ==> Resolve(domain, Some(server), srv).homeserver == server + ":8448"
    ensures ':' in server ==> Resolve(domain, Some(server), srv).homeserver == server
  {
  }

  /** Without a well-known value, the first SRV record (and only it) is used, and the
      request must carry `Host: <domain>`. */
  lemma SrvTier(domain: string, records: seq<SrvRecord>, later: seq<SrvRecord>)
    requires records != []
    ensures Resolve(domain, None, Some(records)).homeserver
         == records[0].host + ":" + Decimal(records[0].port)
    ensures Resolve(domain, None, Some(records)).header == Some(Header("Host", domain))
    ensures Resolve(domain, None, Some(records)).tier == Srv
    ensures Resolve(domain, None, Some(records + later)) == Resolve(domain, None, Some(records))
  {
    assert (records + later)[0] == records[0];
  }

  /** With neither delegation, the domain itself on port 8448; an empty SRV answer
      counts as no answer. */
  lemma FallbackTier(domain: string, srv: Option<seq<SrvRecord>>)
    requires srv.None? || srv == Some([])
    ensures Resolve(domain, None, srv) == Resolution(domain + ":8448", None, Fallback)
  {
  }

  // ---------------------------------------------------------------------------
  // Reading an authority back

  /** Index of the last `:` in `s`. */
  function LastColon(s: string): (r: Option<nat>)
    ensures r.Some? ==> r.value < |s| && s[r.value] == ':' && ':' !in s[r.value + 1..]
    ensures r.None? ==> ':' !in s
  {
    if s == [] then None
    else if s[|s| - 1] == ':' then Some(|s| - 1)
    else
      var r := LastColon(s[..|s| - 1]);
      assert s == s[..|s| - 1] + [s[|s| - 1]];
      if r.Some? then
        assert s[r.value + 1..] == s[..|s| - 1][r.value + 1..] + [s[|s| - 1]];
        r
      else r
  }

  /** `host:port` split at the last colon, as a client splits an authority. */
  function SplitAuthority(a: string): Option<(string, string)>
  {
    match LastColon(a)
    case Some(i) => Some((a[..i], a[i + 1..]))
    case None => None
  }

  lemma SplitJoined(host: string, port: string)
    requires ':' !in port
    ensures SplitAuthority(host + ":" + port) == Some((host, port))
  {
    var a := host + ":" + port;
    assert a[|host|] == ':';
    var i := LastColon(a).value;
    assert |host| <= i by {
      forall j | i < j < |a| ensures a[j] != ':' {
        assert a[j] == a[i + 1..][j - i - 1];
      }
    }
    assert i <= |host| by {
      forall j | |host| < j < |a| ensures a[j] != ':' {
        assert a[j] == port[j - |host| - 1];
      }
    }
    assert a[..i] == host && a[i + 1..] == port;
  }

  /** Every tier yields an authority with a port after its last colon: 8448, or the
      SRV record's port in decimal. */
  lemma AuthorityPort(domain: string, wellKnown: Option<string>, srv: Option<seq<SrvRecord>>)
    ensures SplitAuthority(Resolve(domain, wellKnown, srv).homeserver).Some?
    ensures wellKnown.Some? && ':' !in wellKnown.value ==>
      SplitAuthority(Resolve(domain, wellKnown, srv).homeserver) == Some((wellKnown.value, "8448"))
    ensures Resolve(domain, wellKnown, srv).tier == Srv && ':' !in srv.value[0].host ==>
      SplitAuthority(Resolve(domain, wellKnown, srv).homeserver) == Some((srv.value[0].host, Decimal(srv.value[0].port)))
    ensures Resolve(domain, wellKnown, srv).tier == Fallback && ':' !in domain ==>
      SplitAuthority(Resolve(domain, wellKnown, srv).homeserver) == Some((domain, "8448"))
  {
    var r := Resolve(domain, wellKnown, srv);
    match r.tier
    case WellKnown =>
      if ':' !in wellKnown.value {
        assert r.homeserver == wellKnown.value + ":" + "8448";
        SplitJoined(wellKnown.value, "8448");
      }
    case Srv =>
      var record := srv.value[0];
      assert ':' !in Decimal(record.port) by {
        assert forall j :: 0 <= j < |Decimal(record.port)| ==> IsDigit(Decimal(record.port)[j]);
      }
      SplitJoined(record.host, Decimal(record.port));
    case Fallback =>
      assert r.homeserver == domain + ":" + "8448";
      SplitJoined(domain, "8448");
  }

  /** The SRV port written into the authority reads back as the same number. */
  lemma SrvPortRoundTrip(domain: string, records: seq<SrvRecord>)
    requires records != [] && ':' !in records[0].host
    ensures var parts := SplitAuthority(Resolve(domain, None, Some(records)).homeserver);
      && parts == Some((records[0].host, Decimal(records[0].port)))
      && ParseDecimal(parts.value.1) == records[0].port
  {
    AuthorityPort(domain, None, Some(records));
    DecimalRoundTrip(records[0].port);
  }

  // ---------------------------------------------------------------------------
  // The two lookups

  function WellKnownUrl(domain: string): string
  {
    "https://" + domain + "/.well-known/matrix/server"
  }

  function SrvName(domain: string): string
  {
    "_matrix._tcp." + domain
  }

  /** `res['m.server']` of the well-known document, when the fetch succeeds and the
      value is a string. */
  function WellKnownServer(net: Network, domain: string): Option<string>
  {
    match net.fetch(WellKnownUrl(domain), None)
    case Some(doc) => StringMember(doc, "m.server")
    case None => None
  }

  /** `homeserver_for_domain(session, resolver, domain)`. */
  function HomeserverForDomain(net: Network, domain: string): (r: Resolution)
    ensures r.tier == WellKnown <==>
      net.fetch(WellKnownUrl(domain), None).Some? &&
      StringMember(net.fetch(WellKnownUrl(domain), None).value, "m.server").Some?
    ensures r.tier == Srv ==>
      var answer := net.querySrv(SrvName(domain));
      answer.Some? && answer.value != [] &&
      r.homeserver == answer.value[0].host + ":" + Decimal(answer.value[0].port)
    ensures var answer := net.querySrv(SrvName(domain));
      WellKnownServer(net, domain).None? && answer.Some? && answer.value != [] ==> r.tier == Srv
    ensures r.tier == Fallback ==> r.homeserver == domain + ":8448"
    ensures r.header.Some? <==> r.tier == Srv
    ensures r.header.Some? ==> r.header.value == Header("Host", domain)
    ensures r.tier.Label() == "SRV" <==> r.header.Some?
  {
    Resolve(domain, WellKnownServer(net, domain), net.querySrv(SrvName(domain)))
  }
}
