/** `version_for_homeserver` and `version_for_domain` (main.py, lines 59-74): ask a
    homeserver for its federation version and reduce the answer to `name/version`. */
module Probe {
  import opened Wrappers
  import opened Text
  import opened Net
  import opened Resolution

  /** The federation version endpoint of a homeserver authority. */
  function VersionUrl(homeserver: string): string
  {
    "https://" + homeserver + "/_matrix/federation/v1/version"
  }

  /** `'{0}/{1}'.format(name, version.split()[0])`: the version is cut at its first
      whitespace; a version without any word makes `[0]` raise, which is `None`. */
  function Normalize(name: string, version: string): (r: Option<string>)
    ensures r.None? <==> AllSpace(version)
    ensures r.Some? ==>
      && |name| + 1 < |r.value|
      && r.value[..|name| + 1] == name + "/"
      && IsFirstWord(version, FirstWordStart(version), r.value[|name| + 1..])
  {
    var words := Split(version);
    SplitEmpty(version);
    if words == [] then None
    else
      SplitFirstIsFirstWord(version);
      SplitWords(version);
      var r := name + "/" + words[0];
      assert r[|name| + 1..] == words[0];
      Some(r)
  }

  /** Conversely, any first word of the version is what follows `name/`. */
  lemma NormalizeExact(name: string, version: string, k: nat, w: string)
    requires IsFirstWord(version, k, w)
    ensures Normalize(name, version) == Some(name + "/" + w)
  {
    FirstWordIsSplitFirst(version, k, w);
  }

  /** `1.6.1` is the first word of the version string in the script's own comment. */
  lemma SynapseFirstWord(version: string, w: string)
    requires version == "1.6.1 (abcd,branch)" && w == "1.6.1"
    ensures IsFirstWord(version, 0, w)
  {
    assert IsSpace(version[5]);
    forall i | 0 <= i < |w| ensures version[i] == w[i] && !IsSpace(w[i]) {
      assert w[i] == '1' || w[i] == '.' || w[i] == '6';
    }
  }

  /** The example in the script's own comment: Synapse reporting `1.6.1 (abcd,branch)`. */
  lemma NormalizeSynapse(name: string, version: string)
    requires name == "Synapse" && version == "1.6.1 (abcd,branch)"
    ensures Normalize(name, version) == Some("Synapse/1.6.1")
  {
    var w := "1.6.1";
    SynapseFirstWord(version, w);
    NormalizeExact(name, version, 0, w);
    SynapseJoin(name, w);
  }

  lemma SynapseJoin(name: string, w: string)
    requires name == "Synapse" && w == "1.6.1"
    ensures name + "/" + w == "Synapse/1.6.1"
  {
  }

  /** `res['server']` with its `name` and `version`, normalised. A body that is not an
      object, a missing key or a value that is not a string is the caught exception. */
  function ServerVersion(doc: Json): (r: Option<string>)
    ensures r.Some? ==>
      && doc.Obj? && "server" in doc.fields
      && var server := doc.fields["server"];
      && server.Obj?
      && "name" in server.fields && server.fields["name"].Str?
      && "version" in server.fields && server.fields["version"].Str?
      && !AllSpace(server.fields["version"].text)
  {
    match Member(doc, "server")
    case None => None
    case Some(server) =>
      match (StringMember(server, "name"), StringMember(server, "version"))
      case (Some(name), Some(version)) => Normalize(name, version)
      case _ => None
  }

  /** Any answer whose `server` object has string `name` and `version` yields exactly
      the normalised pair, whatever other keys the body and the object carry. */
  lemma ServerVersionOf(doc: Json)
    requires doc.Obj? && "server" in doc.fields && doc.fields["server"].Obj?
    requires var server := doc.fields["server"].fields;
      && "name" in server && server["name"].Str?
      && "version" in server && server["version"].Str?
    ensures var server := doc.fields["server"].fields;
      ServerVersion(doc) == Normalize(server["name"].text, server["version"].text)
  {
  }

  /** The version request: the URL built from the authority, and the `Host` header of
      the SRV tier. */
  function VersionRequest(r: Resolution): (string, Option<Header>)
  {
    (VersionUrl(r.homeserver), r.header)
  }

  /** `version_for_homeserver`: `None` when the request fails or the answer is not usable. */
  function VersionForHomeserver(net: Network, r: Resolution): (v: Option<string>)
    ensures v.Some? ==>
      && net.fetch(VersionRequest(r).0, VersionRequest(r).1).Some?
      && ServerVersion(net.fetch(VersionRequest(r).0, VersionRequest(r).1).value) == v
    ensures net.fetch(VersionRequest(r).0, VersionRequest(r).1).Some? ==>
      v == ServerVersion(net.fetch(VersionRequest(r).0, VersionRequest(r).1).value)
  {
    match net.fetch(VersionRequest(r).0, VersionRequest(r).1)
    case Some(doc) => ServerVersion(doc)
    case None => None
  }

  /** `version_for_domain`: resolve, then probe. */
  function VersionForDomain(net: Network, domain: string): (v: Option<string>)
    ensures var request := VersionRequest(HomeserverForDomain(net, domain));
      v.Some? <==> net.fetch(request.0, request.1).Some?
                   && ServerVersion(net.fetch(request.0, request.1).value).Some?
    ensures var request := VersionRequest(HomeserverForDomain(net, domain));
      v.Some? ==> v == ServerVersion(net.fetch(request.0, request.1).value)
  {
    VersionForHomeserver(net, HomeserverForDomain(net, domain))
  }

  /** The probe goes to the resolved authority and carries `Host: <domain>` exactly when
      the SRV tier chose it. */
  lemma DomainRequest(net: Network, domain: string)
    ensures var r := HomeserverForDomain(net, domain);
      && VersionRequest(r).0 == "https://" + r.homeserver + "/_matrix/federation/v1/version"
      && (VersionRequest(r).1 == Some(Header("Host", domain)) <==> r.tier == Srv)
      && (VersionRequest(r).1.Some? ==> VersionRequest(r).1 == Some(Header("Host", domain)))
  {
  }
}
