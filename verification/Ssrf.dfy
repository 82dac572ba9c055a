/** The egress check before every attempt (packages/gitlab-client/src/ssrf.ts). */
module Ssrf {
  import opened Base
  import opened IpText
  import opened IpGrammar
  import opened IpClass

  datatype Url = Url(protocol: string, username: string, password: string, origin: string, hostname: string,
                     port: Option<nat>)

  datatype Answers = ResolverFailed | Resolved(addresses: seq<string>)

  datatype Reason =
    | UnsupportedScheme
    | UserinfoNotAllowed
    | OriginNotAllowlisted
    | DnsFailure
    | DnsNoAnswer
    | DeniedAddressClass(category: Category)
    | PrivateAddressNotPermitted

  datatype Decision =
    | Blocked(reason: Reason)
    | Pinned(address: string, family: nat, port: nat, validated: seq<string>)

  const ALWAYS_DENIED: set<Category> := {Loopback, LinkLocal, Metadata, Unspecified, Multicast, Reserved, Unknown}

  /** What may be connected to: the internet, and private networks where the entry is marked internal. */
  predicate Admissible(address: string, internal: bool) {
    Classification(address).category == Public || (internal && Classification(address).category == Private)
  }

  predicate IsIpLiteral(host: string) {
    Classification(host).family != 0
  }

  predicate Reachable(url: Url, allowlist: map<string, bool>) {
    && (url.protocol == "https:" || url.protocol == "http:")
    && url.username == "" && url.password == ""
    && url.origin in allowlist
  }

  /** The addresses a connection could go to. */
  function Candidates(url: Url, answers: Answers): Answers {
    var hostname := Lower(url.hostname);
    if IsIpLiteral(hostname) then Resolved([Unbracketed(hostname)]) else answers
  }

  /** Why the first address that is not admissible is refused. */
  function Refusal(address: string): Reason {
    var category := Classification(address).category;
    if category == Private then PrivateAddressNotPermitted else DeniedAddressClass(category)
  }

  /** A literal host means the same with and without its brackets. */
  lemma LiteralKeepsItsClass(hostname: string)
    requires IsIpLiteral(hostname)
    ensures Classification(Unbracketed(hostname)) == Classification(hostname)
  {
    hide ParsedQuad, ParsedAddress, DottedQuad, ClassifyIpv4, ClassifyIpv6, IsMapped, Lower;
    if Unbracketed(hostname) != hostname {
      NotSpace('[');
      NotSpace(']');
      Trims("", hostname, "");
      assert "" + hostname + "" == hostname;
      var bare := Unbracketed(hostname);
      if ParsedQuad(bare).Some? {
        QuadsAreCanonical(bare, ParsedQuad(bare).value);
        QuadIsPlain(ParsedQuad(bare).value);
      } else {
        AddressTexts(bare);
      }
      PlainIsBare(bare);
    }
  }

  /** What the guard says of a URL whose host name resolves like this. */
  ghost predicate Decides(url: Url, allowlist: map<string, bool>, answers: Answers, r: Decision) {
    var found := Candidates(url, answers);
    && (r.Pinned? <==>
          && Reachable(url, allowlist) && found.Resolved? && found.addresses != []
          && forall address :: address in found.addresses ==> Admissible(address, allowlist[url.origin]))
    && (r.Pinned? ==>
          && r.validated == found.addresses
          && Classification(r.address) == Classification(r.validated[0])
          && Admissible(r.address, allowlist[url.origin])
          && r.family == Classification(r.address).family && r.family in {4, 6}
          && r.port == (if url.port.Some? then url.port.value else if url.protocol == "https:" then 443 else 80))
    && (r.Blocked? && Reachable(url, allowlist) ==>
          match found
          case ResolverFailed => r.reason == DnsFailure
          case Resolved(addresses) =>
            if addresses == [] then r.reason == DnsNoAnswer
            else exists k :: 0 <= k < |addresses| && r.reason == Refusal(addresses[k])
                   && !Admissible(addresses[k], allowlist[url.origin])
                   && forall j :: 0 <= j < k ==> Admissible(addresses[j], allowlist[url.origin]))
    && (r.Blocked? && !Reachable(url, allowlist) ==>
          r.reason == if url.protocol != "https:" && url.protocol != "http:" then UnsupportedScheme
                      else if url.username != "" || url.password != "" then UserinfoNotAllowed
                      else OriginNotAllowlisted)
  }

  /**
   * A decision is given exactly when the URL is reachable and every candidate,
   * not only the first, is admissible; the address it pins is read back as the
   * category and family of the first candidate.
   */
  method Check(url: Url, allowlist: map<string, bool>, answers: Answers) returns (r: Decision)
    ensures Decides(url, allowlist, answers, r)
  {
    hide Classification, Lower, Unbracketed;
    if url.protocol != "https:" && url.protocol != "http:" {
      return Blocked(UnsupportedScheme);
    }
    if url.username != "" || url.password != "" {
      return Blocked(UserinfoNotAllowed);
    }
    if url.origin !in allowlist {
      return Blocked(OriginNotAllowlisted);
    }
    var internal := allowlist[url.origin];
    var hostname := Lower(url.hostname);
    var bare := Unbracketed(hostname);
    var literal := ClassifyIpAddress(hostname);
    var candidates: seq<string>;
    if literal.family != 0 {
      candidates := [bare];
    } else if answers.ResolverFailed? {
      return Blocked(DnsFailure);
    } else {
      candidates := answers.addresses;
    }
    if |candidates| == 0 {
      return Blocked(DnsNoAnswer);
    }
    for k := 0 to |candidates|
      invariant forall j :: 0 <= j < k ==> Admissible(candidates[j], internal)
    {
      var classification := ClassifyIpAddress(candidates[k]);
      assert candidates[k] in candidates;
      if classification.category in ALWAYS_DENIED {
        return Blocked(DeniedAddressClass(classification.category));
      }
      if classification.category == Private && !internal {
        return Blocked(PrivateAddressNotPermitted);
      }
    }
    var pinned := ClassifyIpAddress(candidates[0]);
    UnknownIsUnread(candidates[0]);
    NormalFormIsStable(candidates[0]);
    var defaultPort := if url.protocol == "https:" then 443 else 80;
    var port := if url.port.None? then defaultPort else url.port.value;
    r := Pinned(pinned.normalized, if pinned.family == 6 then 6 else 4, port, candidates);
  }

  /** A literal host is judged as what the URL said, brackets or none. */
  lemma LiteralHostIsItsOnlyCandidate(url: Url, answers: Answers)
    requires IsIpLiteral(Lower(url.hostname))
    ensures Candidates(url, answers).Resolved? && |Candidates(url, answers).addresses| == 1
    ensures Classification(Candidates(url, answers).addresses[0]) == Classification(Lower(url.hostname))
  {
    LiteralKeepsItsClass(Lower(url.hostname));
  }
}
