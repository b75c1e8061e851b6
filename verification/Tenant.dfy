/** Host parsing for the teacher subdomains.  `root` is the configured root domain. */
module Tenant {
  import opened Wrappers
  import opened Text

  const RESERVED_SUBDOMAINS := {"www", "api", "app", "admin", "cdn", "mail", "docs"}
  const LOCALHOST := "localhost"
  const DOT_LOCALHOST := ".localhost"

  /** What the deployment guarantees of ROOT_DOMAIN. */
  predicate ValidRoot(root: string) {
    root != "" && IsLower(root) && ':' !in root && '/' !in root && '?' !in root && '#' !in root
    && !EndsWith(root, DOT_LOCALHOST)
  }

  predicate SlugChar(c: char) {
    'a' <= c <= 'z' || '0' <= c <= '9' || c == '-'
  }

  /** A slug a teacher can have. */
  predicate TeacherSlug(slug: string) {
    slug != "" && (forall c <- slug :: SlugChar(c)) && slug !in RESERVED_SUBDOMAINS
  }

  /** `host.split(':')[0]`. */
  function HostnameOf(host: string): string {
    host[..IndexOf(host, ':')]
  }

  /** `host.split(':')[1]`, where a missing and an empty port are the same. */
  function PortOf(host: string): string {
    var i := IndexOf(host, ':');
    if i == |host| then "" else HostnameOf(host[i + 1..])
  }

  function ResolveTeacherSlug(root: string, host: Option<string>): Option<string> {
    if host.None? || host.value == "" then None
    else
      var hostname := Lower(HostnameOf(host.value));
      var subdomain :=
        if EndsWith(hostname, DOT_LOCALHOST) then Without(hostname, DOT_LOCALHOST)
        else if EndsWith(hostname, "." + root) then Without(hostname, "." + root)
        else "";
      if TeacherSlug(subdomain) then Some(subdomain) else None
  }

  function CookieDomainFor(root: string, host: Option<string>): Option<string> {
    if host.None? || host.value == "" then None
    else
      var hostname := Lower(HostnameOf(host.value));
      if hostname == root || EndsWith(hostname, "." + root) then Some("." + root)
      else if hostname == LOCALHOST || EndsWith(hostname, DOT_LOCALHOST) then Some(DOT_LOCALHOST)
      else None
  }

  /** The development test of `buildTenantUrl` and `rootHostFor`: case-sensitive. */
  predicate IsLocalDev(hostname: string) {
    hostname == LOCALHOST || EndsWith(hostname, DOT_LOCALHOST)
  }

  function BuildTenantUrl(root: string, currentHost: string, slug: string, pathAndQuery: string): string {
    var port := PortOf(currentHost);
    if IsLocalDev(HostnameOf(currentHost)) then
      "http://" + slug + DOT_LOCALHOST + (if port != "" then ":" + port else "") + pathAndQuery
    else "https://" + slug + "." + root + pathAndQuery
  }

  function RootHostFor(root: string, host: Option<string>): string {
    if host.None? || host.value == "" then root
    else if IsLocalDev(HostnameOf(host.value)) then
      var port := PortOf(host.value);
      if port != "" then LOCALHOST + ":" + port else LOCALHOST
    else root
  }

  /** The authority of an http(s) URL: what stands between `//` and the path. */
  function UrlHost(url: string): string {
    var start := if StartsWith(url, "https://") then 8 else 7;
    if |url| < start then "" else url[start..][..EndOfAuthority(url[start..])]
  }

  predicate EndsAuthority(c: char) { c == '/' || c == '?' || c == '#' }

  function EndOfAuthority(s: string): (i: nat)
    ensures i <= |s|
    ensures forall c <- s[..i] :: !EndsAuthority(c)
    ensures i < |s| ==> EndsAuthority(s[i])
  {
    if s == [] || EndsAuthority(s[0]) then 0 else 1 + EndOfAuthority(s[1..])
  }

  // ----- resolving -----

  lemma {:induction false} SlugIsLower(slug: string)
    requires TeacherSlug(slug)
    ensures IsLower(slug) && ':' !in slug && '.' !in slug && '/' !in slug && '?' !in slug && '#' !in slug
  {
  }

  /** Under a valid root, `slug.root` is not a host of `localhost` unless root is. */
  lemma {:induction false} NotBothDomains(root: string, slug: string)
    requires ValidRoot(root) && '.' !in slug
    ensures EndsWith(slug + "." + root, DOT_LOCALHOST) ==> root == LOCALHOST
  {
    var s := slug + "." + root;
    if EndsWith(s, DOT_LOCALHOST) {
      var i := |s| - |DOT_LOCALHOST|;
      assert s[i] == '.' && s[i + 1..] == LOCALHOST;
      assert forall j | 0 <= j < |slug| :: s[j] == slug[j] && slug[j] in slug;
      assert root == s[|slug| + 1..];
    }
  }

  /** A host resolves to a slug exactly when its lower-cased name is that slug under
      `localhost` or under the root domain. */
  lemma {:induction false} ResolvesIff(root: string, host: string, slug: string)
    requires ValidRoot(root)
    ensures ResolveTeacherSlug(root, Some(host)) == Some(slug) <==>
            TeacherSlug(slug)
            && (Lower(HostnameOf(host)) == slug + DOT_LOCALHOST || Lower(HostnameOf(host)) == slug + "." + root)
  {
    var hostname := Lower(HostnameOf(host));
    if EndsWith(hostname, DOT_LOCALHOST) {
      PrefixAndSuffix(hostname, DOT_LOCALHOST);
    }
    if EndsWith(hostname, "." + root) {
      PrefixAndSuffix(hostname, "." + root);
    }
    SuffixOfConcat(slug, DOT_LOCALHOST);
    SuffixOfConcat(slug, "." + root);
    assert slug + "." + root == slug + ("." + root);
    if TeacherSlug(slug) && hostname == slug + "." + root {
      SlugIsLower(slug);
      NotBothDomains(root, slug);
    }
  }

  /** A request without a host is the root's. */
  lemma {:induction false} NoHostIsTheRoot(root: string, host: Option<string>)
    requires host == None || host == Some("")
    ensures ResolveTeacherSlug(root, host) == None && CookieDomainFor(root, host) == None && RootHostFor(root, host) == root
  {
  }

  /** Infrastructure names and names with other characters are nobody's. */
  lemma {:induction false} ResolvedIsASlug(root: string, host: Option<string>, slug: string)
    requires ResolveTeacherSlug(root, host) == Some(slug)
    ensures slug != "" && slug !in RESERVED_SUBDOMAINS
    ensures forall c <- slug :: 'a' <= c <= 'z' || '0' <= c <= '9' || c == '-'
  {
  }

  // ----- building a tenant URL and resolving it again -----

  /** What can follow the authority of a URL. */
  predicate IsPathAndQuery(s: string) {
    s == "" || EndsAuthority(s[0])
  }

  lemma {:induction false} EndOfAuthorityIs(host: string, rest: string)
    requires forall c <- host :: !EndsAuthority(c)
    requires IsPathAndQuery(rest)
    ensures (host + rest)[..EndOfAuthority(host + rest)] == host
  {
    var s := host + rest;
    var n := EndOfAuthority(s);
    assert forall i | 0 <= i < n :: s[i] in s[..n];
    assert forall i | 0 <= i < |host| :: s[i] == host[i] && host[i] in host;
    assert n >= |host|;
    assert |host| < |s| ==> s[|host|] == rest[0];
    assert n == |host|;
  }

  lemma {:induction false} UrlHostIs(scheme: string, host: string, rest: string)
    requires scheme == "https://" || scheme == "http://"
    requires forall c <- host :: !EndsAuthority(c)
    requires IsPathAndQuery(rest)
    ensures UrlHost(scheme + host + rest) == host
  {
    var url := scheme + host + rest;
    EndOfAuthorityIs(host, rest);
    assert url[|scheme|..] == host + rest;
    if scheme == "http://" {
      assert url[4] == ':';
      assert "https://"[4] == 's';
      assert |url| >= 8 ==> url[..8][4] == url[4];
    } else {
      assert url[..8] == "https://";
    }
  }

  lemma {:induction false} HostnameOfNameAndPort(name: string, port: string)
    requires ':' !in name
    ensures HostnameOf(name) == name && HostnameOf(name + ":" + port) == name
  {
    IndexOfIs(name, ':', |name|);
    var s := name + ":" + port;
    assert s[..|name|] == name;
    IndexOfIs(s, ':', |name|);
  }

  /** The host part of the URL that `buildTenantUrl` builds. */
  function TenantHost(root: string, currentHost: string, slug: string): string {
    var port := PortOf(currentHost);
    if IsLocalDev(HostnameOf(currentHost)) then slug + DOT_LOCALHOST + (if port != "" then ":" + port else "")
    else slug + "." + root
  }

  lemma {:induction false} TenantHostname(root: string, currentHost: string, slug: string)
    requires ValidRoot(root) && TeacherSlug(slug)
    ensures HostnameOf(TenantHost(root, currentHost, slug)) ==
            slug + (if IsLocalDev(HostnameOf(currentHost)) then DOT_LOCALHOST else "." + root)
  {
    SlugIsLower(slug);
    HostnameOfNameAndPort(slug + DOT_LOCALHOST, PortOf(currentHost));
    HostnameOfNameAndPort(slug + "." + root, "");
    assert slug + DOT_LOCALHOST + (":" + PortOf(currentHost)) == slug + DOT_LOCALHOST + ":" + PortOf(currentHost);
    assert slug + DOT_LOCALHOST + "" == slug + DOT_LOCALHOST;
    assert slug + ("." + root) == slug + "." + root;
  }

  lemma {:induction false} TenantUrlIs(root: string, currentHost: string, slug: string, rest: string)
    ensures BuildTenantUrl(root, currentHost, slug, rest) ==
            (if IsLocalDev(HostnameOf(currentHost)) then "http://" else "https://")
            + TenantHost(root, currentHost, slug) + rest
  {
    if IsLocalDev(HostnameOf(currentHost)) {
      var port := if PortOf(currentHost) != "" then ":" + PortOf(currentHost) else "";
      assert "http://" + slug + DOT_LOCALHOST + port == "http://" + (slug + DOT_LOCALHOST + port);
    } else {
      assert "https://" + slug + "." + root == "https://" + (slug + "." + root);
    }
  }

  lemma {:induction false} TenantHostHasNoPath(root: string, currentHost: string, slug: string)
    requires ValidRoot(root) && TeacherSlug(slug)
    requires forall c <- currentHost :: !EndsAuthority(c)
    ensures forall c <- TenantHost(root, currentHost, slug) :: !EndsAuthority(c)
  {
    SlugIsLower(slug);
    var port := PortOf(currentHost);
    forall c <- port ensures c in currentHost {
      var i := IndexOf(currentHost, ':');
      assert c in currentHost[i + 1..];
    }
    forall c <- DOT_LOCALHOST ensures !EndsAuthority(c) {
    }
  }

  lemma {:induction false} TenantUrlHost(root: string, currentHost: string, slug: string, rest: string)
    requires ValidRoot(root) && TeacherSlug(slug) && IsPathAndQuery(rest)
    requires forall c <- currentHost :: !EndsAuthority(c)
    ensures UrlHost(BuildTenantUrl(root, currentHost, slug, rest)) == TenantHost(root, currentHost, slug)
  {
    TenantHostHasNoPath(root, currentHost, slug);
    TenantUrlIs(root, currentHost, slug, rest);
    UrlHostIs(if IsLocalDev(HostnameOf(currentHost)) then "http://" else "https://",
      TenantHost(root, currentHost, slug), rest);
  }

  lemma {:induction false} TenantNameIsLower(root: string, slug: string, dev: bool)
    requires ValidRoot(root) && TeacherSlug(slug)
    ensures var name := slug + (if dev then DOT_LOCALHOST else "." + root); Lower(name) == name
  {
    SlugIsLower(slug);
    var domain := if dev then DOT_LOCALHOST else "." + root;
    assert IsLower(domain);
    assert IsLower(slug + domain);
    LowerIsIdentity(slug + domain);
  }

  lemma {:induction false} NameResolves(root: string, host: string, slug: string, dev: bool)
    requires ValidRoot(root) && TeacherSlug(slug)
    requires HostnameOf(host) == slug + (if dev then DOT_LOCALHOST else "." + root)
    ensures ResolveTeacherSlug(root, Some(host)) == Some(slug)
  {
    TenantNameIsLower(root, slug, dev);
    assert slug + ("." + root) == slug + "." + root;
    ResolvesIff(root, host, slug);
  }

  lemma {:induction false} TenantHostResolves(root: string, currentHost: string, slug: string)
    requires ValidRoot(root) && TeacherSlug(slug)
    ensures ResolveTeacherSlug(root, Some(TenantHost(root, currentHost, slug))) == Some(slug)
  {
    TenantHostname(root, currentHost, slug);
    NameResolves(root, TenantHost(root, currentHost, slug), slug, IsLocalDev(HostnameOf(currentHost)));
  }

  /** The URL of a teacher's site leads back to the teacher. */
  lemma {:induction false} TenantUrlRoundTrip(root: string, currentHost: string, slug: string, rest: string)
    requires ValidRoot(root) && TeacherSlug(slug) && IsPathAndQuery(rest)
    requires forall c <- currentHost :: !EndsAuthority(c)
    ensures ResolveTeacherSlug(root, Some(UrlHost(BuildTenantUrl(root, currentHost, slug, rest)))) == Some(slug)
  {
    TenantUrlHost(root, currentHost, slug, rest);
    TenantHostResolves(root, currentHost, slug);
  }

  lemma {:induction false} PortOfNameAndPort(name: string, port: string)
    requires ':' !in name && ':' !in port
    ensures PortOf(name) == "" && PortOf(name + ":" + port) == port
  {
    IndexOfIs(name, ':', |name|);
    var s := name + ":" + port;
    assert s[..|name|] == name;
    IndexOfIs(s, ':', |name|);
    assert s[|name| + 1..] == port;
    IndexOfIs(port, ':', |port|);
    assert port[..|port|] == port;
  }

  lemma {:induction false} PortHasNoColon(host: string)
    ensures ':' !in PortOf(host)
  {
  }

  lemma {:induction false} TenantHostPort(root: string, currentHost: string, slug: string)
    requires ValidRoot(root) && TeacherSlug(slug)
    ensures PortOf(TenantHost(root, currentHost, slug)) == if IsLocalDev(HostnameOf(currentHost)) then PortOf(currentHost) else ""
  {
    SlugIsLower(slug);
    var port := PortOf(currentHost);
    PortHasNoColon(currentHost);
    PortOfNameAndPort(slug + DOT_LOCALHOST, port);
    PortOfNameAndPort(slug + "." + root, "");
    assert slug + DOT_LOCALHOST + (":" + port) == slug + DOT_LOCALHOST + ":" + port;
    assert slug + DOT_LOCALHOST + "" == slug + DOT_LOCALHOST;
  }

  /** The URL stays in the environment of the current host: plain HTTP and the same port
      in development, HTTPS without a port otherwise; and the path follows the host. */
  lemma {:induction false} TenantUrlStaysAtHome(root: string, currentHost: string, slug: string, rest: string)
    requires ValidRoot(root) && TeacherSlug(slug) && IsPathAndQuery(rest)
    requires forall c <- currentHost :: !EndsAuthority(c)
    ensures var url, dev := BuildTenantUrl(root, currentHost, slug, rest), IsLocalDev(HostnameOf(currentHost));
            && url == (if dev then "http://" else "https://") + UrlHost(url) + rest
            && PortOf(UrlHost(url)) == (if dev then PortOf(currentHost) else "")
            && (IsLocalDev(HostnameOf(UrlHost(url))) <== dev)
  {
    TenantUrlHost(root, currentHost, slug, rest);
    TenantUrlIs(root, currentHost, slug, rest);
    TenantHostPort(root, currentHost, slug);
    TenantHostname(root, currentHost, slug);
    SuffixOfConcat(slug, DOT_LOCALHOST);
  }

  // ----- the root host -----

  /** The redirect to the root keeps a development host's port and gives no other. */
  lemma {:induction false} RootHostKeepsThePort(root: string, host: string)
    requires ValidRoot(root) && host != ""
    ensures PortOf(RootHostFor(root, Some(host))) == if IsLocalDev(HostnameOf(host)) then PortOf(host) else ""
  {
    PortHasNoColon(host);
    PortOfNameAndPort(LOCALHOST, PortOf(host));
    PortOfNameAndPort(root, "");
  }

  lemma {:induction false} RootHostnameIs(root: string, host: Option<string>)
    requires ValidRoot(root)
    ensures HostnameOf(RootHostFor(root, host)) ==
            if host.Some? && host.value != "" && IsLocalDev(HostnameOf(host.value)) then LOCALHOST else root
  {
    HostnameOfNameAndPort(root, "");
    HostnameOfNameAndPort(LOCALHOST, if host.Some? then PortOf(host.value) else "");
  }

  /** Neither root name lies under a domain that has tenants. */
  lemma {:induction false} RootNameHasNoSubdomain(root: string, name: string)
    requires ValidRoot(root) && (name == LOCALHOST || name == root)
    ensures !EndsWith(name, DOT_LOCALHOST) && !EndsWith(name, "." + root) && Lower(name) == name
  {
    assert IsLower(LOCALHOST);
    LowerIsIdentity(name);
    assert forall i | 0 <= i < |LOCALHOST| :: LOCALHOST[i] != '.';
    assert forall i | 0 <= i < |LOCALHOST| :: LOCALHOST[i..][0] != '.';
  }

  /** Whatever port is appended to it, the root host is no teacher's. */
  lemma {:induction false} RootHostResolvesToNoSlug(root: string, host: Option<string>, next: string)
    requires ValidRoot(root) && HostnameOf(next) == HostnameOf(RootHostFor(root, host))
    ensures ResolveTeacherSlug(root, Some(next)) == None
  {
    RootHostnameIs(root, host);
    RootNameHasNoSubdomain(root, HostnameOf(next));
  }

  // ----- cookie domains -----

  /** Domain-matching, section 5.1.3 of RFC 6265; `domain` without its leading dot. */
  predicate DomainMatches(hostname: string, domain: string) {
    hostname == domain
    || (EndsWith(hostname, domain) && |domain| < |hostname| && hostname[|hostname| - |domain| - 1] == '.'
        && !IsIpv4Like(hostname))
  }

  /** Only digits and dots: not a host name. */
  predicate IsIpv4Like(hostname: string) {
    forall c <- hostname :: '0' <= c <= '9' || c == '.'
  }

  lemma {:induction false} NotIpv4Like(hostname: string, domain: string)
    requires EndsWith(hostname, domain) && !IsIpv4Like(domain)
    ensures !IsIpv4Like(hostname)
  {
    var c :| c in domain && !('0' <= c <= '9' || c == '.');
    var i :| 0 <= i < |domain| && domain[i] == c;
    assert hostname[|hostname| - |domain|..][i] == hostname[|hostname| - |domain| + i];
    assert c in hostname;
  }

  lemma {:induction false} SuffixDomain(hostname: string, domain: string)
    requires EndsWith(hostname, "." + domain) && !IsIpv4Like(domain)
    ensures DomainMatches(hostname, domain)
  {
    var n := |hostname| - |domain|;
    var tail := hostname[n - 1..];
    assert tail == "." + domain;
    assert tail[0] == '.' && tail[1..] == domain;
    assert hostname[n..] == tail[1..];
    NotIpv4Like(hostname, domain);
  }

  lemma {:induction false} LocalhostDomain(hostname: string)
    requires hostname == LOCALHOST || EndsWith(hostname, DOT_LOCALHOST)
    ensures DomainMatches(hostname, LOCALHOST)
  {
    assert "." + LOCALHOST == DOT_LOCALHOST;
    assert LOCALHOST[0] in LOCALHOST;
    if EndsWith(hostname, DOT_LOCALHOST) {
      SuffixDomain(hostname, LOCALHOST);
    }
  }

  /** The browser accepts the cookie: the request's host domain-matches the Domain
      attribute, for every host that gets one. */
  lemma {:induction false} CookieDomainMatchesHost(root: string, host: string)
    requires ValidRoot(root) && !IsIpv4Like(root)
    requires CookieDomainFor(root, Some(host)).Some?
    ensures var domain := CookieDomainFor(root, Some(host)).value;
            domain != "" && domain[0] == '.' && DomainMatches(Lower(HostnameOf(host)), domain[1..])
  {
    var hostname := Lower(HostnameOf(host));
    assert ("." + root)[1..] == root;
    assert DOT_LOCALHOST[1..] == LOCALHOST;
    if hostname == root {
    } else if EndsWith(hostname, "." + root) {
      SuffixDomain(hostname, root);
    } else {
      LocalhostDomain(hostname);
    }
  }

  lemma {:induction false} DotLocalhostHost(root: string, slug: string)
    requires ValidRoot(root) && '.' !in slug
    ensures EndsWith(slug + DOT_LOCALHOST, "." + root) ==> root == LOCALHOST
    ensures slug + DOT_LOCALHOST != root
  {
    var s := slug + DOT_LOCALHOST;
    SuffixOfConcat(slug, DOT_LOCALHOST);
    assert forall j | 0 <= j < |slug| :: s[j] == slug[j] && slug[j] in slug;
    assert forall j | 0 <= j < |s| && s[j] == '.' :: j == |slug|;
    assert s[|slug|..] == DOT_LOCALHOST && DOT_LOCALHOST[1..] == LOCALHOST;
    if EndsWith(s, "." + root) {
      var i := |s| - |root| - 1;
      assert s[i..][0] == '.' && s[i..][1..] == root;
    }
  }

  lemma {:induction false} CookieDomainOfTenant(root: string, host: string, slug: string)
    requires ValidRoot(root) && root != LOCALHOST
    requires ResolveTeacherSlug(root, Some(host)) == Some(slug)
    ensures CookieDomainFor(root, Some(host)) ==
            Some(if EndsWith(Lower(HostnameOf(host)), DOT_LOCALHOST) then DOT_LOCALHOST else "." + root)
  {
    var hostname := Lower(HostnameOf(host));
    ResolvesIff(root, host, slug);
    SlugIsLower(slug);
    if EndsWith(hostname, DOT_LOCALHOST) {
      assert slug + "." + root == slug + ("." + root);
      NotBothDomains(root, slug);
      DotLocalhostHost(root, slug);
    } else {
      SuffixOfConcat(slug, "." + root);
      assert slug + "." + root == slug + ("." + root);
    }
  }

  lemma {:induction false} CookieDomainOfRootName(root: string, host: string)
    requires ValidRoot(root) && root != LOCALHOST && host != ""
    requires HostnameOf(host) == root || HostnameOf(host) == LOCALHOST
    ensures CookieDomainFor(root, Some(host)) == Some(if HostnameOf(host) == root then "." + root else DOT_LOCALHOST)
  {
    RootNameHasNoSubdomain(root, HostnameOf(host));
  }

  lemma {:induction false} CookieDomainOfRootHost(root: string, host: string)
    requires ValidRoot(root) && root != LOCALHOST && host != ""
    ensures CookieDomainFor(root, Some(RootHostFor(root, Some(host)))) ==
            Some(if IsLocalDev(HostnameOf(host)) then DOT_LOCALHOST else "." + root)
  {
    var rootHost := RootHostFor(root, Some(host));
    RootHostnameIs(root, Some(host));
    assert HostnameOf(rootHost) != "";
    CookieDomainOfRootName(root, rootHost);
  }

  lemma {:induction false} LocalDevIsLower(host: string)
    ensures EndsWith(HostnameOf(host), DOT_LOCALHOST) ==> EndsWith(Lower(HostnameOf(host)), DOT_LOCALHOST)
  {
    if EndsWith(HostnameOf(host), DOT_LOCALHOST) {
      LowerKeepsSuffix(HostnameOf(host), DOT_LOCALHOST);
    }
  }

  lemma {:induction false} TenantIsNotBareLocalhost(root: string, host: string, slug: string)
    requires ValidRoot(root) && ResolveTeacherSlug(root, Some(host)) == Some(slug)
    ensures HostnameOf(host) != LOCALHOST
  {
    RootNameHasNoSubdomain(root, LOCALHOST);
  }

  /** Where the root domain is `localhost` there is only one cookie domain. */
  lemma {:induction false} LocalRootShares(host: string, slug: string)
    requires ValidRoot(LOCALHOST) && ResolveTeacherSlug(LOCALHOST, Some(host)) == Some(slug)
    ensures CookieDomainFor(LOCALHOST, Some(host)) == Some(DOT_LOCALHOST)
    ensures CookieDomainFor(LOCALHOST, Some(RootHostFor(LOCALHOST, Some(host)))) == Some(DOT_LOCALHOST)
  {
    assert "." + LOCALHOST == DOT_LOCALHOST;
    ResolvesIff(LOCALHOST, host, slug);
    assert slug + "." + LOCALHOST == slug + DOT_LOCALHOST;
    SuffixOfConcat(slug, DOT_LOCALHOST);
    RootHostnameIs(LOCALHOST, Some(host));
    LowerIsIdentity(LOCALHOST);
  }

  /** The host and its root host set their session cookie for the same domain. */
  predicate SharesCookies(root: string, host: string) {
    CookieDomainFor(root, Some(host)) == CookieDomainFor(root, Some(RootHostFor(root, Some(host))))
  }

  /** A teacher's host and its root host set the same cookie domain, except that a
      development host whose `.localhost` is not in lower case is sent to the root of the
      deployment, if that is another one. */
  lemma {:induction false} CookieDomainSharedIff(root: string, host: string, slug: string)
    requires ValidRoot(root)
    requires ResolveTeacherSlug(root, Some(host)) == Some(slug)
    ensures SharesCookies(root, host) <==>
            root == LOCALHOST
            || (EndsWith(Lower(HostnameOf(host)), DOT_LOCALHOST) ==> EndsWith(HostnameOf(host), DOT_LOCALHOST))
  {
    if root == LOCALHOST {
      LocalRootShares(host, slug);
    } else {
      CookieDomainOfTenant(root, host, slug);
      CookieDomainOfRootHost(root, host);
      assert ("." + root)[1..] == root && DOT_LOCALHOST[1..] == LOCALHOST;
      LocalDevIsLower(host);
      TenantIsNotBareLocalhost(root, host, slug);
    }
  }

  lemma {:induction false} CapitalLocalhost(root: string, host: string, slug: string)
    requires ValidRoot(root) && host != "" && TeacherSlug(slug)
    requires Lower(HostnameOf(host)) == slug + DOT_LOCALHOST && !EndsWith(HostnameOf(host), DOT_LOCALHOST)
    ensures ResolveTeacherSlug(root, Some(host)) == Some(slug)
    ensures SharesCookies(root, host) <==> root == LOCALHOST
  {
    SuffixOfConcat(slug, DOT_LOCALHOST);
    CookieDomainSharedIff(root, host, slug);
  }

  lemma {:induction false} NoPort(host: string)
    requires ':' !in host
    ensures HostnameOf(host) == host
  {
    assert host[..|host|] == host;
    IndexOfIs(host, ':', |host|);
  }

  lemma {:induction false} AzizIsASlug()
    ensures TeacherSlug("aziz")
  {
  }

  lemma {:induction false} AzizOnLocalhost()
    ensures Lower("aziz.LOCALHOST") == "aziz" + DOT_LOCALHOST
    ensures !EndsWith("aziz.LOCALHOST", DOT_LOCALHOST)
  {
    var host, tail := "aziz.LOCALHOST", "aziz.LOCALHOST"[4..];
    assert tail[1] == 'L' && DOT_LOCALHOST[1] == 'l';
  }

  /** Such a host: it is apart on every deployment whose root is not `localhost`. */
  lemma {:induction false} CapitalLocalhostIsApart(root: string) returns (host: string)
    requires ValidRoot(root)
    ensures host == "aziz.LOCALHOST" && ResolveTeacherSlug(root, Some(host)) == Some("aziz")
    ensures SharesCookies(root, host) <==> root == LOCALHOST
  {
    var slug := "aziz";
    host := "aziz.LOCALHOST";
    NoPort(host);
    AzizIsASlug();
    AzizOnLocalhost();
    CapitalLocalhost(root, host, slug);
  }
}
