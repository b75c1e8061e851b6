/**
 The routing decision of the web middleware, and navigations that follow its own
 redirects.  Cookies, tokens, the refresh call, the slug lookup and next-intl are an
 arbitrary environment that may answer differently at every hop.
 */
module Middleware {
  import opened Wrappers
  import opened Text
  import opened Tenant

  const LOCALES := {"uz", "ru", "en"}
  const DEFAULT_LOCALE := "uz"

  const PROTECTED_PREFIXES := {
    "/dashboard", "/admin", "/student", "/groups", "/lessons", "/live", "/schedule", "/my-courses",
    "/notifications", "/messages", "/settings", "/onboarding", "/assignments", "/submissions",
    "/teacher", "/requests"}

  const STATIC_EXTENSIONS := {
    ".ico", ".png", ".jpg", ".jpeg", ".gif", ".svg", ".webp", ".avif", ".css", ".js", ".mjs", ".map",
    ".json", ".txt", ".xml", ".woff", ".woff2", ".ttf", ".otf", ".eot", ".mp4", ".webm", ".mp3", ".wav", ".pdf"}

  /** The locale of `/xx` or `/xx/…`, as `/^\/(uz|ru|en)(\/|$)/` finds it. */
  function LocaleOf(path: string): Option<string> {
    if |path| >= 3 && path[0] == '/' && path[1..3] in LOCALES && (|path| == 3 || path[3] == '/')
    then Some(path[1..3]) else None
  }

  function StripLocalePrefix(path: string): string {
    if LocaleOf(path).None? then path else if |path| == 3 then "/" else "/" + path[4..]
  }

  predicate HasPrefix(path: string, prefix: string) {
    path == prefix || StartsWith(path, prefix + "/")
  }

  predicate IsProtectedPath(path: string) {
    exists prefix <- PROTECTED_PREFIXES :: HasPrefix(StripLocalePrefix(path), prefix)
  }

  predicate IsStaticAsset(path: string) {
    exists ext <- STATIC_EXTENSIONS :: EndsWith(Lower(path), ext)
  }

  predicate Skipped(path: string) {
    StartsWith(path, "/_next") || StartsWith(path, "/api") || IsStaticAsset(path)
  }

  /** `mapTeacherHomePath` of tenant.ts. */
  function MapTeacherHomePath(path: string, slug: string): Option<string> {
    if StripLocalePrefix(path) != "/" then None
    else Some((if LocaleOf(path).Some? then "/" + LocaleOf(path).value else "") + "/teachers/" + slug)
  }

  /** Where an unauthenticated visitor is sent: the locale must be followed by a slash. */
  function LoginPath(path: string): string {
    var locale := if |path| > 3 && LocaleOf(path).Some? then LocaleOf(path).value else DEFAULT_LOCALE;
    "/" + locale + "/login"
  }

  datatype Request = Request(host: Option<string>, path: string, preview: bool)

  /** The answers one hop may get: whether the slug is claimed, the access token (None:
      no cookie; otherwise whether it is valid), and the refresh (None: no cookie). */
  datatype Answers = Answers(claimed: bool, accessToken: Option<bool>, refreshed: Option<bool>)

  datatype Decision =
    | PassThrough                    // NextResponse.next()
    | Intl(path: string)             // handed to next-intl
    | ToRoot(host: string)           // 302 to "/" on the root host
    | ToLogin(path: string)          // to the login page of the same site

  function Decide(root: string, r: Request, a: Answers): Decision {
    if Skipped(r.path) then PassThrough
    else
      var slug := ResolveTeacherSlug(root, r.host);
      if slug.Some? && !r.preview && !a.claimed then ToRoot(RootHostFor(root, r.host))
      else if IsProtectedPath(r.path) then
        if a.accessToken == Some(true) || a.refreshed == Some(true) then Intl(r.path)
        else ToLogin(LoginPath(r.path))
      else if slug.Some? && MapTeacherHomePath(r.path, slug.value).Some?
      then Intl(MapTeacherHomePath(r.path, slug.value).value)
      else Intl(r.path)
  }

  /** The request a browser may make next.  A redirect to the root may carry any port;
      next-intl's own redirects change at most the locale prefix of the path. */
  ghost predicate Follows(root: string, r: Request, a: Answers, next: Request) {
    match Decide(root, r, a)
    case PassThrough => false
    case ToRoot(host) =>
      next.host.Some? && HostnameOf(next.host.value) == HostnameOf(host) && next.path == "/" && !next.preview
    case ToLogin(path) => next.path == path && !next.preview
    case Intl(path) =>
      next.host == r.host && next.preview == r.preview && StripLocalePrefix(next.path) == StripLocalePrefix(path)
  }

  predicate OwnRedirect(root: string, r: Request, a: Answers) {
    var d := Decide(root, r, a);
    d.ToRoot? || d.ToLogin?
  }

  /** A navigation: each request follows from the one before and its answers. */
  ghost predicate Navigation(root: string, rs: seq<Request>, answers: seq<Answers>) {
    |answers| == |rs|
    && forall i | 0 < i < |rs| :: Follows(root, rs[i - 1], answers[i - 1], rs[i])
  }

  /** How many of the navigation's requests the middleware redirected itself. */
  function Redirects(root: string, rs: seq<Request>, answers: seq<Answers>): nat
    requires |answers| == |rs|
  {
    if rs == [] then 0
    else (if OwnRedirect(root, rs[0], answers[0]) then 1 else 0) + Redirects(root, rs[1..], answers[1..])
  }

  /** Redirects a navigation can still meet from here. */
  function Distance(root: string, r: Request): nat {
    if IsProtectedPath(r.path) then 2
    else if ResolveTeacherSlug(root, r.host).Some? then 1
    else 0
  }

  // ----- what the path functions mean -----

  lemma {:induction false} LocaleBeginnings(locale: string)
    requires locale in LOCALES
    ensures |locale| == 2 && (locale[0] == 'u' || locale[0] == 'r' || locale[0] == 'e')
  {
  }

  lemma {:induction false} AfterTheSlash(path: string, rest: string)
    requires path != ""
    ensures StartsWith(path, "/" + rest) <==> path[0] == '/' && StartsWith(path[1..], rest)
    ensures path == "/" + rest <==> path[0] == '/' && path[1..] == rest
  {
    if |path| > |rest| {
      assert path[..|rest| + 1] == [path[0]] + path[1..][..|rest|];
    }
    assert path == [path[0]] + path[1..];
  }

  /** A locale is found exactly as the whole first segment of a path. */
  lemma {:induction false} LocaleIff(path: string, locale: string)
    ensures LocaleOf(path) == Some(locale) <==>
            locale in LOCALES && (path == "/" + locale || StartsWith(path, "/" + (locale + "/")))
  {
    if locale in LOCALES && |path| >= 3 {
      LocaleBeginnings(locale);
      AfterTheSlash(path, locale);
      AfterTheSlash(path, locale + "/");
      assert path[1..][..2] == path[1..3];
      if |path| > 3 {
        assert path[1..][..3] == path[1..3] + [path[3]];
      }
    }
  }

  /** A path is its locale followed by its locale-free form, except that the home page
      may be written without its slash. */
  lemma {:induction false} StrippedIs(path: string)
    ensures LocaleOf(path).None? ==> StripLocalePrefix(path) == path
    ensures LocaleOf(path).Some? ==>
              var locale, p := LocaleOf(path).value, StripLocalePrefix(path);
              p != "" && p[0] == '/' && (path == "/" + locale + p || (path == "/" + locale && p == "/"))
  {
    if LocaleOf(path).Some? {
      if |path| == 3 {
        assert path == "/" + path[1..3];
      } else {
        assert path == "/" + path[1..3] + ("/" + path[4..]);
      }
    }
  }

  /** What stands between the first two slashes. */
  function FirstSegment(path: string): string
    requires path != ""
  {
    path[1..][..IndexOf(path[1..], '/')]
  }

  lemma {:induction false} PrefixIsASegment(prefix: string)
    requires prefix in PROTECTED_PREFIXES
    ensures prefix != "" && prefix[0] == '/' && forall i | 0 < i < |prefix| :: prefix[i] != '/'
  {
  }

  lemma {:induction false} BeforeTheSlash(rest: string, name: string)
    requires '/' !in name
    ensures rest[..IndexOf(rest, '/')] == name <==> rest == name || StartsWith(rest, name + "/")
  {
    var i := IndexOf(rest, '/');
    if rest == name {
      IndexOfIs(rest, '/', |rest|);
      assert rest[..|rest|] == rest;
    }
    if StartsWith(rest, name + "/") {
      assert rest[..|name| + 1] == name + "/";
      assert rest[..|name|] == rest[..|name| + 1][..|name|] && rest[|name|] == rest[..|name| + 1][|name|];
      IndexOfIs(rest, '/', |name|);
    }
    if i < |rest| {
      assert rest[..i + 1] == rest[..i] + "/";
    }
  }

  lemma {:induction false} HasPrefixIff(path: string, name: string)
    requires '/' !in name
    ensures HasPrefix(path, "/" + name) <==> path != "" && path[0] == '/' && FirstSegment(path) == name
  {
    if path != "" {
      assert "/" + name + "/" == "/" + (name + "/");
      AfterTheSlash(path, name);
      AfterTheSlash(path, name + "/");
      BeforeTheSlash(path[1..], name);
    }
  }

  /** A path is protected exactly when its first segment, a locale apart, is one of the
      listed ones. */
  lemma {:induction false} ProtectedIff(path: string)
    ensures var p := StripLocalePrefix(path);
            IsProtectedPath(path) <==> p != "" && p[0] == '/' && "/" + FirstSegment(p) in PROTECTED_PREFIXES
  {
    var p := StripLocalePrefix(path);
    if IsProtectedPath(path) {
      var prefix :| prefix in PROTECTED_PREFIXES && HasPrefix(p, prefix);
      PrefixIsASegment(prefix);
      assert prefix == "/" + prefix[1..];
      HasPrefixIff(p, prefix[1..]);
    } else if p != "" && p[0] == '/' && "/" + FirstSegment(p) in PROTECTED_PREFIXES {
      var prefix := "/" + FirstSegment(p);
      PrefixIsASegment(prefix);
      assert prefix[1..] == FirstSegment(p);
      HasPrefixIff(p, FirstSegment(p));
    }
  }

  lemma {:induction false} PrefixFacts(p: string)
    requires p in PROTECTED_PREFIXES
    ensures |p| >= 5 && (|p| == 6 ==> p[1] == 'a') && (|p| >= 9 ==> p[1] != 't')
  {
  }

  lemma {:induction false} PrefixEndsAtSlash(path: string, prefix: string)
    requires StartsWith(path, prefix + "/")
    ensures |prefix| < |path| && path[|prefix|] == '/' && path[..|prefix|] == prefix
  {
    assert path[..|prefix| + 1][|prefix|] == '/';
    assert path[..|prefix| + 1][..|prefix|] == path[..|prefix|];
  }

  lemma {:induction false} LoginIsPublic(path: string)
    requires StripLocalePrefix(path) == "/login" || StripLocalePrefix(path) == "/"
    ensures !IsProtectedPath(path)
  {
    var p := StripLocalePrefix(path);
    assert forall i | 0 < i < |p| :: p[i] != '/';
    forall prefix <- PROTECTED_PREFIXES
      ensures !HasPrefix(p, prefix)
    {
      PrefixFacts(prefix);
      if StartsWith(p, prefix + "/") {
        PrefixEndsAtSlash(p, prefix);
      }
    }
  }

  lemma {:induction false} LoginPathIsPublic(path: string)
    ensures StripLocalePrefix(LoginPath(path)) == "/login" && !IsProtectedPath(LoginPath(path))
  {
    var login := LoginPath(path);
    var locale := if |path| > 3 && LocaleOf(path).Some? then LocaleOf(path).value else DEFAULT_LOCALE;
    assert locale in LOCALES;
    assert |locale| == 2;
    assert login[1..3] == locale;
    LoginIsPublic(login);
  }

  lemma {:induction false} TeachersPathIsPublic(path: string, slug: string)
    requires StripLocalePrefix(path) == "/teachers/" + slug
    ensures !IsProtectedPath(path)
  {
    var home := "/teachers/" + slug;
    assert home[..10] == "/teachers/" && home[1] == 't';
    forall prefix <- PROTECTED_PREFIXES
      ensures !HasPrefix(home, prefix)
    {
      PrefixFacts(prefix);
      if StartsWith(home, prefix + "/") {
        PrefixEndsAtSlash(home, prefix);
      }
    }
  }

  /** A teacher's home page is never behind the session check, although its path begins
      with `/teacher`, and it keeps the visitor's locale. */
  lemma {:induction false} TeacherHomeIsPublic(path: string, slug: string)
    requires MapTeacherHomePath(path, slug).Some?
    ensures StripLocalePrefix(MapTeacherHomePath(path, slug).value) == "/teachers/" + slug
    ensures LocaleOf(MapTeacherHomePath(path, slug).value) == LocaleOf(path)
    ensures !IsProtectedPath(MapTeacherHomePath(path, slug).value)
  {
    var mapped := MapTeacherHomePath(path, slug).value;
    var home := "/teachers/" + slug;
    if LocaleOf(path).Some? {
      assert mapped[1..3] == LocaleOf(path).value;
      assert mapped[3..] == home;
    } else {
      assert mapped == home;
      assert home[1..3] == "te";
    }
    TeachersPathIsPublic(mapped, slug);
  }

  // ----- redirect chains end -----

  /** Protection depends on the path only through its locale-free form. */
  lemma {:induction false} SamePathSameProtection(path: string, other: string)
    requires StripLocalePrefix(path) == StripLocalePrefix(other)
    ensures IsProtectedPath(path) == IsProtectedPath(other)
  {
  }

  lemma {:induction false} RootIsLast(root: string, r: Request, a: Answers, next: Request)
    requires ValidRoot(root) && Follows(root, r, a, next) && Decide(root, r, a).ToRoot?
    ensures Distance(root, next) == 0
  {
    RootHostResolvesToNoSlug(root, r.host, next.host.value);
    LoginIsPublic(next.path);
  }

  lemma {:induction false} IntlStays(root: string, r: Request, a: Answers, next: Request)
    requires Follows(root, r, a, next) && Decide(root, r, a).Intl?
    ensures Distance(root, next) <= Distance(root, r)
  {
    var path := Decide(root, r, a).path;
    SamePathSameProtection(next.path, path);
    if path != r.path {
      TeacherHomeIsPublic(r.path, ResolveTeacherSlug(root, r.host).value);
    }
  }

  lemma {:induction false} OwnRedirectIsFar(root: string, r: Request, a: Answers)
    requires OwnRedirect(root, r, a)
    ensures Distance(root, r) > 0
  {
  }

  /** Each of the middleware's own redirects brings the visitor closer to a page, and
      next-intl takes nobody further away. */
  lemma {:induction false} RedirectsComeCloser(root: string, r: Request, a: Answers, next: Request)
    requires ValidRoot(root) && Follows(root, r, a, next)
    ensures OwnRedirect(root, r, a) ==> Distance(root, next) < Distance(root, r)
    ensures !OwnRedirect(root, r, a) ==> Distance(root, next) <= Distance(root, r)
  {
    match Decide(root, r, a)
    case PassThrough =>
    case ToRoot(_) =>
      RootIsLast(root, r, a, next);
      OwnRedirectIsFar(root, r, a);
    case ToLogin(_) =>
      LoginPathIsPublic(r.path);
    case Intl(_) =>
      IntlStays(root, r, a, next);
  }

  lemma {:induction false} RedirectsWithinDistance(root: string, rs: seq<Request>, answers: seq<Answers>)
    requires ValidRoot(root) && Navigation(root, rs, answers) && rs != []
    ensures Redirects(root, rs, answers) <= Distance(root, rs[0])
    decreases |rs|
  {
    if OwnRedirect(root, rs[0], answers[0]) {
      OwnRedirectIsFar(root, rs[0], answers[0]);
    }
    if |rs| > 1 {
      assert Follows(root, rs[0], answers[0], rs[1]);
      RedirectsComeCloser(root, rs[0], answers[0], rs[1]);
      forall i | 0 < i < |rs[1..]|
        ensures Follows(root, rs[1..][i - 1], answers[1..][i - 1], rs[1..][i])
      {
        assert Follows(root, rs[i], answers[i], rs[i + 1]);
      }
      RedirectsWithinDistance(root, rs[1..], answers[1..]);
    }
  }

  /** From any host and path, with any cookies, API answers and redirects of next-intl
      in between, the middleware redirects a navigation at most twice. */
  lemma {:induction false} AtMostTwoRedirects(root: string, rs: seq<Request>, answers: seq<Answers>)
    requires ValidRoot(root) && Navigation(root, rs, answers)
    ensures Redirects(root, rs, answers) <= 2
  {
    if rs != [] {
      RedirectsWithinDistance(root, rs, answers);
    }
  }

  lemma {:induction false} ExtensionFacts(ext: string)
    requires ext in STATIC_EXTENSIONS
    ensures 3 <= |ext| <= 6 && ext[0] == '.'
  {
  }

  /** An asset has a dot. */
  lemma {:induction false} NoDotNoAsset(path: string)
    requires '.' !in path
    ensures !IsStaticAsset(path)
  {
    var lower := Lower(path);
    forall ext <- STATIC_EXTENSIONS
      ensures !EndsWith(lower, ext)
    {
      ExtensionFacts(ext);
      assert forall i | 0 <= i < |path| :: path[i] in path;
      assert forall i | 0 <= i < |lower| :: lower[i] != '.' && lower[i..][0] != '.';
    }
  }

  lemma {:induction false} DashboardIsProtected()
    ensures IsProtectedPath("/dashboard") && LoginPath("/dashboard") == "/uz/login"
  {
    var p := "/dashboard";
    assert p[1..3] == "da";
    assert LocaleOf(p) == None;
    assert HasPrefix(StripLocalePrefix(p), p);
  }

  lemma {:induction false} StartsElsewhere(path: string)
    requires |path| >= 3 && path[1] != '_' && (path[1] == 'a' ==> path[2] != 'p')
    ensures !StartsWith(path, "/_next") && !StartsWith(path, "/api")
  {
    assert |path| >= 6 ==> path[..6][1] == path[1];
    assert |path| >= 4 ==> path[..4][1] == path[1] && path[..4][2] == path[2];
  }

  lemma {:induction false} NotSkipped(path: string)
    requires |path| > 4 && '.' !in path && path[1] != '_' && path[1] != 'a'
    ensures !Skipped(path)
  {
    NoDotNoAsset(path);
    StartsElsewhere(path);
  }

  lemma {:induction false} ReleasedHostGoesToRoot(root: string, r: Request, a: Answers)
    requires !Skipped(r.path) && ResolveTeacherSlug(root, r.host).Some? && !r.preview && !a.claimed
    ensures OwnRedirect(root, r, a)
  {
  }

  lemma {:induction false} AnonymousGoesToLogin(root: string, r: Request, a: Answers, next: Request)
    requires !Skipped(r.path) && IsProtectedPath(r.path) && a == Answers(true, None, None)
    requires next.path == LoginPath(r.path) && !next.preview
    ensures OwnRedirect(root, r, a) && Follows(root, r, a, next)
  {
  }

  lemma {:induction false} TenantHostOf(root: string, slug: string)
    requires ValidRoot(root) && TeacherSlug(slug)
    ensures ResolveTeacherSlug(root, Some(slug + "." + root)) == Some(slug)
  {
    TenantNameIsLower(root, slug, false);
    SlugIsLower(slug);
    HostnameOfNameAndPort(slug + "." + root, "");
    assert slug + "." + root == slug + ("." + root);
    ResolvesIff(root, slug + "." + root, slug);
  }

  lemma {:induction false} TwoHops(root: string, r0: Request, a0: Answers, r1: Request, a1: Answers)
    requires OwnRedirect(root, r0, a0) && Follows(root, r0, a0, r1) && OwnRedirect(root, r1, a1)
    ensures Navigation(root, [r0, r1], [a0, a1]) && Redirects(root, [r0, r1], [a0, a1]) == 2
  {
    assert [r0, r1][1..] == [r1] && [a0, a1][1..] == [a1];
    assert [r1][1..] == [] && [a1][1..] == [];
    assert Redirects(root, [r1], [a1]) == 1;
  }

  lemma {:induction false} TwoRedirectsFrom(root: string, slug: string, page: string, login: string)
      returns (rs: seq<Request>, answers: seq<Answers>)
    requires ValidRoot(root) && TeacherSlug(slug)
    requires IsProtectedPath(page) && LoginPath(page) == login && !Skipped(page) && !Skipped(login)
    ensures Navigation(root, rs, answers) && Redirects(root, rs, answers) == 2
  {
    var host := Some(slug + "." + root);
    TenantHostOf(root, slug);
    var r0, a0 := Request(host, page, false), Answers(true, None, None);
    var r1, a1 := Request(host, login, false), Answers(false, None, None);
    AnonymousGoesToLogin(root, r0, a0, r1);
    ReleasedHostGoesToRoot(root, r1, a1);
    TwoHops(root, r0, a0, r1, a1);
    rs, answers := [r0, r1], [a0, a1];
  }

  /** The bound is met on every deployment: an anonymous visit to a protected page of a
      subdomain that is released while the visitor is on the way. */
  lemma {:induction false} TwoRedirectsHappen(root: string, slug: string) returns (rs: seq<Request>, answers: seq<Answers>)
    requires ValidRoot(root) && TeacherSlug(slug)
    ensures Navigation(root, rs, answers) && Redirects(root, rs, answers) == 2
  {
    var page, login := "/dashboard", "/uz/login";
    NotSkipped(page);
    NotSkipped(login);
    DashboardIsProtected();
    rs, answers := TwoRedirectsFrom(root, slug, page, login);
  }

  predicate SiteOpen(root: string, r: Request, a: Answers) {
    ResolveTeacherSlug(root, r.host).None? || r.preview || a.claimed
  }

  predicate HasSession(a: Answers) {
    a.accessToken == Some(true) || a.refreshed == Some(true)
  }

  lemma {:induction false} PrefixBeginnings(prefix: string)
    requires prefix in PROTECTED_PREFIXES
    ensures |prefix| >= 3 && prefix[1] != '_' && (prefix[1] == 'a' ==> prefix[2] != 'p')
  {
  }

  /** Of the three reasons for passing a request through, only the extension ever
      applies to a protected page. */
  lemma {:induction false} ProtectedIsSkippedIff(path: string)
    requires IsProtectedPath(path)
    ensures Skipped(path) <==> IsStaticAsset(path)
  {
    if LocaleOf(path).Some? {
      LocaleBeginnings(path[1..3]);
    } else {
      var prefix :| prefix in PROTECTED_PREFIXES && HasPrefix(path, prefix);
      PrefixBeginnings(prefix);
      if path != prefix {
        PrefixEndsAtSlash(path, prefix);
      }
      assert path[..|prefix|] == prefix;
    }
    StartsElsewhere(path);
  }

  lemma {:induction false} LetThroughIff(root: string, r: Request, a: Answers)
    ensures !OwnRedirect(root, r, a) <==>
            Skipped(r.path) || (SiteOpen(root, r, a) && (IsProtectedPath(r.path) ==> HasSession(a)))
  {
  }

  /** The middleware keeps a visitor from nothing but a closed site and, without a
      session, from protected pages; and even there it lets through, on every site,
      exactly the paths that end in a listed extension. */
  lemma {:induction false} PageIsServedIff(root: string, r: Request, a: Answers)
    ensures !OwnRedirect(root, r, a) <==>
            Skipped(r.path) || (SiteOpen(root, r, a) && (IsProtectedPath(r.path) ==> HasSession(a)))
    ensures IsProtectedPath(r.path) && !HasSession(a) ==> (!OwnRedirect(root, r, a) <==> IsStaticAsset(r.path))
    ensures IsProtectedPath(r.path) && HasSession(a) ==>
              (!OwnRedirect(root, r, a) <==> IsStaticAsset(r.path) || SiteOpen(root, r, a))
  {
    LetThroughIff(root, r, a);
    var isProtected, skipped, asset := IsProtectedPath(r.path), Skipped(r.path), IsStaticAsset(r.path);
    assert isProtected ==> (skipped <==> asset) by {
      if isProtected {
        ProtectedIsSkippedIff(r.path);
      }
    }
  }

  lemma {:induction false} UnderDashboard(path: string)
    requires StartsWith(path, "/dashboard/")
    ensures IsProtectedPath(path)
  {
    assert path[..11][1] == 'd';
    if LocaleOf(path).Some? {
      LocaleBeginnings(path[1..3]);
    }
    assert "/dashboard/" == "/dashboard" + "/";
    assert HasPrefix(StripLocalePrefix(path), "/dashboard");
  }

  lemma {:induction false} JsonIsListed()
    ensures ".json" in STATIC_EXTENSIONS && IsLower(".json")
  {
  }

  lemma {:induction false} JsonIsAnAsset(path: string)
    requires EndsWith(path, ".json")
    ensures IsStaticAsset(path)
  {
    var ext := ".json";
    JsonIsListed();
    LowerKeepsSuffix(path, ext);
    assert ext in STATIC_EXTENSIONS && EndsWith(Lower(path), ext);
  }

  /** Protected pages that are passed through without a session: their names end like
      an asset. */
  lemma {:induction false} AssetNameNeedsNoSession(root: string, host: Option<string>, name: string, a: Answers)
    ensures var path := "/dashboard/" + name + ".json";
            IsProtectedPath(path) && Decide(root, Request(host, path, false), a) == PassThrough
  {
    var path := "/dashboard/" + name + ".json";
    assert path[..11] == "/dashboard/";
    UnderDashboard(path);
    assert path[|path| - 5..] == ".json";
    JsonIsAnAsset(path);
  }

  /** Each decision is taken exactly where it belongs: assets and internals pass, a closed
      site is left before any session is asked for, and only then does a protected page
      want one. */
  lemma {:induction false} DecisionIff(root: string, r: Request, a: Answers)
    ensures var d, isProtected := Decide(root, r, a), IsProtectedPath(r.path);
            && (d.PassThrough? <==> Skipped(r.path))
            && (d.ToRoot? <==> !Skipped(r.path) && !SiteOpen(root, r, a))
            && (d.ToLogin? <==> !Skipped(r.path) && SiteOpen(root, r, a) && isProtected && !HasSession(a))
    ensures Decide(root, r, a).ToRoot? ==> Decide(root, r, a).host == RootHostFor(root, r.host)
    ensures Decide(root, r, a).ToLogin? ==> Decide(root, r, a).path == LoginPath(r.path)
  {
  }

  lemma {:induction false} HomeIsPublic(path: string)
    requires StripLocalePrefix(path) == "/"
    ensures !IsProtectedPath(path)
  {
    LoginIsPublic(path);
  }

  /** A teacher's home page is handed on as that teacher's page in the visitor's locale;
      every other page is handed on under its own path. */
  lemma {:induction false} HandedOnAs(root: string, r: Request, a: Answers)
    requires Decide(root, r, a).Intl?
    ensures var path, slug := Decide(root, r, a).path, ResolveTeacherSlug(root, r.host);
            if slug.Some? && StripLocalePrefix(r.path) == "/"
            then StripLocalePrefix(path) == "/teachers/" + slug.value && LocaleOf(path) == LocaleOf(r.path)
            else path == r.path
  {
    var slug := ResolveTeacherSlug(root, r.host);
    if slug.Some? && StripLocalePrefix(r.path) == "/" {
      HomeIsPublic(r.path);
      TeacherHomeIsPublic(r.path, slug.value);
    }
  }

  /** The home page of every open teacher's site is the teacher's page. */
  lemma {:induction false} TeacherHomeIsServed(root: string, r: Request, a: Answers, slug: string)
    requires ResolveTeacherSlug(root, r.host) == Some(slug) && (a.claimed || r.preview)
    requires StripLocalePrefix(r.path) == "/" && !Skipped(r.path)
    ensures Decide(root, r, a).Intl?
    ensures StripLocalePrefix(Decide(root, r, a).path) == "/teachers/" + slug
    ensures LocaleOf(Decide(root, r, a).path) == LocaleOf(r.path)
  {
    HomeIsPublic(r.path);
    DecisionIff(root, r, a);
    HandedOnAs(root, r, a);
  }

  /** The redirect to the login page keeps the visitor's locale, although it looks for it
      with a different pattern than the protection does. */
  lemma {:induction false} LoginKeepsTheLocale(path: string)
    requires IsProtectedPath(path)
    ensures LocaleOf(LoginPath(path)) == Some(if LocaleOf(path).Some? then LocaleOf(path).value else DEFAULT_LOCALE)
  {
    LoginPathIsPublic(path);
    if |path| == 3 && LocaleOf(path).Some? {
      LoginIsPublic(path);
    }
    var login := LoginPath(path);
    assert |login| == 9 && login[3] == '/';
  }
}
