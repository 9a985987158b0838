/**
 The runtime configuration of the integrations: merging updates, writing the
 result as a JSON payload, and loading it again.
 */
module RuntimeConfig {
  import opened Common

  datatype Json = Null | Bool(b: bool) | Int(n: int) | Str(s: string) | Obj(fields: map<string, Json>) | Other

  type Fields = map<string, Json>
  type Text = Option<string>

  datatype Architecture = Avistaz | Nexusphp {
    function Name(): string {
      if Avistaz? then "avistaz" else "nexusphp"
    }
  }

  datatype Site = Site(
    architecture: Architecture, baseUrl: string, siteId: string, displayName: string,
    username: Text, password: Text, pid: Text, cookie: Text, passkey: Text)

  datatype Account = Account(url: Text, username: Text, password: Text)

  datatype Sites = Sites(active: Option<Architecture>, avistaz: Option<Site>, nexusphp: Option<Site>)

  datatype Downloader = Downloader(account: Account, savePath: Text, category: Text, allowInsecureHttp: Option<bool>)

  datatype Configuration = Configuration(nextfind: Account, tmdbToken: Text, sites: Sites, qb: Downloader)

  const EMPTY := Configuration(
    Account(None, None, None), None, Sites(None, None, None), Downloader(Account(None, None, None), None, None, None))

  // ---- Strings and addresses ---------------------------------------------------------

  predicate IsClean(s: string, maximum: nat) {
    s == Strip(s) && |s| <= maximum && forall c | c in s :: 32 <= c as int != 127
  }

  function TrimSlashes(s: string): (r: string)
    ensures |r| <= |s| && r == s[..|r|]
    ensures r == [] || r[|r| - 1] != '/'
  {
    if s != [] && s[|s| - 1] == '/' then TrimSlashes(s[..|s| - 1]) else s
  }

  /**
   How addresses are parsed: `isOrigin` is the check for an https origin, `isQbUrl`
   the one for the downloader's address under the insecure-http switch.
   */
  datatype Parser = Parser(isOrigin: string -> bool, isQbUrl: (string, bool) -> bool)

  /** An origin is still one without its trailing slash. */
  ghost predicate Sound(p: Parser) {
    forall s :: p.isOrigin(s) ==> p.isOrigin(TrimSlashes(s)) && TrimSlashes(s) != []
  }

  /** `_validate_https_origin`. */
  function ValidateOrigin(p: Parser, s: string): Text {
    if p.isOrigin(s) then Some(TrimSlashes(s)) else None
  }

  /** `_validate_qb_url` does not raise. */
  predicate QbUrlFits(p: Parser, url: Text, allow: Option<bool>) {
    url.None? || url.value == "" || p.isQbUrl(url.value, allow == Some(true))
  }

  predicate IsSiteIdChar(c: char) {
    'a' <= c <= 'z' || '0' <= c <= '9'
  }

  predicate IsSiteId(s: string) {
    && 1 <= |s| <= 24
    && IsSiteIdChar(s[0]) && IsSiteIdChar(s[|s| - 1])
    && forall c | c in s :: IsSiteIdChar(c) || c == '-'
  }

  // ---- Merging ----------------------------------------------------------------------

  function OptionalPublic(values: Fields, key: string, current: Text, maximum: nat): Option<Text> {
    if key !in values then Some(current)
    else if values[key].Str? && IsClean(values[key].s, maximum) then Some(Some(values[key].s))
    else None
  }

  function RequiredPublic(values: Fields, key: string, maximum: nat): Option<string> {
    if key in values && values[key].Str? && values[key].s != "" && IsClean(values[key].s, maximum)
    then Some(values[key].s) else None
  }

  function OptionalSecret(values: Fields, key: string, current: Text): Option<Text> {
    if key !in values || values[key] == Null || values[key] == Str("") then Some(current)
    else if values[key].Str? && IsClean(values[key].s, 8192) then Some(Some(values[key].s))
    else None
  }

  function MergeNextfind(p: Parser, c: Account, u: Fields): Option<Account> {
    var given :- OptionalPublic(u, "base_url", c.url, 2048);
    var url :- if given.None? then Some(None) else
                 match ValidateOrigin(p, given.value)
                 case None => None
                 case Some(trimmed) => Some(Some(trimmed));
    var username :- OptionalPublic(u, "username", c.username, 120);
    var same := url == c.url && username == c.username;
    var password :- OptionalSecret(u, "password", if same then c.password else None);
    Some(Account(url, username, password))
  }

  function MergeQbAccount(c: Account, u: Fields): Option<Account> {
    var url :- OptionalPublic(u, "url", c.url, 2048);
    var username :- OptionalPublic(u, "username", c.username, 120);
    var same := url == c.url && username == c.username;
    var password :- OptionalSecret(u, "password", if same then c.password else None);
    Some(Account(url, username, password))
  }

  function MergeAvistaz(p: Parser, c: Option<Site>, u: Fields): Option<Site> {
    var given :- RequiredPublic(u, "base_url", 2048);
    var url :- ValidateOrigin(p, given);
    var username :- RequiredPublic(u, "username", 120);
    var same := c.Some? && c.value.baseUrl == url && c.value.username == Some(username);
    var password :- OptionalSecret(u, "password", if same then c.value.password else None);
    var pid :- OptionalSecret(u, "pid", if same then c.value.pid else None);
    Some(Site(Avistaz, url, "avistaz", "AvistaZ", Some(username), password, pid, None, None))
  }

  function MergeNexusphp(p: Parser, c: Option<Site>, u: Fields): Option<Site> {
    var siteId :- RequiredPublic(u, "site_id", 24);
    var displayName :- RequiredPublic(u, "display_name", 100);
    var given :- RequiredPublic(u, "base_url", 2048);
    var url :- ValidateOrigin(p, given);
    if !IsSiteId(siteId) then None
    else
      var same := c.Some? && c.value.siteId == siteId && c.value.baseUrl == url;
      var cookie :- OptionalSecret(u, "cookie", if same then c.value.cookie else None);
      var passkey :- OptionalSecret(u, "passkey", if same then c.value.passkey else None);
      Some(Site(Nexusphp, url, siteId, displayName, None, None, None, cookie, passkey))
  }

  /** `_merge_pt_sites`. */
  function MergeSites(p: Parser, c: Sites, u: Fields): Option<Sites> {
    if "architecture" !in u then None
    else if u["architecture"] == Str("avistaz") then
      var site :- MergeAvistaz(p, c.avistaz, u);
      Some(Sites(Some(Avistaz), Some(site), c.nexusphp))
    else if u["architecture"] == Str("nexusphp") then
      var site :- MergeNexusphp(p, c.nexusphp, u);
      Some(Sites(Some(Nexusphp), c.avistaz, Some(site)))
    else None
  }

  type Updates = map<string, Fields>

  function Group(u: Updates, name: string): Fields {
    if name in u then u[name] else map[]
  }

  function MergeAllow(u: Fields, current: Option<bool>): Option<Option<bool>> {
    if "allow_insecure_http" !in u then Some(current)
    else
      match u["allow_insecure_http"]
      case Null => Some(None)
      case Bool(b) => Some(Some(b))
      case _ => None
  }

  function MergeQb(p: Parser, c: Downloader, u: Fields): Option<Downloader> {
    var account :- MergeQbAccount(c.account, u);
    var savePath :- OptionalPublic(u, "save_path", c.savePath, 4096);
    var category :- OptionalPublic(u, "category", c.category, 300);
    var allow :- MergeAllow(u, c.allowInsecureHttp);
    if QbUrlFits(p, account.url, allow) then Some(Downloader(account, savePath, category, allow)) else None
  }

  /** A configuration out of its parts, unless one of them raised. */
  function Assembled(nextfind: Option<Account>, token: Option<Text>, qb: Option<Downloader>, sites: Option<Sites>)
    : Option<Configuration>
  {
    if nextfind.Some? && token.Some? && qb.Some? && sites.Some? then
      Some(Configuration(nextfind.value, token.value, sites.value, qb.value))
    else None
  }

  /** `_merge_configuration`; None when it raises. */
  function Merge(p: Parser, c: Configuration, u: Updates): Option<Configuration> {
    if !(u.Keys <= {"nextfind", "tmdb", "pt_site", "qbittorrent"}) then None
    else
      Assembled(MergeNextfind(p, c.nextfind, Group(u, "nextfind")),
                OptionalSecret(Group(u, "tmdb"), "token", c.tmdbToken),
                MergeQb(p, c.qb, Group(u, "qbittorrent")),
                if "pt_site" in u then MergeSites(p, c.sites, u["pt_site"]) else Some(c.sites))
  }

  // ---- What an update comes to ---------------------------------------------------------

  lemma {:induction false} StripLeftKeeps(s: string)
    ensures StripLeft(s) == s <==> s == [] || !IsSpace(s[0])
    ensures |StripLeft(s)| <= |s|
    ensures s != [] && IsSpace(s[0]) ==> |StripLeft(s)| < |s|
  {
    if s != [] && IsSpace(s[0]) {
      StripLeftKeeps(s[1..]);
    }
  }

  lemma {:induction false} StripRightKeeps(s: string)
    ensures StripRight(s) == s <==> s == [] || !IsSpace(s[|s| - 1])
    ensures |StripRight(s)| <= |s|
  {
    if s != [] && IsSpace(s[|s| - 1]) {
      StripRightKeeps(s[..|s| - 1]);
    }
  }

  /** A clean text is short enough, has no control characters, and no white space at either end. */
  lemma CleanTexts(s: string, maximum: nat)
    ensures IsClean(s, maximum) <==>
              && |s| <= maximum
              && (s != [] ==> !IsSpace(s[0]) && !IsSpace(s[|s| - 1]))
              && (forall c | c in s :: 32 <= c as int && c as int != 127)
  {
    StripLeftKeeps(s);
    StripRightKeeps(StripLeft(s));
    StripRightKeeps(s);
  }

  /** Trimming takes away the slashes at the end and nothing else. */
  ghost predicate IsTrimmed(given: string, trimmed: string) {
    && trimmed <= given
    && (forall i | |trimmed| <= i < |given| :: given[i] == '/')
    && (trimmed != [] ==> trimmed[|trimmed| - 1] != '/')
  }

  lemma {:induction false} TrimmingTakesSlashes(s: string)
    ensures IsTrimmed(s, TrimSlashes(s))
  {
    if s != [] && s[|s| - 1] == '/' {
      TrimmingTakesSlashes(s[..|s| - 1]);
    }
  }

  /** A public field that is given must be a clean text. */
  ghost predicate PublicFits(f: Fields, key: string, maximum: nat) {
    key in f ==> f[key].Str? && IsClean(f[key].s, maximum)
  }

  ghost predicate RequiredFits(f: Fields, key: string, maximum: nat) {
    key in f && PublicFits(f, key, maximum) && f[key].s != ""
  }

  ghost predicate IsGiven(f: Fields, key: string) {
    key in f && f[key] != Null && f[key] != Str("")
  }

  ghost predicate SecretFits(f: Fields, key: string) {
    IsGiven(f, key) ==> f[key].Str? && IsClean(f[key].s, 8192)
  }

  /** The value a public field has after an update. */
  ghost function NewText(f: Fields, key: string, before: Text): Text {
    if key in f && f[key].Str? then Some(f[key].s) else before
  }

  ghost predicate OriginTaken(f: Fields, key: string, before: Text, after: Text) {
    if key in f then f[key].Str? && after.Some? && IsTrimmed(f[key].s, after.value) else after == before
  }

  /** A given secret is stored; any other is kept exactly when it still belongs to the same identity. */
  ghost predicate SecretTaken(f: Fields, key: string, sameIdentity: bool, before: Text, after: Text) {
    if IsGiven(f, key) then f[key].Str? && after == Some(f[key].s)
    else after == if sameIdentity then before else None
  }

  ghost predicate FlagTaken(f: Fields, key: string, before: Option<bool>, after: Option<bool>) {
    if key !in f then after == before
    else if f[key] == Null then after == None
    else f[key].Bool? && after == Some(f[key].b)
  }

  ghost predicate NextfindAcceptable(p: Parser, c: Account, f: Fields) {
    && PublicFits(f, "base_url", 2048) && PublicFits(f, "username", 120) && SecretFits(f, "password")
    && (NewText(f, "base_url", c.url).Some? ==> p.isOrigin(NewText(f, "base_url", c.url).value))
  }

  ghost predicate NextfindTaken(f: Fields, before: Account, after: Account) {
    && OriginTaken(f, "base_url", before.url, after.url)
    && after.username == NewText(f, "username", before.username)
    && SecretTaken(f, "password", after.url == before.url && after.username == before.username,
                   before.password, after.password)
  }

  lemma NextfindMergeDecides(p: Parser, c: Account, f: Fields)
    requires c.url.Some? ==> TrimSlashes(c.url.value) == c.url.value
    ensures
      var m := MergeNextfind(p, c, f);
      && (m.Some? <==> NextfindAcceptable(p, c, f))
      && (m.Some? ==> NextfindTaken(f, c, m.value))
  {
    if "base_url" in f && f["base_url"].Str? {
      TrimmingTakesSlashes(f["base_url"].s);
    }
  }

  ghost predicate QbAcceptable(p: Parser, c: Downloader, f: Fields) {
    && PublicFits(f, "url", 2048) && PublicFits(f, "username", 120) && SecretFits(f, "password")
    && PublicFits(f, "save_path", 4096) && PublicFits(f, "category", 300)
    && ("allow_insecure_http" in f ==> f["allow_insecure_http"] == Null || f["allow_insecure_http"].Bool?)
    && (var url := NewText(f, "url", c.account.url);
        var allowed := if "allow_insecure_http" in f then f["allow_insecure_http"] == Bool(true)
                       else c.allowInsecureHttp == Some(true);
        url.Some? && url.value != "" ==> p.isQbUrl(url.value, allowed))
  }

  ghost predicate QbTaken(f: Fields, before: Downloader, after: Downloader) {
    && after.account.url == NewText(f, "url", before.account.url)
    && after.account.username == NewText(f, "username", before.account.username)
    && after.savePath == NewText(f, "save_path", before.savePath)
    && after.category == NewText(f, "category", before.category)
    && FlagTaken(f, "allow_insecure_http", before.allowInsecureHttp, after.allowInsecureHttp)
    && SecretTaken(f, "password",
                   after.account.url == before.account.url && after.account.username == before.account.username,
                   before.account.password, after.account.password)
  }

  lemma QbMergeDecides(p: Parser, c: Downloader, f: Fields)
    ensures
      var m := MergeQb(p, c, f);
      && (m.Some? <==> QbAcceptable(p, c, f))
      && (m.Some? ==> QbTaken(f, c, m.value))
  {
  }

  ghost predicate AvistazAcceptable(p: Parser, f: Fields) {
    && RequiredFits(f, "base_url", 2048) && p.isOrigin(f["base_url"].s)
    && RequiredFits(f, "username", 120) && SecretFits(f, "password") && SecretFits(f, "pid")
  }

  ghost predicate NexusphpAcceptable(p: Parser, f: Fields) {
    && RequiredFits(f, "site_id", 24) && IsSiteId(f["site_id"].s) && RequiredFits(f, "display_name", 100)
    && RequiredFits(f, "base_url", 2048) && p.isOrigin(f["base_url"].s)
    && SecretFits(f, "cookie") && SecretFits(f, "passkey")
  }

  ghost predicate AvistazTaken(f: Fields, before: Option<Site>, s: Site)
    requires NamesAvistaz(f)
  {
    var same := before.Some? && before.value.baseUrl == s.baseUrl && before.value.username == s.username;
    && s.architecture == Avistaz && s.siteId == "avistaz" && s.displayName == "AvistaZ"
    && IsTrimmed(f["base_url"].s, s.baseUrl) && s.username == Some(f["username"].s)
    && SecretTaken(f, "password", same, if before.Some? then before.value.password else None, s.password)
    && SecretTaken(f, "pid", same, if before.Some? then before.value.pid else None, s.pid)
    && s.cookie == None && s.passkey == None
  }

  ghost predicate NexusphpTaken(f: Fields, before: Option<Site>, s: Site)
    requires NamesNexusphp(f)
  {
    var same := before.Some? && before.value.baseUrl == s.baseUrl && before.value.siteId == s.siteId;
    && s.architecture == Nexusphp && s.siteId == f["site_id"].s && s.displayName == f["display_name"].s
    && IsTrimmed(f["base_url"].s, s.baseUrl)
    && SecretTaken(f, "cookie", same, if before.Some? then before.value.cookie else None, s.cookie)
    && SecretTaken(f, "passkey", same, if before.Some? then before.value.passkey else None, s.passkey)
    && s.username == None && s.password == None && s.pid == None
  }

  /** A site update replaces the site of its architecture, makes it active, and leaves the other one alone. */
  lemma SiteMergeDecides(p: Parser, c: Sites, f: Fields)
    ensures
      var m := MergeSites(p, c, f);
      var architecture := if "architecture" in f then f["architecture"] else Null;
      && (m.Some? <==>
            || (architecture == Str("avistaz") && AvistazAcceptable(p, f))
            || (architecture == Str("nexusphp") && NexusphpAcceptable(p, f)))
      && (m.Some? && architecture == Str("avistaz") ==>
            && m.value.active == Some(Avistaz) && m.value.nexusphp == c.nexusphp
            && m.value.avistaz.Some? && AvistazTaken(f, c.avistaz, m.value.avistaz.value))
      && (m.Some? && architecture == Str("nexusphp") ==>
            && m.value.active == Some(Nexusphp) && m.value.avistaz == c.avistaz
            && m.value.nexusphp.Some? && NexusphpTaken(f, c.nexusphp, m.value.nexusphp.value))
  {
    if "base_url" in f && f["base_url"].Str? {
      TrimmingTakesSlashes(f["base_url"].s);
    }
  }

  /** What an update may be, group by group. */
  ghost predicate Acceptable(p: Parser, c: Configuration, u: Updates) {
    && (forall name | name in u :: name in {"nextfind", "tmdb", "pt_site", "qbittorrent"})
    && NextfindAcceptable(p, c.nextfind, Group(u, "nextfind"))
    && SecretFits(Group(u, "tmdb"), "token")
    && QbAcceptable(p, c.qb, Group(u, "qbittorrent"))
    && SitesAcceptable(p, u)
  }

  ghost predicate SitesTaken(u: Updates, before: Sites, after: Sites) {
    if "pt_site" !in u then after == before
    else
      var f := u["pt_site"];
      && "architecture" in f
      && if f["architecture"] == Str("avistaz") then
           && NamesAvistaz(f) && after.active == Some(Avistaz) && after.nexusphp == before.nexusphp
           && after.avistaz.Some? && AvistazTaken(f, before.avistaz, after.avistaz.value)
         else
           && f["architecture"] == Str("nexusphp") && NamesNexusphp(f)
           && after.active == Some(Nexusphp) && after.avistaz == before.avistaz
           && after.nexusphp.Some? && NexusphpTaken(f, before.nexusphp, after.nexusphp.value)
  }

  ghost predicate NamesAvistaz(f: Fields) {
    "base_url" in f && f["base_url"].Str? && "username" in f && f["username"].Str?
  }

  ghost predicate NamesNexusphp(f: Fields) {
    && "base_url" in f && f["base_url"].Str? && "site_id" in f && f["site_id"].Str?
    && "display_name" in f && f["display_name"].Str?
  }

  /** A merge is its four parts. */
  lemma MergeParts(p: Parser, c: Configuration, u: Updates)
    ensures
      var nextfind, qb := MergeNextfind(p, c.nextfind, Group(u, "nextfind")), MergeQb(p, c.qb, Group(u, "qbittorrent"));
      var token := OptionalSecret(Group(u, "tmdb"), "token", c.tmdbToken);
      var sites := if "pt_site" in u then MergeSites(p, c.sites, u["pt_site"]) else Some(c.sites);
      && (Merge(p, c, u).Some? <==>
            && (forall name | name in u :: name in {"nextfind", "tmdb", "pt_site", "qbittorrent"})
            && nextfind.Some? && token.Some? && qb.Some? && sites.Some?)
      && (Merge(p, c, u).Some? ==>
            Merge(p, c, u).value == Configuration(nextfind.value, token.value, sites.value, qb.value))
  {
  }

  /** An update is accepted exactly when every field it gives is acceptable. */
  lemma MergeIsAcceptedExactly(p: Parser, c: Configuration, u: Updates)
    requires c.nextfind.url.Some? ==> TrimSlashes(c.nextfind.url.value) == c.nextfind.url.value
    ensures Merge(p, c, u).Some? <==> Acceptable(p, c, u)
  {
    MergeParts(p, c, u);
    NextfindMergeDecides(p, c.nextfind, Group(u, "nextfind"));
    QbMergeDecides(p, c.qb, Group(u, "qbittorrent"));
    SitesMergeDecides(p, c.sites, u);
  }

  /** What an accepted update makes of a configuration, field by field. */
  ghost predicate Taken(u: Updates, before: Configuration, after: Configuration) {
    && NextfindTaken(Group(u, "nextfind"), before.nextfind, after.nextfind)
    && SecretTaken(Group(u, "tmdb"), "token", true, before.tmdbToken, after.tmdbToken)
    && QbTaken(Group(u, "qbittorrent"), before.qb, after.qb)
    && SitesTaken(u, before.sites, after.sites)
  }

  /**
   After an accepted update, what it names is taken over and what it does not name
   stays. A secret it does not give is kept exactly when the address and the user or
   site it belongs to are unchanged, and the TMDB token always.
   */
  lemma MergeTakesFieldByField(p: Parser, c: Configuration, u: Updates)
    requires c.nextfind.url.Some? ==> TrimSlashes(c.nextfind.url.value) == c.nextfind.url.value
    requires Merge(p, c, u).Some?
    ensures Taken(u, c, Merge(p, c, u).value)
  {
    MergeParts(p, c, u);
    NextfindMergeDecides(p, c.nextfind, Group(u, "nextfind"));
    QbMergeDecides(p, c.qb, Group(u, "qbittorrent"));
    SitesMergeDecides(p, c.sites, u);
  }

  ghost predicate SitesAcceptable(p: Parser, u: Updates) {
    "pt_site" in u ==>
      var f := u["pt_site"];
      && "architecture" in f
      && (|| (f["architecture"] == Str("avistaz") && AvistazAcceptable(p, f))
          || (f["architecture"] == Str("nexusphp") && NexusphpAcceptable(p, f)))
  }

  lemma SitesMergeDecides(p: Parser, c: Sites, u: Updates)
    ensures
      var m := if "pt_site" in u then MergeSites(p, c, u["pt_site"]) else Some(c);
      (m.Some? <==> SitesAcceptable(p, u)) && (m.Some? ==> SitesTaken(u, c, m.value))
  {
    if "pt_site" in u {
      SiteMergeDecides(p, c, u["pt_site"]);
    }
  }

  /** The update that names nothing changes nothing. */
  lemma EmptyUpdateChangesNothing(p: Parser, c: Configuration)
    requires Fits(p, c)
    ensures Merge(p, c, map[]) == Some(c)
  {
    MergeIsAcceptedExactly(p, c, map[]);
    MergeTakesFieldByField(p, c, map[]);
  }

  // ---- Writing ----------------------------------------------------------------------

  function TextJson(t: Text): Json {
    if t.Some? then Str(t.value) else Null
  }

  function SiteJson(site: Option<Site>): Json {
    if site.None? then Null
    else
      var s := site.value;
      Obj(map["architecture" := Str(s.architecture.Name()), "base_url" := Str(s.baseUrl), "site_id" := Str(s.siteId),
              "display_name" := Str(s.displayName), "username" := TextJson(s.username),
              "password" := TextJson(s.password), "pid" := TextJson(s.pid), "cookie" := TextJson(s.cookie),
              "passkey" := TextJson(s.passkey)])
  }

  function SitesJson(s: Sites): Json {
    Obj(map["active_architecture" := if s.active.Some? then Str(s.active.value.Name()) else Null,
            "avistaz" := SiteJson(s.avistaz),
            "nexusphp" := SiteJson(s.nexusphp)])
  }

  function NextfindJson(a: Account): Json {
    Obj(map["base_url" := TextJson(a.url), "username" := TextJson(a.username), "password" := TextJson(a.password)])
  }

  function QbJson(d: Downloader): Json {
    Obj(map["url" := TextJson(d.account.url), "username" := TextJson(d.account.username),
            "password" := TextJson(d.account.password), "save_path" := TextJson(d.savePath),
            "category" := TextJson(d.category),
            "allow_insecure_http" := if d.allowInsecureHttp.Some? then Bool(d.allowInsecureHttp.value) else Null])
  }

  /** `_configuration_payload`. */
  function Payload(c: Configuration): Fields {
    map["version" := Int(2),
        "nextfind" := NextfindJson(c.nextfind),
        "tmdb" := Obj(map["token" := TextJson(c.tmdbToken)]),
        "pt_sites" := SitesJson(c.sites),
        "qbittorrent" := QbJson(c.qb)]
  }

  // ---- Loading ----------------------------------------------------------------------

  function Get(values: Fields, key: string): Json {
    if key in values then values[key] else Null
  }

  function Mapping(v: Json): Option<Fields> {
    if v.Obj? then Some(v.fields) else None
  }

  function StoredOptional(v: Json, maximum: nat): Option<Text> {
    match v
    case Null => Some(None)
    case Str(s) => if IsClean(s, maximum) then Some(Some(s)) else None
    case _ => None
  }

  function StoredRequired(v: Json, maximum: nat): Option<string> {
    match v
    case Str(s) => if IsClean(s, maximum) && s != "" then Some(s) else None
    case _ => None
  }

  function StoredOrigin(p: Parser, v: Json): Option<Text> {
    var stored :- StoredOptional(v, 2048);
    if stored.None? then Some(None)
    else
      var url :- ValidateOrigin(p, stored.value);
      Some(Some(url))
  }

  function StoredFlag(v: Json): Option<Option<bool>> {
    match v
    case Null => Some(None)
    case Bool(b) => Some(Some(b))
    case _ => None
  }

  function StoredAccount(urlFits: Option<Text>, username: Json, password: Json): Option<Account> {
    var url :- urlFits;
    var user :- StoredOptional(username, 120);
    var secret :- StoredOptional(password, 8192);
    Some(Account(url, user, secret))
  }

  datatype Credentials = Credentials(username: Text, password: Text, pid: Text, cookie: Text, passkey: Text)

  function StoredCredentials(site: Fields): Option<Credentials> {
    var username :- StoredOptional(Get(site, "username"), 120);
    var password :- StoredOptional(Get(site, "password"), 8192);
    var pid :- StoredOptional(Get(site, "pid"), 8192);
    var cookie :- StoredOptional(Get(site, "cookie"), 8192);
    var passkey :- StoredOptional(Get(site, "passkey"), 8192);
    Some(Credentials(username, password, pid, cookie, passkey))
  }

  function StoredAddress(p: Parser, v: Json): Option<string> {
    var stored :- StoredRequired(v, 2048);
    ValidateOrigin(p, stored)
  }

  /** A site out of its parts, unless one of them raised. */
  function AssembledSite(architecture: Architecture, url: Option<string>, siteId: Option<string>,
                         displayName: Option<string>, c: Option<Credentials>): Option<Site>
  {
    if url.Some? && siteId.Some? && displayName.Some? && c.Some? && IsSiteId(siteId.value) then
      Some(Site(architecture, url.value, siteId.value, displayName.value, c.value.username, c.value.password,
                c.value.pid, c.value.cookie, c.value.passkey))
    else None
  }

  /** `_stored_pt_site` for a stored object. */
  function StoredSite(p: Parser, v: Json, architecture: Architecture): Option<Site> {
    var site :- Mapping(v);
    if Get(site, "architecture") != Str(architecture.Name()) then None
    else
      AssembledSite(architecture, StoredAddress(p, Get(site, "base_url")), StoredRequired(Get(site, "site_id"), 24),
                    StoredRequired(Get(site, "display_name"), 100), StoredCredentials(site))
  }

  function StoredSiteOrNone(p: Parser, v: Json, architecture: Architecture): Option<Option<Site>> {
    if v.Null? then Some(None)
    else
      var site :- StoredSite(p, v, architecture);
      Some(Some(site))
  }

  function StoredActive(v: Json): Option<Option<Architecture>> {
    if v.Null? then Some(None)
    else if v == Str("avistaz") then Some(Some(Avistaz))
    else if v == Str("nexusphp") then Some(Some(Nexusphp))
    else None
  }

  function StoredSites(p: Parser, v: Json): Option<Sites> {
    var sites :- Mapping(v);
    AssembledSites(StoredActive(Get(sites, "active_architecture")),
                   StoredSiteOrNone(p, Get(sites, "avistaz"), Avistaz),
                   StoredSiteOrNone(p, Get(sites, "nexusphp"), Nexusphp))
  }

  /** The active architecture must have a site. */
  function AssembledSites(active: Option<Option<Architecture>>, avistaz: Option<Option<Site>>,
                          nexusphp: Option<Option<Site>>): Option<Sites>
  {
    if active.None? || avistaz.None? || nexusphp.None? then None
    else if active.value == Some(Avistaz) && avistaz.value.None? then None
    else if active.value == Some(Nexusphp) && nexusphp.value.None? then None
    else Some(Sites(active.value, avistaz.value, nexusphp.value))
  }

  function StoredNextfind(p: Parser, v: Json): Option<Account> {
    var fields :- Mapping(v);
    StoredAccount(StoredOrigin(p, Get(fields, "base_url")), Get(fields, "username"), Get(fields, "password"))
  }

  function StoredToken(v: Json): Option<Text> {
    var fields :- Mapping(v);
    StoredOptional(Get(fields, "token"), 8192)
  }

  function StoredQb(p: Parser, v: Json): Option<Downloader> {
    var fields :- Mapping(v);
    var account :- StoredAccount(StoredOptional(Get(fields, "url"), 2048),
                                 Get(fields, "username"), Get(fields, "password"));
    var savePath :- StoredOptional(Get(fields, "save_path"), 4096);
    var category :- StoredOptional(Get(fields, "category"), 300);
    var allow :- StoredFlag(Get(fields, "allow_insecure_http"));
    if QbUrlFits(p, account.url, allow) then Some(Downloader(account, savePath, category, allow)) else None
  }

  /** `_configuration_from_payload` for payloads of version 2; None when it raises. */
  function Load(p: Parser, payload: Fields): Option<Configuration> {
    if Get(payload, "version") != Int(2) then None
    else
      Assembled(StoredNextfind(p, Get(payload, "nextfind")), StoredToken(Get(payload, "tmdb")),
                StoredQb(p, Get(payload, "qbittorrent")), StoredSites(p, Get(payload, "pt_sites")))
  }

  /** The addresses the application settings give where version 1 stored none. */
  datatype Defaults = Defaults(nextfindBaseUrl: string, avistazBaseUrl: string)

  function StoredNextfindV1(p: Parser, v: Json, d: Defaults): Option<Account> {
    var fields :- Mapping(v);
    var stored :- StoredOptional(Get(fields, "base_url"), 2048);
    var url :- ValidateOrigin(p, if stored.Some? then stored.value else d.nextfindBaseUrl);
    StoredAccount(Some(Some(url)), Get(fields, "username"), Get(fields, "password"))
  }

  /** `_v1_avistaz_site`. */
  function StoredSitesV1(p: Parser, v: Json, d: Defaults): Option<Sites> {
    var fields :- Mapping(v);
    var c :- StoredCredentials(map["username" := Get(fields, "username"), "password" := Get(fields, "password"),
                                   "pid" := Get(fields, "pid")]);
    if c.username.None? && c.password.None? && c.pid.None? then Some(Sites(None, None, None))
    else
      var url :- ValidateOrigin(p, d.avistazBaseUrl);
      Some(Sites(Some(Avistaz),
                 Some(Site(Avistaz, url, "avistaz", "AvistaZ",
                           c.username, c.password, c.pid, c.cookie, c.passkey)),
                 None))
  }

  /** The same for payloads of version 1. */
  function LoadV1(p: Parser, payload: Fields, d: Defaults): Option<Configuration> {
    Assembled(StoredNextfindV1(p, Get(payload, "nextfind"), d), StoredToken(Get(payload, "tmdb")),
              StoredQb(p, Get(payload, "qbittorrent")), StoredSitesV1(p, Get(payload, "avistaz"), d))
  }

  /** `configuration`, for a file with this payload. */
  function LoadAny(p: Parser, payload: Fields, d: Defaults): Option<Configuration> {
    if Get(payload, "version") == Int(1) then LoadV1(p, payload, d) else Load(p, payload)
  }

  // ---- What merging keeps ----------------------------------------------------------------

  predicate TextFits(t: Text, maximum: nat) {
    t.Some? ==> IsClean(t.value, maximum)
  }

  predicate OriginFits(p: Parser, s: string) {
    p.isOrigin(s) && TrimSlashes(s) == s && s != ""
  }

  predicate SiteFits(p: Parser, s: Site, architecture: Architecture) {
    && s.architecture == architecture
    && OriginFits(p, s.baseUrl)
    && IsSiteId(s.siteId)
    && s.displayName != "" && IsClean(s.displayName, 100)
    && CredentialsFit(Credentials(s.username, s.password, s.pid, s.cookie, s.passkey))
  }

  predicate CredentialsFit(c: Credentials) {
    && TextFits(c.username, 120)
    && TextFits(c.password, 8192) && TextFits(c.pid, 8192)
    && TextFits(c.cookie, 8192) && TextFits(c.passkey, 8192)
  }

  predicate SitesFit(p: Parser, s: Sites) {
    && (s.avistaz.Some? ==> SiteFits(p, s.avistaz.value, Avistaz))
    && (s.nexusphp.Some? ==> SiteFits(p, s.nexusphp.value, Nexusphp))
    && (s.active == Some(Avistaz) ==> s.avistaz.Some?)
    && (s.active == Some(Nexusphp) ==> s.nexusphp.Some?)
  }

  predicate NextfindFits(p: Parser, a: Account) {
    && (a.url.Some? ==> OriginFits(p, a.url.value))
    && TextFits(a.username, 120) && TextFits(a.password, 8192)
  }

  predicate QbFits(p: Parser, d: Downloader) {
    && TextFits(d.account.url, 2048) && TextFits(d.account.username, 120) && TextFits(d.account.password, 8192)
    && TextFits(d.savePath, 4096) && TextFits(d.category, 300)
    && QbUrlFits(p, d.account.url, d.allowInsecureHttp)
  }

  /** Everything a configuration promises, but for white space at the end of an address. */
  predicate Fits(p: Parser, c: Configuration) {
    && NextfindFits(p, c.nextfind)
    && TextFits(c.tmdbToken, 8192)
    && SitesFit(p, c.sites)
    && QbFits(p, c.qb)
  }

  predicate SiteAddressesClean(s: Sites) {
    && (s.avistaz.Some? ==> IsClean(s.avistaz.value.baseUrl, 2048))
    && (s.nexusphp.Some? ==> IsClean(s.nexusphp.value.baseUrl, 2048))
  }

  predicate AddressesClean(c: Configuration) {
    TextFits(c.nextfind.url, 2048) && SiteAddressesClean(c.sites)
  }

  lemma MergedNextfindFits(p: Parser, c: Account, u: Fields)
    requires Sound(p)
    requires c.url.Some? ==> OriginFits(p, c.url.value)
    requires TextFits(c.username, 120) && TextFits(c.password, 8192)
    requires MergeNextfind(p, c, u).Some?
    ensures
      var m := MergeNextfind(p, c, u).value;
      && (m.url.Some? ==> OriginFits(p, m.url.value))
      && TextFits(m.username, 120) && TextFits(m.password, 8192)
  {
    MergedOriginFits(p, c.url, u);
    MergedTextsFit(u, c.username, c.password);
    MergedTextsFit(u, c.username, None);
  }

  lemma MergedOriginFits(p: Parser, current: Text, u: Fields)
    requires Sound(p) && (current.Some? ==> OriginFits(p, current.value))
    ensures
      var given := OptionalPublic(u, "base_url", current, 2048);
      given.Some? && given.value.Some? && ValidateOrigin(p, given.value.value).Some? ==>
        OriginFits(p, ValidateOrigin(p, given.value.value).value)
  {
    var given := OptionalPublic(u, "base_url", current, 2048);
    if given.Some? && given.value.Some? {
      TrimmingTwice(given.value.value);
    }
  }

  lemma MergedTextsFit(u: Fields, username: Text, password: Text)
    requires TextFits(username, 120) && TextFits(password, 8192)
    ensures
      var name, secret := OptionalPublic(u, "username", username, 120), OptionalSecret(u, "password", password);
      (name.Some? ==> TextFits(name.value, 120)) && (secret.Some? ==> TextFits(secret.value, 8192))
  {
  }

  lemma TrimmingTwice(s: string)
    ensures TrimSlashes(TrimSlashes(s)) == TrimSlashes(s)
  {
  }

  lemma SiteIdsAreClean(s: string)
    requires IsSiteId(s)
    ensures IsClean(s, 24) && s != ""
  {
    assert IsSiteIdChar(s[0]) && IsSiteIdChar(s[|s| - 1]);
  }

  lemma FixedNamesFit()
    ensures IsSiteId("avistaz") && IsClean("AvistaZ", 100)
  {
  }

  lemma MergedSecretFits(u: Fields, key: string, current: Text)
    requires TextFits(current, 8192) && OptionalSecret(u, key, current).Some?
    ensures TextFits(OptionalSecret(u, key, current).value, 8192)
  {
  }

  lemma AvistazSiteFits(p: Parser, url: string, username: string, password: Text, pid: Text)
    requires OriginFits(p, url) && IsClean(username, 120) && TextFits(password, 8192) && TextFits(pid, 8192)
    ensures SiteFits(p, Site(Avistaz, url, "avistaz", "AvistaZ", Some(username), password, pid, None, None), Avistaz)
  {
    FixedNamesFit();
  }

  lemma MergedAvistazFits(p: Parser, c: Option<Site>, u: Fields)
    requires Sound(p) && (c.Some? ==> SiteFits(p, c.value, Avistaz)) && MergeAvistaz(p, c, u).Some?
    ensures SiteFits(p, MergeAvistaz(p, c, u).value, Avistaz)
  {
    var m := MergeAvistaz(p, c, u).value;
    TrimmingTwice(RequiredPublic(u, "base_url", 2048).value);
    assert IsClean(m.username.value, 120);
    var same := c.Some? && c.value.baseUrl == m.baseUrl && c.value.username == m.username;
    MergedSecretFits(u, "password", if same then c.value.password else None);
    MergedSecretFits(u, "pid", if same then c.value.pid else None);
    AvistazSiteFits(p, m.baseUrl, m.username.value, m.password, m.pid);
  }

  lemma MergedNexusphpFits(p: Parser, c: Option<Site>, u: Fields)
    requires Sound(p) && (c.Some? ==> SiteFits(p, c.value, Nexusphp)) && MergeNexusphp(p, c, u).Some?
    ensures SiteFits(p, MergeNexusphp(p, c, u).value, Nexusphp)
  {
    var given := RequiredPublic(u, "base_url", 2048).value;
    TrimmingTwice(given);
    var m := MergeNexusphp(p, c, u).value;
    assert OriginFits(p, m.baseUrl);
    var same := c.Some? && c.value.siteId == m.siteId && c.value.baseUrl == TrimSlashes(given);
    MergedSecretFits(u, "cookie", if same then c.value.cookie else None);
    MergedSecretFits(u, "passkey", if same then c.value.passkey else None);
  }

  lemma MergedSitesFit(p: Parser, c: Sites, u: Fields)
    requires Sound(p) && SitesFit(p, c) && MergeSites(p, c, u).Some?
    ensures SitesFit(p, MergeSites(p, c, u).value)
  {
    if u["architecture"] == Str("avistaz") {
      MergedAvistazFits(p, c.avistaz, u);
    } else {
      MergedNexusphpFits(p, c.nexusphp, u);
    }
  }

  lemma MergedQbFits(p: Parser, d: Downloader, u: Fields)
    requires QbFits(p, d) && MergeQb(p, d, u).Some?
    ensures QbFits(p, MergeQb(p, d, u).value)
  {
  }

  lemma AssembledFits(p: Parser, nextfind: Option<Account>, token: Option<Text>, qb: Option<Downloader>,
                      sites: Option<Sites>)
    requires nextfind.Some? ==> NextfindFits(p, nextfind.value)
    requires token.Some? ==> TextFits(token.value, 8192)
    requires qb.Some? ==> QbFits(p, qb.value)
    requires sites.Some? ==> SitesFit(p, sites.value)
    ensures Assembled(nextfind, token, qb, sites).Some? ==> Fits(p, Assembled(nextfind, token, qb, sites).value)
  {
  }

  lemma MergeKeepsFits(p: Parser, c: Configuration, u: Updates)
    requires Sound(p) && Fits(p, c) && Merge(p, c, u).Some?
    ensures Fits(p, Merge(p, c, u).value)
  {
    var n := MergeNextfind(p, c.nextfind, Group(u, "nextfind"));
    var t := OptionalSecret(Group(u, "tmdb"), "token", c.tmdbToken);
    var q := MergeQb(p, c.qb, Group(u, "qbittorrent"));
    var s := if "pt_site" in u then MergeSites(p, c.sites, u["pt_site"]) else Some(c.sites);
    MergedNextfindFits(p, c.nextfind, Group(u, "nextfind"));
    MergedSecretFits(Group(u, "tmdb"), "token", c.tmdbToken);
    MergedQbFits(p, c.qb, Group(u, "qbittorrent"));
    if "pt_site" in u {
      MergedSitesFit(p, c.sites, u["pt_site"]);
    }
    AssembledFits(p, n, t, q, s);
  }

  // ---- What loading gives -------------------------------------------------------------------

  lemma StoredTextFits(v: Json, maximum: nat)
    ensures StoredOptional(v, maximum).Some? ==> TextFits(StoredOptional(v, maximum).value, maximum)
    ensures StoredRequired(v, maximum).Some? ==>
              StoredRequired(v, maximum).value != "" && IsClean(StoredRequired(v, maximum).value, maximum)
  {
  }

  lemma AssembledSiteFits(p: Parser, architecture: Architecture, url: Option<string>, siteId: Option<string>,
                          displayName: Option<string>, c: Option<Credentials>)
    requires url.Some? ==> OriginFits(p, url.value)
    requires displayName.Some? ==> displayName.value != "" && IsClean(displayName.value, 100)
    requires c.Some? ==> CredentialsFit(c.value)
    ensures var s := AssembledSite(architecture, url, siteId, displayName, c);
            s.Some? ==> SiteFits(p, s.value, architecture)
  {
  }

  lemma LoadedAddressFits(p: Parser, v: Json)
    requires Sound(p)
    ensures StoredAddress(p, v).Some? ==> OriginFits(p, StoredAddress(p, v).value)
  {
    if v.Str? {
      TrimmingTwice(v.s);
    }
  }

  lemma LoadedSiteFits(p: Parser, v: Json, architecture: Architecture)
    requires Sound(p) && StoredSite(p, v, architecture).Some?
    ensures SiteFits(p, StoredSite(p, v, architecture).value, architecture)
  {
    LoadedAddressFits(p, Get(v.fields, "base_url"));
    StoredTextFits(Get(v.fields, "display_name"), 100);
    if StoredCredentials(v.fields).Some? {
      LoadedCredentialsFit(v.fields);
    }
    AssembledSiteFits(p, architecture, StoredAddress(p, Get(v.fields, "base_url")),
                      StoredRequired(Get(v.fields, "site_id"), 24),
                      StoredRequired(Get(v.fields, "display_name"), 100), StoredCredentials(v.fields));
  }

  lemma LoadedCredentialsFit(site: Fields)
    requires StoredCredentials(site).Some?
    ensures CredentialsFit(StoredCredentials(site).value)
  {
    StoredTextFits(Get(site, "username"), 120);
    StoredTextFits(Get(site, "password"), 8192);
    StoredTextFits(Get(site, "pid"), 8192);
    StoredTextFits(Get(site, "cookie"), 8192);
    StoredTextFits(Get(site, "passkey"), 8192);
  }

  lemma LoadedSiteOrNoneFits(p: Parser, v: Json, architecture: Architecture)
    requires Sound(p)
    ensures var s := StoredSiteOrNone(p, v, architecture);
            s.Some? && s.value.Some? ==> SiteFits(p, s.value.value, architecture)
  {
    if StoredSite(p, v, architecture).Some? {
      LoadedSiteFits(p, v, architecture);
    }
  }

  lemma LoadedSitesFit(p: Parser, v: Json)
    requires Sound(p) && StoredSites(p, v).Some?
    ensures SitesFit(p, StoredSites(p, v).value)
  {
    LoadedSiteOrNoneFits(p, Get(v.fields, "avistaz"), Avistaz);
    LoadedSiteOrNoneFits(p, Get(v.fields, "nexusphp"), Nexusphp);
  }

  lemma LoadedSitesV1Fit(p: Parser, v: Json, d: Defaults)
    requires Sound(p) && StoredSitesV1(p, v, d).Some?
    ensures SitesFit(p, StoredSitesV1(p, v, d).value)
  {
    var fields := map["username" := Get(v.fields, "username"), "password" := Get(v.fields, "password"),
                      "pid" := Get(v.fields, "pid")];
    LoadedCredentialsFit(fields);
    if ValidateOrigin(p, d.avistazBaseUrl).Some? {
      SiteOfV1Fits(p, d, StoredCredentials(fields).value);
    }
  }

  lemma SiteOfV1Fits(p: Parser, d: Defaults, c: Credentials)
    requires Sound(p) && CredentialsFit(c) && ValidateOrigin(p, d.avistazBaseUrl).Some?
    ensures SiteFits(p, Site(Avistaz, ValidateOrigin(p, d.avistazBaseUrl).value, "avistaz", "AvistaZ",
                             c.username, c.password, c.pid, c.cookie, c.passkey), Avistaz)
  {
    FixedNamesFit();
    TrimmingTwice(d.avistazBaseUrl);
  }

  lemma LoadedNextfindFits(p: Parser, v: Json, d: Defaults)
    requires Sound(p)
    ensures StoredNextfind(p, v).Some? ==> NextfindFits(p, StoredNextfind(p, v).value)
    ensures StoredNextfindV1(p, v, d).Some? ==> NextfindFits(p, StoredNextfindV1(p, v, d).value)
  {
    if v.Obj? {
      var url, username, password := Get(v.fields, "base_url"), Get(v.fields, "username"), Get(v.fields, "password");
      LoadedOriginFits(p, url, d.nextfindBaseUrl);
      LoadedAccountFits(p, StoredOrigin(p, url), username, password);
      var stored := StoredOptional(url, 2048);
      if stored.Some? {
        var origin := ValidateOrigin(p, if stored.value.Some? then stored.value.value else d.nextfindBaseUrl);
        if origin.Some? {
          LoadedAccountFits(p, Some(Some(origin.value)), username, password);
        }
      }
    }
  }

  lemma LoadedOriginFits(p: Parser, v: Json, default: string)
    requires Sound(p)
    ensures StoredOrigin(p, v).Some? && StoredOrigin(p, v).value.Some? ==> OriginFits(p, StoredOrigin(p, v).value.value)
    ensures ValidateOrigin(p, default).Some? ==> OriginFits(p, ValidateOrigin(p, default).value)
    ensures v.Str? && ValidateOrigin(p, v.s).Some? ==> OriginFits(p, ValidateOrigin(p, v.s).value)
  {
    TrimmingTwice(default);
    if v.Str? {
      TrimmingTwice(v.s);
    }
  }

  lemma LoadedAccountFits(p: Parser, url: Option<Text>, username: Json, password: Json)
    requires url.Some? && url.value.Some? ==> OriginFits(p, url.value.value)
    ensures StoredAccount(url, username, password).Some? ==>
              NextfindFits(p, StoredAccount(url, username, password).value)
  {
  }

  lemma LoadedQbFits(p: Parser, v: Json)
    ensures StoredQb(p, v).Some? ==> QbFits(p, StoredQb(p, v).value)
  {
  }

  lemma LoadedTokenFits(v: Json)
    ensures StoredToken(v).Some? ==> TextFits(StoredToken(v).value, 8192)
  {
  }

  lemma LoadedV1Fits(p: Parser, payload: Fields, d: Defaults)
    requires Sound(p) && LoadV1(p, payload, d).Some?
    ensures Fits(p, LoadV1(p, payload, d).value)
  {
    var n, t := StoredNextfindV1(p, Get(payload, "nextfind"), d), StoredToken(Get(payload, "tmdb"));
    var q, s := StoredQb(p, Get(payload, "qbittorrent")), StoredSitesV1(p, Get(payload, "avistaz"), d);
    LoadedNextfindFits(p, Get(payload, "nextfind"), d);
    LoadedTokenFits(Get(payload, "tmdb"));
    LoadedQbFits(p, Get(payload, "qbittorrent"));
    LoadedSitesV1Fit(p, Get(payload, "avistaz"), d);
    AssembledFits(p, n, t, q, s);
  }

  lemma LoadedV2Fits(p: Parser, payload: Fields, d: Defaults)
    requires Sound(p) && Load(p, payload).Some?
    ensures Fits(p, Load(p, payload).value)
  {
    var n, t := StoredNextfind(p, Get(payload, "nextfind")), StoredToken(Get(payload, "tmdb"));
    var q, s := StoredQb(p, Get(payload, "qbittorrent")), StoredSites(p, Get(payload, "pt_sites"));
    LoadedNextfindFits(p, Get(payload, "nextfind"), d);
    LoadedTokenFits(Get(payload, "tmdb"));
    LoadedQbFits(p, Get(payload, "qbittorrent"));
    LoadedSitesFit(p, Get(payload, "pt_sites"));
    AssembledFits(p, n, t, q, s);
  }

  /** The text stored under a key, if there is one. */
  ghost function TextAt(v: Json, key: string): Text {
    if v.Obj? && key in v.fields && v.fields[key].Str? then Some(v.fields[key].s) else None
  }

  ghost predicate NextfindOfV1(v: Json, d: Defaults, a: Account) {
    && a.url.Some? && IsTrimmed(if TextAt(v, "base_url").Some? then TextAt(v, "base_url").value else d.nextfindBaseUrl,
                                a.url.value)
    && a.username == TextAt(v, "username") && a.password == TextAt(v, "password")
  }

  /** Version 1 knew one site only, at the address of the settings. */
  ghost predicate SitesOfV1(v: Json, d: Defaults, s: Sites) {
    var username, password, pid := TextAt(v, "username"), TextAt(v, "password"), TextAt(v, "pid");
    && s.nexusphp == None
    && if username == None && password == None && pid == None then s.avistaz == None && s.active == None
       else
         && s.active == Some(Avistaz) && s.avistaz.Some?
         && IsTrimmed(d.avistazBaseUrl, s.avistaz.value.baseUrl)
         && s.avistaz.value == Site(Avistaz, s.avistaz.value.baseUrl, "avistaz", "AvistaZ", username, password, pid,
                                    None, None)
  }

  ghost predicate QbOfV1(v: Json, q: Downloader) {
    && q.account.url == TextAt(v, "url")
    && q.account.username == TextAt(v, "username") && q.account.password == TextAt(v, "password")
    && q.savePath == TextAt(v, "save_path") && q.category == TextAt(v, "category")
    && q.allowInsecureHttp ==
       if v.Obj? && "allow_insecure_http" in v.fields && v.fields["allow_insecure_http"].Bool?
       then Some(v.fields["allow_insecure_http"].b) else None
  }

  /** What version 1 stored is taken over, field by field. */
  lemma VersionOneIsTakenOver(p: Parser, payload: Fields, d: Defaults)
    requires Get(payload, "version") == Int(1) && LoadAny(p, payload, d).Some?
    ensures
      var c := LoadAny(p, payload, d).value;
      && NextfindOfV1(Get(payload, "nextfind"), d, c.nextfind)
      && c.tmdbToken == TextAt(Get(payload, "tmdb"), "token")
      && QbOfV1(Get(payload, "qbittorrent"), c.qb)
      && SitesOfV1(Get(payload, "avistaz"), d, c.sites)
  {
    NextfindV1IsTakenOver(p, Get(payload, "nextfind"), d);
    QbIsTakenOver(p, Get(payload, "qbittorrent"));
    SitesV1AreTakenOver(p, Get(payload, "avistaz"), d);
  }

  lemma NextfindV1IsTakenOver(p: Parser, v: Json, d: Defaults)
    requires StoredNextfindV1(p, v, d).Some?
    ensures NextfindOfV1(v, d, StoredNextfindV1(p, v, d).value)
  {
    TrimmingTakesSlashes(if TextAt(v, "base_url").Some? then TextAt(v, "base_url").value else d.nextfindBaseUrl);
  }

  lemma QbIsTakenOver(p: Parser, v: Json)
    requires StoredQb(p, v).Some?
    ensures QbOfV1(v, StoredQb(p, v).value)
  {
  }

  lemma SitesV1AreTakenOver(p: Parser, v: Json, d: Defaults)
    requires StoredSitesV1(p, v, d).Some?
    ensures SitesOfV1(v, d, StoredSitesV1(p, v, d).value)
  {
    TrimmingTakesSlashes(d.avistazBaseUrl);
  }

  /** Whatever can be loaded, from either version, keeps every rule. */
  lemma LoadedConfigurationsFit(p: Parser, payload: Fields, d: Defaults)
    requires Sound(p) && LoadAny(p, payload, d).Some?
    ensures Fits(p, LoadAny(p, payload, d).value)
  {
    if Get(payload, "version") == Int(1) {
      LoadedV1Fits(p, payload, d);
    } else {
      LoadedV2Fits(p, payload, d);
    }
  }

  // ---- The round trip -----------------------------------------------------------------------

  lemma TextReadsBack(t: Text, maximum: nat)
    ensures StoredOptional(TextJson(t), maximum) == if TextFits(t, maximum) then Some(t) else None
  {
  }

  lemma SiteReadsBack(p: Parser, s: Site, architecture: Architecture)
    requires SiteFits(p, s, architecture)
    ensures StoredSite(p, SiteJson(Some(s)), architecture) == if IsClean(s.baseUrl, 2048) then Some(s) else None
  {
    var site := SiteJson(Some(s)).fields;
    CredentialsReadBack(s);
    IdentityReadsBack(p, s, architecture);
    assert StoredSite(p, SiteJson(Some(s)), architecture)
        == AssembledSite(architecture, StoredAddress(p, Get(site, "base_url")),
                         StoredRequired(Get(site, "site_id"), 24),
                         StoredRequired(Get(site, "display_name"), 100), StoredCredentials(site));
  }

  lemma IdentityReadsBack(p: Parser, s: Site, architecture: Architecture)
    requires SiteFits(p, s, architecture)
    ensures
      var site := SiteJson(Some(s)).fields;
      && Get(site, "architecture") == Str(architecture.Name())
      && StoredAddress(p, Get(site, "base_url")) == (if IsClean(s.baseUrl, 2048) then Some(s.baseUrl) else None)
      && StoredRequired(Get(site, "site_id"), 24) == Some(s.siteId)
      && StoredRequired(Get(site, "display_name"), 100) == Some(s.displayName)
  {
    SiteIdsAreClean(s.siteId);
  }

  lemma CredentialsReadBack(s: Site)
    requires CredentialsFit(Credentials(s.username, s.password, s.pid, s.cookie, s.passkey))
    ensures StoredCredentials(SiteJson(Some(s)).fields)
            == Some(Credentials(s.username, s.password, s.pid, s.cookie, s.passkey))
  {
    TextReadsBack(s.username, 120);
    TextReadsBack(s.password, 8192);
    TextReadsBack(s.pid, 8192);
    TextReadsBack(s.cookie, 8192);
    TextReadsBack(s.passkey, 8192);
  }

  lemma SiteOrNoneReadsBack(p: Parser, s: Option<Site>, architecture: Architecture)
    requires s.Some? ==> SiteFits(p, s.value, architecture)
    ensures StoredSiteOrNone(p, SiteJson(s), architecture)
            == if s.Some? ==> IsClean(s.value.baseUrl, 2048) then Some(s) else None
  {
    if s.Some? {
      SiteReadsBack(p, s.value, architecture);
    }
  }

  lemma ActiveReadsBack(a: Option<Architecture>)
    ensures StoredActive(if a.Some? then Str(a.value.Name()) else Null) == Some(a)
  {
  }

  lemma SitesReadBack(p: Parser, s: Sites)
    requires SitesFit(p, s)
    ensures StoredSites(p, SitesJson(s)) == if SiteAddressesClean(s) then Some(s) else None
  {
    SitePartsAreRead(p, s);
    ActiveReadsBack(s.active);
    SiteOrNoneReadsBack(p, s.avistaz, Avistaz);
    SiteOrNoneReadsBack(p, s.nexusphp, Nexusphp);
  }

  lemma SitePartsAreRead(p: Parser, s: Sites)
    ensures StoredSites(p, SitesJson(s))
            == AssembledSites(StoredActive(if s.active.Some? then Str(s.active.value.Name()) else Null),
                              StoredSiteOrNone(p, SiteJson(s.avistaz), Avistaz),
                              StoredSiteOrNone(p, SiteJson(s.nexusphp), Nexusphp))
  {
    var fields := SitesJson(s).fields;
    assert Get(fields, "active_architecture") == if s.active.Some? then Str(s.active.value.Name()) else Null;
    assert Get(fields, "avistaz") == SiteJson(s.avistaz) && Get(fields, "nexusphp") == SiteJson(s.nexusphp);
  }

  lemma NextfindReadsBack(p: Parser, a: Account)
    requires a.url.Some? ==> OriginFits(p, a.url.value)
    requires TextFits(a.username, 120) && TextFits(a.password, 8192)
    ensures StoredNextfind(p, NextfindJson(a)) == if TextFits(a.url, 2048) then Some(a) else None
  {
  }

  lemma QbReadsBack(p: Parser, d: Downloader)
    requires QbFits(p, d)
    ensures StoredQb(p, QbJson(d)) == Some(d)
  {
    TextReadsBack(d.account.url, 2048);
    TextReadsBack(d.account.username, 120);
    TextReadsBack(d.account.password, 8192);
    TextReadsBack(d.savePath, 4096);
    TextReadsBack(d.category, 300);
  }

  /**
   Loading the payload written for a configuration gives back that configuration
   exactly when none of its addresses ends in white space; otherwise loading fails.
   */
  lemma LoadingWhatWasWritten(p: Parser, c: Configuration)
    requires Fits(p, c)
    ensures Load(p, Payload(c)) == if AddressesClean(c) then Some(c) else None
  {
    var payload := Payload(c);
    assert Get(payload, "version") == Int(2);
    assert StoredNextfind(p, Get(payload, "nextfind"))
           == if TextFits(c.nextfind.url, 2048) then Some(c.nextfind) else None by {
      NextfindReadsBack(p, c.nextfind);
    }
    assert StoredToken(Get(payload, "tmdb")) == Some(c.tmdbToken) by {
      TextReadsBack(c.tmdbToken, 8192);
    }
    assert StoredQb(p, Get(payload, "qbittorrent")) == Some(c.qb) by {
      QbReadsBack(p, c.qb);
    }
    assert StoredSites(p, Get(payload, "pt_sites")) == if SiteAddressesClean(c.sites) then Some(c.sites) else None by {
      SitesReadBack(p, c.sites);
    }
  }

  // ---- Runs of merges ---------------------------------------------------------------------------

  /** The configuration after some updates; an update that is refused changes nothing. */
  function Apply(p: Parser, start: Configuration, us: seq<Updates>): Configuration {
    if us == [] then start
    else
      var c := Apply(p, start, us[..|us| - 1]);
      var merged := Merge(p, c, us[|us| - 1]);
      if merged.Some? then merged.value else c
  }

  lemma {:induction false} ReachableFits(p: Parser, start: Configuration, us: seq<Updates>)
    requires Sound(p) && Fits(p, start)
    ensures Fits(p, Apply(p, start, us))
  {
    if us != [] {
      ReachableFits(p, start, us[..|us| - 1]);
      var c := Apply(p, start, us[..|us| - 1]);
      if Merge(p, c, us[|us| - 1]).Some? {
        MergeKeepsFits(p, c, us[|us| - 1]);
      }
    }
  }

  /** The address a group of an update gives has no white space before its trailing slash. */
  predicate AddressGivenClean(u: Fields) {
    "base_url" in u && u["base_url"].Str? ==>
      TrimSlashes(u["base_url"].s) == Strip(TrimSlashes(u["base_url"].s))
  }

  predicate UpdateClean(u: Updates) {
    AddressGivenClean(Group(u, "nextfind")) && AddressGivenClean(Group(u, "pt_site"))
  }

  lemma TrimmedIsClean(s: string)
    requires IsClean(s, 2048)
    ensures IsClean(TrimSlashes(s), 2048) <==> TrimSlashes(s) == Strip(TrimSlashes(s))
  {
    var t := TrimSlashes(s);
    forall c | c in t ensures 32 <= c as int != 127 {
      assert c in s;
    }
  }

  lemma MergedSiteAddress(p: Parser, c: Sites, u: Fields)
    requires SiteAddressesClean(c) && MergeSites(p, c, u).Some?
    ensures SiteAddressesClean(MergeSites(p, c, u).value) <==> AddressGivenClean(u)
  {
    var given := RequiredPublic(u, "base_url", 2048);
    if given.Some? {
      TrimmedIsClean(given.value);
    }
    if u["architecture"] == Str("avistaz") {
      MergedAvistazAddress(p, c.avistaz, u);
    } else {
      MergedNexusphpAddress(p, c.nexusphp, u);
    }
  }

  lemma MergedAvistazAddress(p: Parser, c: Option<Site>, u: Fields)
    requires MergeAvistaz(p, c, u).Some?
    ensures RequiredPublic(u, "base_url", 2048).Some?
    ensures MergeAvistaz(p, c, u).value.baseUrl == TrimSlashes(RequiredPublic(u, "base_url", 2048).value)
  {
  }

  lemma MergedNexusphpAddress(p: Parser, c: Option<Site>, u: Fields)
    requires MergeNexusphp(p, c, u).Some?
    ensures RequiredPublic(u, "base_url", 2048).Some?
    ensures MergeNexusphp(p, c, u).value.baseUrl == TrimSlashes(RequiredPublic(u, "base_url", 2048).value)
  {
  }

  lemma MergedNextfindAddress(p: Parser, c: Account, u: Fields)
    requires c.url.Some? ==> OriginFits(p, c.url.value) && IsClean(c.url.value, 2048)
    requires MergeNextfind(p, c, u).Some?
    ensures TextFits(MergeNextfind(p, c, u).value.url, 2048) <==> AddressGivenClean(u)
  {
    if "base_url" in u {
      TrimmedIsClean(u["base_url"].s);
    }
  }

  /** An accepted update keeps the addresses clean exactly when those it gives are. */
  lemma MergeKeepsAddressesClean(p: Parser, c: Configuration, u: Updates)
    requires Fits(p, c) && AddressesClean(c) && Merge(p, c, u).Some?
    ensures AddressesClean(Merge(p, c, u).value) <==> UpdateClean(u)
  {
    MergedNextfindAddress(p, c.nextfind, Group(u, "nextfind"));
    if "pt_site" in u {
      MergedSiteAddress(p, c.sites, u["pt_site"]);
    }
  }

  lemma {:induction false} CleanUpdatesKeepAddressesClean(p: Parser, start: Configuration, us: seq<Updates>)
    requires Sound(p) && Fits(p, start) && AddressesClean(start)
    requires forall i | 0 <= i < |us| :: UpdateClean(us[i])
    ensures AddressesClean(Apply(p, start, us))
  {
    if us != [] {
      CleanUpdatesKeepAddressesClean(p, start, us[..|us| - 1]);
      ReachableFits(p, start, us[..|us| - 1]);
      var c := Apply(p, start, us[..|us| - 1]);
      if Merge(p, c, us[|us| - 1]).Some? {
        MergeKeepsAddressesClean(p, c, us[|us| - 1]);
      }
    }
  }

  /**
   Whatever was loaded at first, and whatever updates were merged since: the result
   is read back unless an address ends in white space.
   */
  lemma ReachableConfigurationsRoundTrip(p: Parser, start: Configuration, us: seq<Updates>)
    requires Sound(p) && Fits(p, start)
    ensures
      var c := Apply(p, start, us);
      && (Load(p, Payload(c)) == Some(c) <==> AddressesClean(c))
      && (AddressesClean(start) && (forall i | 0 <= i < |us| :: UpdateClean(us[i])) ==>
            Load(p, Payload(c)) == Some(c))
  {
    ReachableFits(p, start, us);
    LoadingWhatWasWritten(p, Apply(p, start, us));
    if AddressesClean(start) && forall i | 0 <= i < |us| :: UpdateClean(us[i]) {
      CleanUpdatesKeepAddressesClean(p, start, us);
    }
  }

  // ---- Secrets ------------------------------------------------------------------------------------

  datatype Secret = NextfindPassword | QbPassword | AvistazPassword | AvistazPid | NexusphpCookie | NexusphpPasskey {
    function GroupName(): string {
      if NextfindPassword? then "nextfind" else if QbPassword? then "qbittorrent" else "pt_site"
    }

    function Key(): string {
      match this
      case AvistazPid => "pid"
      case NexusphpCookie => "cookie"
      case NexusphpPasskey => "passkey"
      case _ => "password"
    }
  }

  function SiteText(s: Option<Site>, f: Site -> Text): Text {
    if s.Some? then f(s.value) else None
  }

  function SecretOf(c: Configuration, secret: Secret): Text {
    match secret
    case NextfindPassword => c.nextfind.password
    case QbPassword => c.qb.account.password
    case AvistazPassword => SiteText(c.sites.avistaz, (s: Site) => s.password)
    case AvistazPid => SiteText(c.sites.avistaz, (s: Site) => s.pid)
    case NexusphpCookie => SiteText(c.sites.nexusphp, (s: Site) => s.cookie)
    case NexusphpPasskey => SiteText(c.sites.nexusphp, (s: Site) => s.passkey)
  }

  /** The address and the user or site a secret belongs to. */
  function IdentityOf(c: Configuration, secret: Secret): (Text, Text) {
    match secret
    case NextfindPassword => (c.nextfind.url, c.nextfind.username)
    case QbPassword => (c.qb.account.url, c.qb.account.username)
    case AvistazPassword =>
      (SiteText(c.sites.avistaz, (s: Site) => Some(s.baseUrl)), SiteText(c.sites.avistaz, (s: Site) => s.username))
    case AvistazPid =>
      (SiteText(c.sites.avistaz, (s: Site) => Some(s.baseUrl)), SiteText(c.sites.avistaz, (s: Site) => s.username))
    case NexusphpCookie =>
      (SiteText(c.sites.nexusphp, (s: Site) => Some(s.baseUrl)),
       SiteText(c.sites.nexusphp, (s: Site) => Some(s.siteId)))
    case NexusphpPasskey =>
      (SiteText(c.sites.nexusphp, (s: Site) => Some(s.baseUrl)),
       SiteText(c.sites.nexusphp, (s: Site) => Some(s.siteId)))
  }

  predicate Supplies(u: Updates, secret: Secret, value: string) {
    Get(Group(u, secret.GroupName()), secret.Key()) == Str(value)
  }

  lemma MergedAccountsKeepSecretsBound(p: Parser, a: Account, u: Fields)
    ensures
      var m := MergeNextfind(p, a, u);
      m.Some? && m.value.password.Some? ==>
        Get(u, "password") == Str(m.value.password.value) || m.value == a
    ensures
      var m := MergeQbAccount(a, u);
      m.Some? && m.value.password.Some? ==>
        Get(u, "password") == Str(m.value.password.value) || m.value == a
  {
  }

  lemma MergedAvistazKeepsSecretsBound(p: Parser, c: Option<Site>, u: Fields)
    requires MergeAvistaz(p, c, u).Some?
    ensures
      var m := MergeAvistaz(p, c, u).value;
      var same := c.Some? && c.value.baseUrl == m.baseUrl && c.value.username == m.username;
      && (m.password.Some? ==>
            Get(u, "password") == Str(m.password.value) || (same && m.password == c.value.password))
      && (m.pid.Some? ==> Get(u, "pid") == Str(m.pid.value) || (same && m.pid == c.value.pid))
  {
  }

  lemma MergedNexusphpKeepsSecretsBound(p: Parser, c: Option<Site>, u: Fields)
    requires MergeNexusphp(p, c, u).Some?
    ensures
      var m := MergeNexusphp(p, c, u).value;
      var same := c.Some? && c.value.baseUrl == m.baseUrl && c.value.siteId == m.siteId;
      && (m.cookie.Some? ==> Get(u, "cookie") == Str(m.cookie.value) || (same && m.cookie == c.value.cookie))
      && (m.passkey.Some? ==> Get(u, "passkey") == Str(m.passkey.value) || (same && m.passkey == c.value.passkey))
  {
  }

  /** A secret is either given by the update, or kept together with its identity. */
  lemma MergeKeepsSecretsBound(p: Parser, c: Configuration, u: Updates, secret: Secret)
    requires Merge(p, c, u).Some? && SecretOf(Merge(p, c, u).value, secret).Some?
    ensures
      var merged := Merge(p, c, u).value;
      || Supplies(u, secret, SecretOf(merged, secret).value)
      || (SecretOf(merged, secret) == SecretOf(c, secret) && IdentityOf(merged, secret) == IdentityOf(c, secret))
  {
    if secret.NextfindPassword? {
      MergedAccountsKeepSecretsBound(p, c.nextfind, Group(u, "nextfind"));
    } else if secret.QbPassword? {
      MergedAccountsKeepSecretsBound(p, c.qb.account, Group(u, "qbittorrent"));
      MergedQbAccount(p, c.qb, Group(u, "qbittorrent"));
    } else if "pt_site" in u {
      MergedSitesKeepSecretsBound(p, c, u, secret);
    }
  }

  lemma MergedQbAccount(p: Parser, d: Downloader, u: Fields)
    requires MergeQb(p, d, u).Some?
    ensures MergeQbAccount(d.account, u) == Some(MergeQb(p, d, u).value.account)
  {
  }

  lemma MergedSitesKeepSecretsBound(p: Parser, c: Configuration, u: Updates, secret: Secret)
    requires !secret.NextfindPassword? && !secret.QbPassword? && "pt_site" in u
    requires MergeSites(p, c.sites, u["pt_site"]).Some?
    ensures
      var merged := c.(sites := MergeSites(p, c.sites, u["pt_site"]).value);
      SecretOf(merged, secret).Some? ==>
        || Supplies(u, secret, SecretOf(merged, secret).value)
        || (SecretOf(merged, secret) == SecretOf(c, secret) && IdentityOf(merged, secret) == IdentityOf(c, secret))
  {
    if u["pt_site"]["architecture"] == Str("avistaz") {
      MergedAvistazKeepsSecretsBound(p, c.sites.avistaz, u["pt_site"]);
    } else {
      MergedNexusphpKeepsSecretsBound(p, c.sites.nexusphp, u["pt_site"]);
    }
  }

  /** The k-th update supplied this value, was accepted, and left the identity that the secret has now. */
  predicate GivenUnder(p: Parser, start: Configuration, us: seq<Updates>, k: nat, secret: Secret, value: string,
                       identity: (Text, Text))
    requires k < |us|
  {
    && Supplies(us[k], secret, value)
    && Merge(p, Apply(p, start, us[..k]), us[k]).Some?
    && SecretOf(Apply(p, start, us[..k + 1]), secret) == Some(value)
    && IdentityOf(Apply(p, start, us[..k + 1]), secret) == identity
  }

  /**
   Over every sequence of merges: a secret that is stored now was supplied by one of
   the updates under exactly the identity it is stored with now, or was there from the
   start together with that identity. Nothing is there from the start when it is empty.
   */
  lemma {:induction false} SecretsStayWithTheirIdentity(p: Parser, start: Configuration, us: seq<Updates>,
                                                        secret: Secret)
    requires SecretOf(Apply(p, start, us), secret).Some?
    ensures
      var value, identity := SecretOf(Apply(p, start, us), secret).value, IdentityOf(Apply(p, start, us), secret);
      || (exists k :: 0 <= k < |us| && GivenUnder(p, start, us, k, secret, value, identity))
      || (SecretOf(start, secret) == Some(value) && IdentityOf(start, secret) == identity)
    ensures start == EMPTY ==> SecretOf(start, secret).None?
  {
    if us != [] {
      var n := |us| - 1;
      var value, identity := SecretOf(Apply(p, start, us), secret).value, IdentityOf(Apply(p, start, us), secret);
      LastUpdateOrBefore(p, start, us, secret);
      if GivenUnder(p, start, us, n, secret, value, identity) {
      } else {
        SecretsStayWithTheirIdentity(p, start, us[..n], secret);
        if k :| 0 <= k < n && GivenUnder(p, start, us[..n], k, secret, value, identity) {
          EarlierUpdatesStay(p, start, us, n, k, secret, value, identity);
        }
      }
    }
  }

  lemma LastUpdateOrBefore(p: Parser, start: Configuration, us: seq<Updates>, secret: Secret)
    requires us != [] && SecretOf(Apply(p, start, us), secret).Some?
    ensures
      var n := |us| - 1;
      || GivenUnder(p, start, us, n, secret,
                    SecretOf(Apply(p, start, us), secret).value, IdentityOf(Apply(p, start, us), secret))
      || (SecretOf(Apply(p, start, us[..n]), secret) == SecretOf(Apply(p, start, us), secret)
          && IdentityOf(Apply(p, start, us[..n]), secret) == IdentityOf(Apply(p, start, us), secret))
  {
    var n := |us| - 1;
    assert us[..n + 1] == us;
    var c := Apply(p, start, us[..n]);
    if Merge(p, c, us[n]).Some? {
      assert Apply(p, start, us) == Merge(p, c, us[n]).value;
      MergeKeepsSecretsBound(p, c, us[n], secret);
    }
  }

  lemma EarlierUpdatesStay(p: Parser, start: Configuration, us: seq<Updates>, n: nat, k: nat, secret: Secret,
                           value: string, identity: (Text, Text))
    requires k < n <= |us| && GivenUnder(p, start, us[..n], k, secret, value, identity)
    ensures GivenUnder(p, start, us, k, secret, value, identity)
  {
    assert us[..n][..k] == us[..k] && us[..n][..k + 1] == us[..k + 1];
  }

  // ---- Where the round trip fails -------------------------------------------------------------------

  /** A parser that knows plain https origins only: a scheme, a host of any other characters, perhaps a slash. */
  predicate PlainOrigin(s: string) {
    && |s| > 8 && s[..8] == "https://"
    && (var host := if s[|s| - 1] == '/' then s[8..|s| - 1] else s[8..];
        host != "" && forall c | c in host :: c !in "/?#@:[]")
  }

  const PLAIN := Parser(s => PlainOrigin(s), (s, insecure) => PlainOrigin(s))

  /** Such a parser meets the one assumption made about parsers. */
  lemma PlainIsSound()
    ensures Sound(PLAIN)
  {
    forall s | PlainOrigin(s) ensures PlainOrigin(TrimSlashes(s)) && TrimSlashes(s) != [] {
      if s[|s| - 1] == '/' {
        var host, t := s[8..|s| - 1], s[..|s| - 1];
        assert host[|host| - 1] in host && t[|t| - 1] == host[|host| - 1];
        assert '/' in "/?#@:[]" by {
          assert "/?#@:[]"[0] == '/';
        }
        assert host[|host| - 1] != '/';
        assert t[|t| - 1] != '/';
        assert TrimSlashes(s) == t;
        assert t[..8] == "https://" && t[8..] == host;
      }
    }
  }

  const SPACED := "https://host /"

  lemma SpacedIsClean()
    ensures IsClean(SPACED, 2048)
  {
    assert SPACED[0] == 'h' && SPACED[|SPACED| - 1] == '/';
    assert StripLeft(SPACED) == SPACED && StripRight(SPACED) == SPACED;
    forall c | c in SPACED ensures 32 <= c as int != 127 {
      var i :| 0 <= i < |SPACED| && SPACED[i] == c;
    }
  }

  lemma SpacedIsOrigin()
    ensures PlainOrigin(SPACED) && TrimSlashes(SPACED) == "https://host " && PlainOrigin("https://host ")
  {
    var t := "https://host ";
    assert SPACED[..8] == "https://" && SPACED[8..|SPACED| - 1] == "host ";
    assert SPACED[..|SPACED| - 1] == t && t[|t| - 1] == ' ';
    assert t[..8] == "https://" && t[8..] == "host ";
  }

  lemma TrimmedIsNotClean()
    ensures !IsClean("https://host ", 2048)
  {
    var t := "https://host ";
    assert t[0] == 'h' && t[|t| - 1] == ' ';
    assert StripLeft(t) == t;
    assert |StripRight(t)| < |t| by {
      StripRightShrinks(t[..|t| - 1]);
    }
  }

  lemma {:induction false} StripRightShrinks(s: string)
    ensures |StripRight(s)| <= |s|
  {
    if s != [] && IsSpace(s[|s| - 1]) {
      StripRightShrinks(s[..|s| - 1]);
    }
  }

  /** An address with a space before its trailing slash is accepted, and what is written cannot be loaded again. */
  lemma SpaceBeforeTheSlashIsNotReadBack()
    ensures Sound(PLAIN)
    ensures
      var update: Updates := map["nextfind" := map["base_url" := Str(SPACED)]];
      && Merge(PLAIN, EMPTY, update).Some?
      && Load(PLAIN, Payload(Merge(PLAIN, EMPTY, update).value)) == None
  {
    PlainIsSound();
    var merged := EMPTY.(nextfind := Account(Some(TrimSlashes(SPACED)), None, None));
    SpacedUpdateIsMerged();
    SpacedIsNotLoaded();
    assert Get(Payload(merged), "nextfind") == NextfindJson(merged.nextfind);
  }

  lemma SpacedUpdateIsMerged()
    ensures Merge(PLAIN, EMPTY, map["nextfind" := map["base_url" := Str(SPACED)]])
            == Some(EMPTY.(nextfind := Account(Some(TrimSlashes(SPACED)), None, None)))
  {
    var u: Fields := map["base_url" := Str(SPACED)];
    var update: Updates := map["nextfind" := u];
    SpacedIsMerged(u);
    assert Group(update, "qbittorrent") == map[] && Group(update, "tmdb") == map[];
    assert MergeQb(PLAIN, EMPTY.qb, map[]) == Some(EMPTY.qb);
  }

  lemma SpacedIsMerged(u: Fields)
    requires u == map["base_url" := Str(SPACED)]
    ensures MergeNextfind(PLAIN, EMPTY.nextfind, u) == Some(Account(Some(TrimSlashes(SPACED)), None, None))
  {
    SpacedIsClean();
    SpacedIsOrigin();
  }

  lemma SpacedIsNotLoaded()
    ensures StoredNextfind(PLAIN, NextfindJson(Account(Some(TrimSlashes(SPACED)), None, None))) == None
  {
    SpacedIsOrigin();
    TrimmedIsNotClean();
    var url := TrimSlashes(SPACED);
    assert StoredOptional(TextJson(Some(url)), 2048) == None;
  }

  /** What the next start reads after an accepted update. */
  lemma SavedIsReadBack(p: Parser, d: Defaults, c: Configuration, u: Updates)
    requires Sound(p) && Fits(p, c) && Merge(p, c, u).Some?
    ensures
      var merged := Merge(p, c, u).value;
      && LoadAny(p, Payload(merged), d) == (if AddressesClean(merged) then Some(merged) else None)
      && (AddressesClean(c) ==> (AddressesClean(merged) <==> UpdateClean(u)))
  {
    var merged := Merge(p, c, u).value;
    MergeKeepsFits(p, c, u);
    LoadingWhatWasWritten(p, merged);
    assert Get(Payload(merged), "version") == Int(2);
    if AddressesClean(c) {
      MergeKeepsAddressesClean(p, c, u);
    }
  }

  // ---- The store --------------------------------------------------------------------------------------

  const MAX_CONFIG_BYTES := 64 * 1024

  /** The integrations file: its JSON object, and how many bytes its text has. */
  datatype File = File(payload: Fields, bytes: nat)

  /** `RuntimeConfigStore`, as far as the integrations file goes. */
  class RuntimeConfigStore {
    const parser: Parser
    const defaults: Defaults
    /** The length of the JSON text that a payload is written as. */
    const written: Fields -> nat
    var file: Option<File>

    constructor (parser: Parser, defaults: Defaults, written: Fields -> nat, file: Option<File>)
      requires Sound(parser)
      ensures this.parser == parser && this.defaults == defaults && this.written == written && this.file == file
    {
      this.parser, this.defaults, this.written, this.file := parser, defaults, written, file;
    }

    /** What `configuration` answers; None when it raises. */
    function Current(): Option<Configuration>
      reads this
    {
      if file.None? then Some(EMPTY)
      else if file.value.bytes > MAX_CONFIG_BYTES then None
      else LoadAny(parser, file.value.payload, defaults)
    }

    lemma CurrentFits()
      requires Sound(parser) && Current().Some?
      ensures Fits(parser, Current().value)
    {
      if file.Some? {
        LoadedConfigurationsFit(parser, file.value.payload, defaults);
      }
    }

    /** `_atomic_replace_json`: refuses a text that could not be read again for its size. */
    method Replace(payload: Fields) returns (ok: bool)
      modifies this
      ensures ok <==> written(payload) <= MAX_CONFIG_BYTES
      ensures file == if ok then Some(File(payload, written(payload))) else old(file)
    {
      if written(payload) > MAX_CONFIG_BYTES {
        return false;
      }
      file := Some(File(payload, written(payload)));
      return true;
    }

    /**
     `save_configuration`, on any file. A file that cannot be read, a refused update
     and a result that is too large leave it alone; every other update is written,
     and can be read back exactly when no address of the result ends in white space.
     */
    method SaveConfiguration(u: Updates) returns (r: Option<Configuration>)
      requires Sound(parser)
      modifies this
      ensures
        var merged := if old(Current()).None? then None else Merge(parser, old(Current()).value, u);
        r == if merged.None? || written(Payload(merged.value)) > MAX_CONFIG_BYTES then None else merged
      ensures r.Some? ==>
                && old(Current()).Some? && Acceptable(parser, old(Current()).value, u)
                && Taken(u, old(Current()).value, r.value)
      ensures old(Current()).Some? ==>
                (Merge(parser, old(Current()).value, u).Some? <==> Acceptable(parser, old(Current()).value, u))
      ensures r.None? ==> file == old(file)
      ensures r.Some? ==> file == Some(File(Payload(r.value), written(Payload(r.value))))
      ensures r.Some? ==> Current() == if AddressesClean(r.value) then r else None
      ensures r.Some? && AddressesClean(old(Current()).value) ==> (Current() == r <==> UpdateClean(u))
    {
      var current := Current();
      if current.None? {
        return None;
      }
      CurrentFits();
      MergeIsAcceptedExactly(parser, current.value, u);
      var merged := Merge(parser, current.value, u);
      if merged.None? {
        return None;
      }
      MergeTakesFieldByField(parser, current.value, u);
      SavedIsReadBack(parser, defaults, current.value, u);
      var ok := Replace(Payload(merged.value));
      return if ok then merged else None;
    }
  }
}
