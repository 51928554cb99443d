/** The two cookie adapters: `cookie_to_dict`, which copies a browser
    cookie into a dictionary and drops an out-of-range expiry, and
    `format_cookie_for_playwright`, which turns such a dictionary into the
    six-key form the browser context accepts. */
module Cookies {
  import opened Common

  /** The dictionary values the adapters handle: Python's `None`, booleans,
      integers and strings. */
  datatype Value = VNone | VBool(b: bool) | VInt(i: int) | VStr(s: string)

  /** The dictionary keys the adapters write or read, each standing for the
      Python string beside it; any other key is `Other`. The model never
      builds `Other` with one of the listed strings, so each Python key has
      exactly one representation in the dictionaries reasoned about here. */
  datatype Key =
    | Name            // "name"
    | ValueKey        // "value"
    | Domain          // "domain"
    | Path            // "path"
    | Expires         // "expires"
    | Secure          // "secure"
    | Version         // "version"
    | Port            // "port"
    | DomainInitialDot  // "domain_initial_dot"
    | PathSpecified   // "path_specified"
    | DomainSpecified // "domain_specified"
    | Discard         // "discard"
    | Comment         // "comment"
    | CommentUrl      // "comment_url"
    | Rfc2109         // "rfc2109"
    | SameSite        // "sameSite"
    | Other(text: string)

  /** The largest Unix timestamp `cookie_to_dict` accepts. */
  const MaxTimestamp: int := 2147483647

  /** The cookie the script authenticates with, and the name it defaults to. */
  const EssentialCookieName: string := "checker"

  /** The attributes of a browser cookie that `cookie_to_dict` reads; the
      optional ones are `None` in the cookie store when unset. */
  datatype BrowserCookie = BrowserCookie(
    name: string,
    value: Option<string>,
    domain: string,
    path: string,
    expires: Option<int>,
    secure: bool,
    version: Option<int>,
    port: Option<string>,
    domainInitialDot: bool,
    pathSpecified: bool,
    domainSpecified: bool,
    discard: bool,
    comment: Option<string>,
    commentUrl: Option<string>,
    rfc2109: bool)

  function StrOrNone(s: Option<string>): Value {
    if s.None? then VNone else VStr(s.value)
  }

  function IntOrNone(n: Option<int>): Value {
    if n.None? then VNone else VInt(n.value)
  }

  /** The keys of the dictionary `cookie_to_dict` builds. */
  const CookieKeys: set<Key> := {
    Name, ValueKey, Domain, Path, Expires, Secure, Version, Port,
    DomainInitialDot, PathSpecified, DomainSpecified, Discard,
    Comment, CommentUrl, Rfc2109}

  /** The keys of the dictionary `format_cookie_for_playwright` builds. */
  const PlaywrightKeys: set<Key> := {Name, ValueKey, Domain, Path, Expires, SameSite}

  /** The expiry `cookie_to_dict` stores: a truthy expiry before 1970 or
      past 2^31 - 1 is replaced by `None`. */
  function StoredExpiry(expires: Option<int>): Value {
    if expires.Some? && expires.value != 0 &&
       (expires.value < 0 || expires.value > MaxTimestamp)
    then VNone
    else IntOrNone(expires)
  }

  /** The value `cookie_to_dict` writes under each of its keys. */
  function Attribute(c: BrowserCookie, key: Key): Value {
    match key
    case Name => VStr(c.name)
    case ValueKey => StrOrNone(c.value)
    case Domain => VStr(c.domain)
    case Path => VStr(c.path)
    case Expires => StoredExpiry(c.expires)
    case Secure => VBool(c.secure)
    case Version => IntOrNone(c.version)
    case Port => StrOrNone(c.port)
    case DomainInitialDot => VBool(c.domainInitialDot)
    case PathSpecified => VBool(c.pathSpecified)
    case DomainSpecified => VBool(c.domainSpecified)
    case Discard => VBool(c.discard)
    case Comment => StrOrNone(c.comment)
    case CommentUrl => StrOrNone(c.commentUrl)
    case Rfc2109 => VBool(c.rfc2109)
    case _ => VNone
  }

  /** `cookie_to_dict`: the dictionary of the fifteen attributes, with an
      out-of-range expiry replaced by `None`. */
  function CookieToDict(c: BrowserCookie): (d: map<Key, Value>)
    ensures Expires in d
    ensures d[Expires] == VNone ||
      (d[Expires].VInt? && 0 <= d[Expires].i <= MaxTimestamp)
    ensures d[Expires] == VNone <==>
      c.expires.None? || c.expires.value < 0 || c.expires.value > MaxTimestamp
    ensures d[Expires] != VNone ==> d[Expires] == VInt(c.expires.value)
  {
    map key | key in CookieKeys :: Attribute(c, key)
  }

  /** The dictionary holds exactly the fifteen attribute keys, and copies
      the name, value, domain and path unchanged. */
  lemma CookieToDictKeys(c: BrowserCookie)
    ensures CookieToDict(c).Keys == CookieKeys
    ensures var d := CookieToDict(c);
      && d[Name] == VStr(c.name) && d[ValueKey] == StrOrNone(c.value)
      && d[Domain] == VStr(c.domain) && d[Path] == VStr(c.path)
  {
  }

  /** The six flags are copied unchanged. */
  lemma CookieToDictFlags(c: BrowserCookie)
    ensures var d := CookieToDict(c);
      && Secure in d && DomainInitialDot in d && PathSpecified in d
      && DomainSpecified in d && Discard in d && Rfc2109 in d
    ensures var d := CookieToDict(c);
      && d[Secure] == VBool(c.secure) && d[DomainInitialDot] == VBool(c.domainInitialDot)
      && d[PathSpecified] == VBool(c.pathSpecified) && d[DomainSpecified] == VBool(c.domainSpecified)
      && d[Discard] == VBool(c.discard) && d[Rfc2109] == VBool(c.rfc2109)
  {
  }

  /** The four optional attributes are copied unchanged, `None` when unset. */
  lemma CookieToDictOptionals(c: BrowserCookie)
    ensures var d := CookieToDict(c);
      && Version in d && Port in d && Comment in d && CommentUrl in d
    ensures var d := CookieToDict(c);
      && d[Version] == IntOrNone(c.version) && d[Port] == StrOrNone(c.port)
      && d[Comment] == StrOrNone(c.comment) && d[CommentUrl] == StrOrNone(c.commentUrl)
  {
  }

  /** `d.get(key)`: the value, or `None` when the key is missing. */
  function Get(d: map<Key, Value>, key: Key): Value {
    if key in d then d[key] else VNone
  }

  /** `expires is None or expires == 0`; in Python `False == 0` holds too. */
  predicate IsSessionExpiry(v: Value) {
    v == VNone || v == VInt(0) || v == VBool(false)
  }

  /** `format_cookie_for_playwright`: `None` or an empty dictionary gives
      `{}`; otherwise a session expiry becomes -1, a missing name becomes
      `"checker"`, and `sameSite` is `"Lax"`. */
  function FormatCookieForPlaywright(cookie: Option<map<Key, Value>>): (r: map<Key, Value>)
    ensures r == map[] <==> cookie.None? || cookie.value == map[]
    ensures r != map[] ==> r.Keys == PlaywrightKeys
    ensures r != map[] ==>
      && r[SameSite] == VStr("Lax")
      && r[ValueKey] == Get(cookie.value, ValueKey)
      && r[Domain] == Get(cookie.value, Domain)
      && r[Path] == Get(cookie.value, Path)
    ensures r != map[] ==>
      r[Name] == if Name in cookie.value then cookie.value[Name] else VStr(EssentialCookieName)
    ensures r != map[] ==>
      && !IsSessionExpiry(r[Expires])
      && (r[Expires] == VInt(-1) <==> IsSessionExpiry(Get(cookie.value, Expires)) || Get(cookie.value, Expires) == VInt(-1))
      && (!IsSessionExpiry(Get(cookie.value, Expires)) ==> r[Expires] == cookie.value[Expires])
  {
    if cookie.None? || cookie.value == map[] then map[]
    else
      var d := cookie.value;
      var expires := if IsSessionExpiry(Get(d, Expires)) then VInt(-1) else Get(d, Expires);
      var r := map[
        Name := if Name in d then d[Name] else VStr(EssentialCookieName),
        ValueKey := Get(d, ValueKey),
        Domain := Get(d, Domain),
        Path := Get(d, Path),
        Expires := expires,
        SameSite := VStr("Lax")];
      assert SameSite in r;
      r
  }

  /** A cookie read from the browser and formatted for the browser context
      keeps its name, value, domain and path, and its expiry is either -1
      (a session cookie) or a timestamp in 1..2^31 - 1. */
  lemma BrowserCookieForPlaywright(c: BrowserCookie)
    ensures var r := FormatCookieForPlaywright(Some(CookieToDict(c)));
      && r.Keys == PlaywrightKeys
      && r[Name] == VStr(c.name) && r[ValueKey] == StrOrNone(c.value)
      && r[Domain] == VStr(c.domain) && r[Path] == VStr(c.path)
      && r[SameSite] == VStr("Lax")
      && (r[Expires] == VInt(-1) || (r[Expires].VInt? && 1 <= r[Expires].i <= MaxTimestamp))
    ensures c.expires.Some? && 1 <= c.expires.value <= MaxTimestamp ==>
      FormatCookieForPlaywright(Some(CookieToDict(c)))[Expires] == VInt(c.expires.value)
  {
    CookieToDictKeys(c);
  }

  /** Formatting an already formatted cookie changes nothing. */
  lemma FormatIdempotent(cookie: Option<map<Key, Value>>)
    ensures var r := FormatCookieForPlaywright(cookie);
      FormatCookieForPlaywright(Some(r)) == r
  {
    var r := FormatCookieForPlaywright(cookie);
    if r != map[] {
      var r2 := FormatCookieForPlaywright(Some(r));
      assert r2.Keys == r.Keys;
      assert forall k :: k in r ==> r2[k] == r[k];
    }
  }
}
