/**
 The one proxy URL of telkap/proxy.py and the two forms it is handed on in. The
 URL is taken apart the way `urllib.parse` does; whether a bracketed host is a
 valid address is a parameter.
 */
module ProxyUrl {
  import opened Options
  import opened Text

  datatype Scheme = Socks5 | Socks5h | Socks4 | Socks4a | Http | Https

  function Spelling(scheme: Scheme): string {
    match scheme
    case Socks5 => "socks5"
    case Socks5h => "socks5h"
    case Socks4 => "socks4"
    case Socks4a => "socks4a"
    case Http => "http"
    case Https => "https"
  }

  /** `SUPPORTED`, searched by spelling. */
  function SchemeOf(s: string): Option<Scheme> {
    if s == "socks5" then Some(Socks5)
    else if s == "socks5h" then Some(Socks5h)
    else if s == "socks4" then Some(Socks4)
    else if s == "socks4a" then Some(Socks4a)
    else if s == "http" then Some(Http)
    else if s == "https" then Some(Https)
    else None
  }

  datatype Proxy = Proxy(scheme: Scheme, host: string, port: nat, username: Option<string>, password: Option<string>)

  datatype Parsed =
    | NoProxy
    | Accepted(proxy: Proxy)
    | ProxyError
    | ValueError // raised by urllib.parse itself

  type Validator = string -> bool

  // --------------------------------------------------------------- taking it apart

  predicate IsDropped(c: char) {
    c == '\t' || c == '\n' || c == '\r'
  }

  /** The first index from `i` on that holds no control character or space. */
  function SkipControl(s: string, i: nat): (r: nat)
    requires i <= |s|
    ensures i <= r <= |s|
    decreases |s| - i
  {
    if i < |s| && s[i] <= ' ' then SkipControl(s, i + 1) else i
  }

  function LStripControl(s: string): string {
    s[SkipControl(s, 0)..]
  }

  /** What is left of the first `n` characters. */
  function Undropped(s: string, n: nat): string
    requires n <= |s|
  {
    if n == 0 then [] else Undropped(s, n - 1) + if IsDropped(s[n - 1]) then [] else [s[n - 1]]
  }

  function RemoveDropped(s: string): string {
    Undropped(s, |s|)
  }

  predicate IsLetter(c: char) {
    'a' <= c <= 'z' || 'A' <= c <= 'Z'
  }

  predicate IsSchemeText(s: string) {
    s != [] && IsLetter(s[0]) && forall i :: 0 <= i < |s| ==> IsLetter(s[i]) || IsDigit(s[i]) || s[i] == '+' || s[i] == '-' || s[i] == '.'
  }

  predicate IsDelimiter(c: char) {
    c == '/' || c == '?' || c == '#'
  }

  function AuthorityEndFrom(s: string, i: nat): (r: nat)
    requires i <= |s|
    ensures i <= r <= |s|
    decreases |s| - i
  {
    if i == |s| || IsDelimiter(s[i]) then i else AuthorityEndFrom(s, i + 1)
  }

  function AuthorityEnd(s: string): (r: nat)
    ensures r <= |s|
  {
    AuthorityEndFrom(s, 0)
  }

  /** Where `c` last stands in the first `n` characters of `s`, or -1. */
  function RFindUpTo(s: string, c: char, n: nat): (i: int)
    requires n <= |s|
    ensures -1 <= i < n && (i >= 0 ==> s[i] == c)
  {
    if n == 0 then -1 else if s[n - 1] == c then n - 1 else RFindUpTo(s, c, n - 1)
  }

  function RFind(s: string, c: char): (i: int)
    ensures -1 <= i < |s| && (i >= 0 ==> s[i] == c)
  {
    RFindUpTo(s, c, |s|)
  }

  /** Scheme text and authority of a cleaned URL. */
  function SplitUrl(url: string): (string, string) {
    var i := IndexOf(url, ':');
    var named := i < |url| && IsSchemeText(url[..i]);
    var rest := if named then url[i + 1..] else url;
    (if named then Lower(url[..i]) else "", if "//" <= rest then rest[2..][..AuthorityEnd(rest[2..])] else "")
  }

  predicate HalfBracketed(authority: string) {
    ('[' in authority) != (']' in authority)
  }

  /** `partition("[")[2]` */
  function AfterBracket(s: string): string
    requires '[' in s
  {
    IndexIn(s, '[');
    s[IndexOf(s, '[') + 1..]
  }

  /** What stands between the first bracket and the next closing one. */
  function BracketText(s: string): string
    requires '[' in s
  {
    var inner := AfterBracket(s);
    inner[..IndexOf(inner, ']')]
  }

  /** Host and port text of what follows an opening bracket. */
  function BracketedHostPort(inner: string): (string, string) {
    var close := IndexOf(inner, ']');
    var after := if close < |inner| then inner[close + 1..] else "";
    var colon := IndexOf(after, ':');
    (inner[..close], if colon < |after| then after[colon + 1..] else "")
  }

  /** `_hostinfo`: host and port text. */
  function HostPort(hostinfo: string): (string, string) {
    if '[' in hostinfo then BracketedHostPort(AfterBracket(hostinfo))
    else
      var colon := IndexOf(hostinfo, ':');
      (hostinfo[..colon], if colon < |hostinfo| then hostinfo[colon + 1..] else "")
  }

  /** A zone after `%` keeps its case. */
  function LowerHost(host: string): string {
    var i := IndexOf(host, '%');
    Lower(host[..i]) + host[i..]
  }

  function NonEmpty(s: string): Option<string> {
    if s == [] then None else Some(s)
  }

  function Credentials(authority: string): (Option<string>, Option<string>) {
    var at := RFind(authority, '@');
    if at < 0 then (None, None)
    else
      var info := authority[..at];
      var colon := IndexOf(info, ':');
      (NonEmpty(info[..colon]), if colon < |info| then NonEmpty(info[colon + 1..]) else None)
  }

  function ParseAuthority(scheme: Scheme, authority: string): (r: Parsed)
    ensures !r.NoProxy?
  {
    Assemble(scheme, HostPort(authority[RFind(authority, '@') + 1..]), Credentials(authority))
  }

  /** The checks on host and port, in their order. */
  function Assemble(scheme: Scheme, endpoint: (string, string), login: (Option<string>, Option<string>)): (r: Parsed)
    ensures !r.NoProxy?
  {
    var (host, port) := endpoint;
    if host == [] then ProxyError
    else if port == [] then ProxyError
    else if !AllDigits(port) then ValueError
    else if NumberOf(port) > 65535 then ValueError
    else if NumberOf(port) == 0 then ProxyError
    else Accepted(Proxy(scheme, LowerHost(host), NumberOf(port), login.0, login.1))
  }

  function ParseUrl(raw: string, valid: Validator): Parsed {
    var url := Strip(raw);
    if url == [] then NoProxy else ParseClean(Cleaned(url), valid)
  }

  /** `urlsplit` drops leading controls, and tabs and line breaks anywhere. */
  function Cleaned(url: string): string {
    RemoveDropped(LStripControl(url))
  }

  /** The look `urlsplit` takes at the brackets of an authority, wherever they stand in it. */
  predicate BracketsPass(authority: string, valid: Validator) {
    !HalfBracketed(authority) && ('[' in authority ==> valid(BracketText(authority)))
  }

  function ParseClean(url: string, valid: Validator): (r: Parsed)
    ensures !r.NoProxy?
  {
    var (scheme, authority) := SplitUrl(url);
    if !BracketsPass(authority, valid) then ValueError
    else match SchemeOf(scheme)
      case None => ProxyError
      case Some(known) => ParseAuthority(known, authority)
  }

  // ------------------------------------------------------------- the two back-ends

  /** The three schemes python_socks knows. */
  function Plain(scheme: Scheme): Scheme {
    match scheme
    case Socks5h => Socks5
    case Https => Http
    case Socks4a => Socks4
    case _ => scheme
  }

  function Auth(proxy: Proxy): string {
    if proxy.username.None? then ""
    else proxy.username.value + ":" + (if proxy.password.Some? then proxy.password.value else "") + "@"
  }

  function PrintedAuthority(proxy: Proxy): string {
    Auth(proxy) + (proxy.host + ":" + Decimal(proxy.port))
  }

  function Print(proxy: Proxy): string {
    Spelling(Plain(proxy.scheme)) + "://" + PrintedAuthority(proxy)
  }

  /** What either back-end is given: nothing without a proxy, and errors as `parse` raises them. */
  datatype Given<+T> = NothingSet | Given(value: T) | RaisesProxyError | RaisesValueError

  /** `for_aiogram`: a URL python_socks accepts. */
  function ForAiogram(url: string, valid: Validator): Given<string> {
    AiogramUrl(ParseUrl(url, valid))
  }

  function AiogramUrl(parsed: Parsed): Given<string> {
    match parsed
    case NoProxy => NothingSet
    case Accepted(proxy) => Given(Print(proxy))
    case ProxyError => RaisesProxyError
    case ValueError => RaisesValueError
  }

  datatype Config = Config(kind: string, addr: string, port: nat, rdns: bool, login: Option<(string, string)>)

  /** `for_telethon`: the settings Telethon takes, from the parsed URL. */
  method ForTelethon(parts: Parsed) returns (config: Given<Config>)
    ensures config == TelethonConfig(parts)
  {
    match parts {
      case NoProxy => return NothingSet;
      case ProxyError => return RaisesProxyError;
      case ValueError => return RaisesValueError;
      case Accepted(p) =>
        var c := BuildConfig(p);
        return Given(c);
    }
  }

  method BuildConfig(p: Proxy) returns (config: Config)
    ensures config == ConfigOf(p)
  {
    var kind := if p.scheme == Http || p.scheme == Https then "http" else Spelling(p.scheme);
    if kind == "socks5h" {
      kind := "socks5";
    } else if kind == "socks4a" {
      kind := "socks4";
    }
    config := Config(kind, p.host, p.port, true, None);
    if p.username.Some? {
      config := config.(login := Some((p.username.value, if p.password.Some? then p.password.value else "")));
    }
  }

  function LoginOf(p: Proxy): Option<(string, string)> {
    if p.username.None? then None else Some((p.username.value, if p.password.Some? then p.password.value else ""))
  }

  function ConfigOf(p: Proxy): Config {
    Config(Spelling(Plain(p.scheme)), p.host, p.port, true, LoginOf(p))
  }

  function TelethonConfig(parsed: Parsed): Given<Config> {
    match parsed
    case NoProxy => NothingSet
    case Accepted(p) => Given(ConfigOf(p))
    case ProxyError => RaisesProxyError
    case ValueError => RaisesValueError
  }

  // ------------------------------------------------------------- what parsing yields

  predicate IsBracket(c: char) {
    c == '[' || c == ']'
  }

  /** Text that stands in an authority as it is: no delimiter, nothing urllib drops. */
  ghost predicate Ordinary(s: string) {
    forall i :: 0 <= i < |s| ==> !IsDelimiter(s[i]) && !IsDropped(s[i])
  }

  /** What holds of the parts of every accepted URL. */
  ghost predicate Sound(p: Proxy) {
    && p.host != [] && Ordinary(p.host) && '@' !in p.host && LowerHost(p.host) == p.host
    && ('[' in p.host ==> ']' !in p.host)
    && 1 <= p.port <= 65535
    && (p.username.Some? ==> p.username.value != [] && Ordinary(p.username.value) && ':' !in p.username.value)
    && (p.password.Some? ==> p.password.value != [] && Ordinary(p.password.value))
  }

  /** The proxy as aiogram's side sees it: a password without a user name is not handed on. */
  function HandedOn(p: Proxy): Proxy {
    p.(scheme := Plain(p.scheme), password := if p.username.Some? then p.password else None)
  }

  // --------------------------------------------------------------- printing parses

  lemma OrdinaryConcat(a: string, b: string)
    requires Ordinary(a) && Ordinary(b)
    ensures Ordinary(a + b)
  {
  }

  lemma {:induction false} NothingDropped(s: string, n: nat)
    requires n <= |s| && forall i :: 0 <= i < n ==> !IsDropped(s[i])
    ensures Undropped(s, n) == s[..n]
  {
    if n == 0 {
    } else {
      NothingDropped(s, n - 1);
    }
  }

  lemma {:induction false} AuthorityEndStops(s: string, i: nat)
    requires i <= |s|
    ensures forall k :: i <= k < AuthorityEndFrom(s, i) ==> !IsDelimiter(s[k])
    ensures AuthorityEndFrom(s, i) < |s| ==> IsDelimiter(s[AuthorityEndFrom(s, i)])
    decreases |s| - i
  {
    if i == |s| || IsDelimiter(s[i]) {
    } else {
      AuthorityEndStops(s, i + 1);
    }
  }

  lemma OrdinaryKept(s: string)
    requires Ordinary(s)
    ensures AuthorityEnd(s) == |s|
  {
    AuthorityEndStops(s, 0);
  }

  lemma {:induction false} RFindUpToSkips(s: string, c: char, n: nat)
    requires n <= |s|
    ensures forall k :: RFindUpTo(s, c, n) < k < n ==> s[k] != c
  {
    if n == 0 || s[n - 1] == c {
    } else {
      RFindUpToSkips(s, c, n - 1);
    }
  }

  lemma RFindAfter(s: string, c: char)
    ensures forall k :: RFind(s, c) < k < |s| ==> s[k] != c
  {
    RFindUpToSkips(s, c, |s|);
  }

  lemma RFindLast(head: string, c: char, tail: string)
    requires c !in tail
    ensures RFind(head + [c] + tail, c) == |head|
  {
    var s := head + [c] + tail;
    RFindAfter(s, c);
    assert s[|head|] == c;
    assert forall k :: |head| < k < |s| ==> s[k] == tail[k - |head| - 1];
  }

  lemma RFindNone(s: string, c: char)
    requires c !in s
    ensures RFind(s, c) == -1
  {
  }

  lemma DigitsAreOrdinary(port: nat)
    ensures Ordinary(Decimal(port)) && '@' !in Decimal(port) && ':' !in Decimal(port) && '[' !in Decimal(port) && ']' !in Decimal(port)
  {
  }

  lemma SpellingKnown(scheme: Scheme)
    ensures var s := Spelling(scheme); IsSchemeText(s) && Lower(s) == s && SchemeOf(s) == Some(scheme) && ':' !in s && Ordinary(s)
  {
  }

  /** The host and port a plain host text gives back. */
  lemma HostPortPrinted(host: string, port: nat)
    requires ':' !in host && '[' !in host
    ensures HostPort(host + ":" + Decimal(port)) == (host, Decimal(port))
  {
    var s := host + ":" + Decimal(port);
    DigitsAreOrdinary(port);
    IndexFirst(host, ':', ":" + Decimal(port));
    assert s == host + (":" + Decimal(port));
    assert s[..|host|] == host && s[|host| + 1..] == Decimal(port);
  }

  /** A host with a colon in it is cut at the colon, and the rest is no port. */
  lemma HostPortMisread(host: string, port: nat)
    requires ':' in host && '[' !in host
    ensures var (h, p) := HostPort(host + ":" + Decimal(port)); p != [] && !AllDigits(p)
  {
    var s := host + ":" + Decimal(port);
    var i := IndexOf(host, ':');
    IndexIn(host, ':');
    IndexSkips(host, ':');
    ColonFirst(host[..i], host[i + 1..], Decimal(port));
    assert s == host[..i] + ":" + (host[i + 1..] + ":" + Decimal(port));
    DigitsAreOrdinary(port);
    var p := host[i + 1..] + ":" + Decimal(port);
    assert p[|host| - i - 1] == ':';
  }

  /** An opening bracket left in the host swallows the port. */
  lemma HostPortSwallowed(host: string, port: nat)
    requires '[' in host && ']' !in host
    ensures HostPort(host + ":" + Decimal(port)).1 == []
  {
    var s := host + ":" + Decimal(port);
    DigitsAreOrdinary(port);
    assert ']' !in s;
    IndexIn(s, '[');
    var inner := s[IndexOf(s, '[') + 1..];
    assert ']' !in inner;
    IndexIn(inner, ']');
    IndexIn("", ':');
  }

  lemma ColonFirst(head: string, middle: string, tail: string)
    requires ':' !in head
    ensures var s := head + ":" + (middle + ":" + tail);
            IndexOf(s, ':') == |head| && s[|head| + 1..] == middle + ":" + tail
  {
    var s := head + ":" + (middle + ":" + tail);
    assert s == head + (":" + (middle + ":" + tail));
    IndexFirst(head, ':', ":" + (middle + ":" + tail));
  }

  lemma EndpointIsOrdinary(host: string, port: nat)
    requires Ordinary(host) && '@' !in host
    ensures Ordinary(host + ":" + Decimal(port)) && '@' !in host + ":" + Decimal(port)
  {
    DigitsAreOrdinary(port);
    OrdinaryConcat(host, ":");
    OrdinaryConcat(host + ":", Decimal(port));
  }

  lemma AuthorityPrinted(p: Proxy)
    requires Sound(p)
    ensures var hostinfo := p.host + ":" + Decimal(p.port);
            var authority := PrintedAuthority(p);
            && Ordinary(authority)
            && authority[RFind(authority, '@') + 1..] == hostinfo
            && Credentials(authority) == (p.username, if p.username.Some? then p.password else None)
  {
    var hostinfo := p.host + ":" + Decimal(p.port);
    EndpointIsOrdinary(p.host, p.port);
    if p.username.None? {
      assert PrintedAuthority(p) == hostinfo;
      RFindNone(hostinfo, '@');
    } else {
      var secret := if p.password.Some? then p.password.value else "";
      LoginPrinted(p.username.value, secret, hostinfo);
    }
  }

  lemma LoginPrinted(user: string, secret: string, hostinfo: string)
    requires Ordinary(user) && Ordinary(secret) && Ordinary(hostinfo)
    requires user != [] && ':' !in user && '@' !in hostinfo
    ensures var authority := user + ":" + secret + "@" + hostinfo;
            && Ordinary(authority)
            && authority[RFind(authority, '@') + 1..] == hostinfo
            && Credentials(authority) == (Some(user), NonEmpty(secret))
  {
    var info := user + ":" + secret;
    var authority := user + ":" + secret + "@" + hostinfo;
    assert authority == info + ['@'] + hostinfo;
    RFindLast(info, '@', hostinfo);
    assert authority[..|info|] == info && authority[|info| + 1..] == hostinfo;
    assert info == user + (":" + secret);
    IndexFirst(user, ':', ":" + secret);
    assert info[..|user|] == user && info[|user| + 1..] == secret;
  }

  lemma SchemeSplits(name: string, authority: string)
    requires ':' !in name
    ensures var url := name + "://" + authority;
            && IndexOf(url, ':') == |name| && url[..|name|] == name
            && "//" <= url[|name| + 1..] && url[|name| + 1..][2..] == authority
  {
    var url := name + "://" + authority;
    assert url == name + ("://" + authority);
    IndexFirst(name, ':', "://" + authority);
    assert url[|name| + 1..] == "//" + authority;
  }

  lemma CleanConcat(a: string, b: string)
    requires a != [] && b != [] && a[0] > ' ' && !IsSpace(a[0]) && !IsSpace(b[|b| - 1])
    requires forall i :: 0 <= i < |a| ==> !IsDropped(a[i])
    requires forall i :: 0 <= i < |b| ==> !IsDropped(b[i])
    ensures Strip(a + b) == a + b && LStripControl(a + b) == a + b && RemoveDropped(a + b) == a + b
  {
    var url := a + b;
    assert url[0] == a[0] && url[|url| - 1] == b[|b| - 1];
    StripTight(url);
    assert SkipControl(url, 0) == 0 && url[0..] == url;
    NothingDropped(url, |url|);
    assert url[..|url|] == url;
  }

  lemma SchemeTextIsClean(name: string)
    requires IsSchemeText(name)
    ensures ':' !in name && !IsSpace(name[0]) && name[0] > ' '
    ensures var front := name + "://"; forall i :: 0 <= i < |front| ==> !IsDropped(front[i])
  {
  }

  lemma NamedSplits(name: string, authority: string)
    requires IsSchemeText(name) && ':' !in name && Ordinary(authority)
    ensures SplitUrl(name + "://" + authority) == (Lower(name), authority)
  {
    SchemeSplits(name, authority);
    OrdinaryKept(authority);
    assert authority[..|authority|] == authority;
  }

  lemma NamedIsClean(name: string, authority: string)
    requires IsSchemeText(name)
    requires Ordinary(authority) && authority != [] && !IsSpace(authority[|authority| - 1])
    ensures var url := name + "://" + authority; url != [] && Strip(url) == url && Cleaned(url) == url
  {
    SchemeTextIsClean(name);
    CleanConcat(name + "://", authority);
  }

  lemma UrlComesApart(name: string, authority: string, valid: Validator)
    requires IsSchemeText(name)
    requires Ordinary(authority) && authority != [] && !IsSpace(authority[|authority| - 1])
    ensures ParseUrl(name + "://" + authority, valid) == ParseClean(name + "://" + authority, valid)
    ensures SplitUrl(name + "://" + authority) == (Lower(name), authority)
  {
    SchemeTextIsClean(name);
    NamedIsClean(name, authority);
    NamedSplits(name, authority);
  }

  lemma UrlParses(scheme: Scheme, authority: string, valid: Validator)
    requires Ordinary(authority) && authority != [] && !IsSpace(authority[|authority| - 1])
    ensures ParseUrl(Spelling(scheme) + "://" + authority, valid)
            == if BracketsPass(authority, valid) then ParseAuthority(scheme, authority) else ValueError
  {
    SpellingKnown(scheme);
    UrlComesApart(Spelling(scheme), authority, valid);
  }

  lemma EndsInDigit(front: string, host: string, port: nat)
    ensures var s := front + (host + ":" + Decimal(port)); s != [] && !IsSpace(s[|s| - 1])
  {
  }

  lemma PrintedParses(p: Proxy, valid: Validator)
    requires Sound(p)
    ensures ParseUrl(Print(p), valid)
            == if BracketsPass(PrintedAuthority(p), valid) then ParseAuthority(Plain(p.scheme), PrintedAuthority(p)) else ValueError
  {
    EndsInDigit(Auth(p), p.host, p.port);
    AuthorityPrinted(p);
    UrlParses(Plain(p.scheme), PrintedAuthority(p), valid);
  }

  /** What an authority with this host and port is read as. */
  lemma AuthorityReads(scheme: Scheme, authority: string, host: string, port: nat)
    requires authority[RFind(authority, '@') + 1..] == host + ":" + Decimal(port)
    requires host != [] && ':' !in host && '[' !in host && 1 <= port <= 65535
    ensures ParseAuthority(scheme, authority)
            == Accepted(Proxy(scheme, LowerHost(host), port, Credentials(authority).0, Credentials(authority).1))
  {
    HostPortPrinted(host, port);
    PortAccepted(scheme, host, port, Credentials(authority));
  }

  lemma PortAccepted(scheme: Scheme, host: string, port: nat, login: (Option<string>, Option<string>))
    requires host != []
    ensures Assemble(scheme, (host, Decimal(port)), login) ==
              if port == 0 then ProxyError
              else if port <= 65535 then Accepted(Proxy(scheme, LowerHost(host), port, login.0, login.1))
              else ValueError
  {
    NumeralRoundTrip(port);
  }

  lemma AuthorityMisread(scheme: Scheme, authority: string, host: string, port: nat)
    requires authority[RFind(authority, '@') + 1..] == host + ":" + Decimal(port)
    requires if '[' in host then ']' !in host else ':' in host
    ensures !ParseAuthority(scheme, authority).Accepted?
  {
    if '[' in host {
      HostPortSwallowed(host, port);
    } else {
      HostPortMisread(host, port);
    }
  }

  /** The host can stand in a URL without brackets, and the brackets elsewhere pass. */
  predicate Reparses(p: Proxy, valid: Validator) {
    ':' !in p.host && '[' !in p.host && BracketsPass(PrintedAuthority(p), valid)
  }

  /**
   Exactly when the printed URL parses back. Then nothing differs but the
   simplified scheme and a password that had no user name; otherwise, as with an
   IPv6 address, it does not parse at all.
   */
  lemma PrintThenParse(p: Proxy, valid: Validator)
    requires Sound(p)
    ensures Reparses(p, valid) ==> ParseUrl(Print(p), valid) == Accepted(HandedOn(p))
    ensures !Reparses(p, valid) ==> !ParseUrl(Print(p), valid).Accepted?
  {
    PrintedParses(p, valid);
    AuthorityPrinted(p);
    if ':' in p.host || '[' in p.host {
      AuthorityMisread(Plain(p.scheme), PrintedAuthority(p), p.host, p.port);
    } else {
      AuthorityReads(Plain(p.scheme), PrintedAuthority(p), p.host, p.port);
    }
  }

  // ------------------------------------------------------- accepted URLs are sound

  lemma OrdinaryPart(s: string, i: nat, j: nat)
    requires i <= j <= |s| && Ordinary(s)
    ensures Ordinary(s[i..j])
  {
  }

  /** The authority of a URL as the parser sees it. */
  function Authority(raw: string): string {
    SplitUrl(Cleaned(Strip(raw))).1
  }

  lemma {:induction false} UndroppedClean(s: string, n: nat)
    requires n <= |s|
    ensures forall i :: 0 <= i < |Undropped(s, n)| ==> !IsDropped(Undropped(s, n)[i])
  {
    if n == 0 {
    } else {
      UndroppedClean(s, n - 1);
    }
  }

  lemma NotDroppedPart(s: string, i: nat)
    requires i <= |s| && forall k :: 0 <= k < |s| ==> !IsDropped(s[k])
    ensures forall k :: 0 <= k < |s[i..]| ==> !IsDropped(s[i..][k])
  {
  }

  lemma CutIsOrdinary(s: string)
    requires forall i :: 0 <= i < |s| ==> !IsDropped(s[i])
    ensures Ordinary(s[..AuthorityEnd(s)])
  {
    AuthorityEndStops(s, 0);
  }

  lemma SplitUrlClean(url: string)
    requires forall i :: 0 <= i < |url| ==> !IsDropped(url[i])
    ensures Ordinary(SplitUrl(url).1)
  {
    var i := IndexOf(url, ':');
    var rest := if i < |url| && IsSchemeText(url[..i]) then url[i + 1..] else url;
    if "//" <= rest {
      NotDroppedPart(url, |url| - |rest| + 2);
      assert rest[2..] == url[|url| - |rest| + 2..];
      CutIsOrdinary(rest[2..]);
    }
  }

  lemma AuthorityIsClean(raw: string)
    ensures Ordinary(Authority(raw))
  {
    UndroppedClean(LStripControl(Strip(raw)), |LStripControl(Strip(raw))|);
    SplitUrlClean(Cleaned(Strip(raw)));
  }

  lemma LowerHostKeeps(host: string)
    requires Ordinary(host)
    ensures var low := LowerHost(host);
            && Ordinary(low) && |low| == |host|
            && forall c :: !IsLetter(c) ==> (c in low <==> c in host)
  {
    var low := LowerHost(host);
    forall i | 0 <= i < |host|
      ensures low[i] == host[i] || (low[i] == LowerChar(host[i]) && IsLetter(host[i]) && IsLetter(low[i]))
    {
      if i < IndexOf(host, '%') {
        assert low[i] == LowerChar(host[i]);
      }
    }
  }

  lemma LowerHostTwice(host: string)
    ensures LowerHost(LowerHost(host)) == LowerHost(host)
  {
    var i := IndexOf(host, '%');
    var head, tail := Lower(host[..i]), host[i..];
    IndexSkips(host, '%');
    assert '%' !in head by {
      forall k | 0 <= k < |head| ensures head[k] != '%' {
        assert host[..i][k] != '%';
      }
    }
    IndexFirst(head, '%', tail);
    assert (head + tail)[..i] == head && (head + tail)[i..] == tail;
    LowerTwice(host[..i]);
  }

  lemma PartWithin(s: string, i: nat, j: nat)
    requires i <= |s| && j <= |s[i..]|
    ensures forall c :: c in s[i..][..j] ==> c in s
  {
    assert s[i..][..j] == s[i..i + j];
  }

  lemma BracketHost(hostinfo: string)
    requires '[' in hostinfo
    ensures var host := HostPort(hostinfo).0; ']' !in host && forall c :: c in host ==> c in hostinfo
  {
    IndexIn(hostinfo, '[');
    var i := IndexOf(hostinfo, '[') + 1;
    var j := IndexOf(hostinfo[i..], ']');
    IndexSkips(hostinfo[i..], ']');
    PartWithin(hostinfo, i, j);
    assert HostPort(hostinfo).0 == hostinfo[i..][..j];
  }

  lemma BareHost(hostinfo: string)
    requires '[' !in hostinfo
    ensures var host := HostPort(hostinfo).0; ':' !in host && forall c :: c in host ==> c in hostinfo
  {
    IndexSkips(hostinfo, ':');
  }

  lemma LoginIsSound(authority: string)
    requires Ordinary(authority)
    ensures var (username, password) := Credentials(authority);
            && (username.Some? ==> username.value != [] && Ordinary(username.value) && ':' !in username.value)
            && (password.Some? ==> password.value != [] && Ordinary(password.value))
  {
    var at := RFind(authority, '@');
    if at >= 0 {
      var info := authority[..at];
      OrdinaryPart(authority, 0, at);
      var colon := IndexOf(info, ':');
      IndexSkips(info, ':');
      OrdinaryPart(info, 0, colon);
      if colon < |info| {
        OrdinaryPart(info, colon + 1, |info|);
      }
    }
  }

  /** What stands behind the last `@`. */
  function HostInfo(authority: string): string {
    authority[RFind(authority, '@') + 1..]
  }

  /** What stands before it. */
  function UserInfo(authority: string): string {
    if RFind(authority, '@') < 0 then "" else authority[..RFind(authority, '@')]
  }

  lemma HostInfoIsClean(authority: string)
    requires Ordinary(authority)
    ensures Ordinary(HostInfo(authority)) && '@' !in HostInfo(authority)
  {
    var at := RFind(authority, '@') + 1;
    RFindAfter(authority, '@');
    OrdinaryPart(authority, at, |authority|);
    assert authority[at..|authority|] == HostInfo(authority);
    assert forall k :: 0 <= k < |HostInfo(authority)| ==> HostInfo(authority)[k] == authority[at + k];
  }

  lemma OrdinaryAmong(part: string, whole: string)
    requires Ordinary(whole) && forall c :: c in part ==> c in whole
    ensures Ordinary(part)
  {
    forall i | 0 <= i < |part| ensures !IsDelimiter(part[i]) && !IsDropped(part[i]) {
      assert part[i] in whole;
    }
  }

  lemma HostIsSound(hostinfo: string)
    requires Ordinary(hostinfo) && '@' !in hostinfo
    ensures var host := HostPort(hostinfo).0;
            && Ordinary(host) && '@' !in host
            && ('[' in host ==> ']' !in host)
            && ('[' !in hostinfo ==> ':' !in host && '[' !in host)
  {
    if '[' in hostinfo {
      BracketHost(hostinfo);
    } else {
      BareHost(hostinfo);
    }
    OrdinaryAmong(HostPort(hostinfo).0, hostinfo);
  }

  lemma AuthorityIsSound(scheme: Scheme, authority: string)
    requires Ordinary(authority) && ParseAuthority(scheme, authority).Accepted?
    ensures var p := ParseAuthority(scheme, authority).proxy;
            && Sound(p) && p.scheme == scheme && (p.username, p.password) == Credentials(authority)
            && ('[' !in HostInfo(authority) ==> ':' !in p.host && '[' !in p.host)
            && (']' in p.host ==> ']' in HostInfo(authority) && '[' !in HostInfo(authority))
  {
    var hostinfo := HostInfo(authority);
    var host := HostPort(hostinfo).0;
    HostInfoIsClean(authority);
    HostIsSound(hostinfo);
    if '[' in hostinfo {
      BracketHost(hostinfo);
    } else {
      BareHost(hostinfo);
    }
    LowerHostKeeps(host);
    LowerHostTwice(host);
    LoginIsSound(authority);
  }

  lemma CleanAccepted(url: string, valid: Validator)
    requires ParseClean(url, valid).Accepted?
    ensures var (scheme, authority) := SplitUrl(url);
            && BracketsPass(authority, valid) && SchemeOf(scheme).Some?
            && ParseClean(url, valid) == ParseAuthority(SchemeOf(scheme).value, authority)
  {
  }

  lemma AcceptedParts(raw: string, valid: Validator)
    requires ParseUrl(raw, valid).Accepted?
    ensures var p, authority := ParseUrl(raw, valid).proxy, Authority(raw);
            && Sound(p) && BracketsPass(authority, valid) && (p.username, p.password) == Credentials(authority)
            && ('[' !in HostInfo(authority) ==> ':' !in p.host && '[' !in p.host)
            && (']' in p.host ==> ']' in HostInfo(authority) && '[' !in HostInfo(authority))
  {
    AuthorityIsClean(raw);
    var url := Cleaned(Strip(raw));
    CleanAccepted(url, valid);
    AuthorityIsSound(SchemeOf(SplitUrl(url).0).value, SplitUrl(url).1);
  }

  /** The parts of an accepted URL; only a bracketed host can have a colon or a bracket in it. */
  lemma AcceptedIsSound(raw: string, valid: Validator)
    requires ParseUrl(raw, valid).Accepted?
    ensures var p := ParseUrl(raw, valid).proxy;
            Sound(p) && ('[' !in HostInfo(Authority(raw)) ==> ':' !in p.host && '[' !in p.host)
  {
    AcceptedParts(raw, valid);
  }

  // ------------------------------------------------------------------ main results

  /**
   For every accepted URL: what is handed to aiogram names the same host, port
   and login again exactly when the host can do without brackets and whatever
   brackets the login has pass once more; otherwise it is refused.
   */
  lemma AiogramRoundTrip(raw: string, valid: Validator)
    requires ParseUrl(raw, valid).Accepted?
    ensures var p := ParseUrl(raw, valid).proxy;
            var url := ForAiogram(raw, valid).value;
            && (ParseUrl(url, valid) == Accepted(HandedOn(p)) <==> Reparses(p, valid))
            && (ParseUrl(url, valid).Accepted? <==> Reparses(p, valid))
  {
    AcceptedIsSound(raw, valid);
    PrintThenParse(ParseUrl(raw, valid).proxy, valid);
  }

  /**
   What the back-ends are given for every accepted URL, by the scheme it was
   written with: the same one of three kinds, as text, for both; for Telethon the
   endpoint, names resolved by the proxy, and the login if there is a user name.
   */
  lemma GivenByScheme(raw: string, valid: Validator)
    requires ParseUrl(raw, valid).Accepted?
    ensures TelethonConfig(ParseUrl(raw, valid)).Given? && ForAiogram(raw, valid).Given?
    ensures var p, config := ParseUrl(raw, valid).proxy, TelethonConfig(ParseUrl(raw, valid)).value;
            && (config.kind == "http" <==> p.scheme == Http || p.scheme == Https)
            && (config.kind == "socks5" <==> p.scheme == Socks5 || p.scheme == Socks5h)
            && (config.kind == "socks4" <==> p.scheme == Socks4 || p.scheme == Socks4a)
            && config.addr == p.host && config.port == p.port && config.rdns
            && config.login == (match p.username
                                case None => None
                                case Some(user) => Some((user, match p.password case None => "" case Some(secret) => secret)))
            && ForAiogram(raw, valid).value ==
                 config.kind + "://" + ((match config.login case None => "" case Some((user, secret)) => user + ":" + secret + "@")
                                        + (p.host + ":" + Decimal(p.port)))
  {
    var p := ParseUrl(raw, valid).proxy;
    KindText(p.scheme);
    AuthText(p);
  }

  lemma KindText(scheme: Scheme)
    ensures var kind := Spelling(Plain(scheme));
            && (kind == "http" <==> scheme == Http || scheme == Https)
            && (kind == "socks5" <==> scheme == Socks5 || scheme == Socks5h)
            && (kind == "socks4" <==> scheme == Socks4 || scheme == Socks4a)
  {
    assert |"http"| == 4 && |"socks5"| == 6 && |"socks4"| == 6 && "socks5"[5] != "socks4"[5];
  }

  lemma AuthText(p: Proxy)
    ensures Auth(p) == match LoginOf(p) case None => "" case Some((user, secret)) => user + ":" + secret + "@"
  {
  }

  lemma GivenAlike(parsed: Parsed)
    ensures AiogramUrl(parsed) == NothingSet <==> parsed.NoProxy?
    ensures TelethonConfig(parsed) == NothingSet <==> parsed.NoProxy?
    ensures AiogramUrl(parsed) == RaisesProxyError <==> TelethonConfig(parsed) == RaisesProxyError
    ensures AiogramUrl(parsed) == RaisesValueError <==> TelethonConfig(parsed) == RaisesValueError
  {
  }

  lemma NothingOnly(raw: string, valid: Validator)
    ensures ParseUrl(raw, valid).NoProxy? <==> Strip(raw) == []
  {
  }

  /** Without a proxy, or with one that is refused, both back-ends are told so alike. */
  lemma NotGiven(raw: string, valid: Validator)
    ensures ForAiogram(raw, valid) == NothingSet <==> Strip(raw) == []
    ensures TelethonConfig(ParseUrl(raw, valid)) == NothingSet <==> Strip(raw) == []
    ensures ForAiogram(raw, valid) == RaisesProxyError <==> TelethonConfig(ParseUrl(raw, valid)) == RaisesProxyError
    ensures ForAiogram(raw, valid) == RaisesValueError <==> TelethonConfig(ParseUrl(raw, valid)) == RaisesValueError
  {
    GivenAlike(ParseUrl(raw, valid));
    NothingOnly(raw, valid);
  }

  /** The six schemes as they are written. */
  predicate Written(text: string, scheme: Scheme) {
    match scheme
    case Socks5 => text == "socks5"
    case Socks5h => text == "socks5h"
    case Socks4 => text == "socks4"
    case Socks4a => text == "socks4a"
    case Http => text == "http"
    case Https => text == "https"
  }

  /** Text that may stand in a URL outside brackets. */
  ghost predicate Bare(s: string) {
    Ordinary(s) && '[' !in s && ']' !in s
  }

  /** What a port makes of a URL that is otherwise in order. */
  function ByPort(proxy: Proxy): Parsed {
    if proxy.port == 0 then ProxyError else if proxy.port <= 65535 then Accepted(proxy) else ValueError
  }

  lemma BareEndpoint(host: string, port: nat)
    requires Bare(host) && '@' !in host
    ensures var s := host + ":" + Decimal(port); Bare(s) && '@' !in s && s != [] && !IsSpace(s[|s| - 1])
  {
    EndpointIsOrdinary(host, port);
    DigitsAreOrdinary(port);
    EndsInDigit("", host, port);
    assert "" + (host + ":" + Decimal(port)) == host + ":" + Decimal(port);
  }

  /** The documented forms, read: type, endpoint and login are the ones written, for every host, login and port. */
  lemma ReadAsWritten(text: string, scheme: Scheme, host: string, port: nat, valid: Validator)
    requires Written(text, scheme) && host != [] && Bare(host) && '@' !in host && ':' !in host
    ensures ParseUrl(text + "://" + (host + ":" + Decimal(port)), valid) == ByPort(Proxy(scheme, LowerHost(host), port, None, None))
  {
    var authority := host + ":" + Decimal(port);
    BareEndpoint(host, port);
    UrlParses(scheme, authority, valid);
    NoBracketsPass(authority, valid);
    RFindNone(authority, '@');
    EndpointRead(scheme, authority, host, port);
    assert text == Spelling(scheme);
  }

  lemma LoginEndpoint(user: string, secret: string, hostinfo: string)
    requires Bare(user) && Bare(secret) && Bare(hostinfo) && hostinfo != []
    requires user != [] && ':' !in user && '@' !in hostinfo
    ensures var s := user + ":" + secret + "@" + hostinfo;
            && Bare(s) && s != [] && s[|s| - 1] == hostinfo[|hostinfo| - 1]
            && s[RFind(s, '@') + 1..] == hostinfo && Credentials(s) == (Some(user), NonEmpty(secret))
  {
    LoginPrinted(user, secret, hostinfo);
  }

  lemma EndpointRead(scheme: Scheme, authority: string, host: string, port: nat)
    requires authority[RFind(authority, '@') + 1..] == host + ":" + Decimal(port)
    requires host != [] && ':' !in host && '[' !in host
    ensures ParseAuthority(scheme, authority)
            == ByPort(Proxy(scheme, LowerHost(host), port, Credentials(authority).0, Credentials(authority).1))
  {
    HostPortPrinted(host, port);
    PortAccepted(scheme, host, port, Credentials(authority));
  }

  lemma ReadWithLogin(text: string, scheme: Scheme, user: string, secret: string, host: string, port: nat, valid: Validator)
    requires Written(text, scheme) && host != [] && Bare(host) && '@' !in host && ':' !in host
    requires user != [] && Bare(user) && ':' !in user && Bare(secret)
    ensures ParseUrl(text + "://" + (user + ":" + secret + "@" + (host + ":" + Decimal(port))), valid)
            == ByPort(Proxy(scheme, LowerHost(host), port, Some(user), if secret == [] then None else Some(secret)))
  {
    var hostinfo := host + ":" + Decimal(port);
    var authority := user + ":" + secret + "@" + hostinfo;
    BareEndpoint(host, port);
    LoginEndpoint(user, secret, hostinfo);
    UrlParses(scheme, authority, valid);
    NoBracketsPass(authority, valid);
    EndpointRead(scheme, authority, host, port);
    assert text == Spelling(scheme);
  }

  /** Of the host as it is read, character by character: ASCII capitals become small, but not in a zone. */
  lemma HostInLowerCase(host: string, k: nat)
    requires k < |host|
    ensures |LowerHost(host)| == |host|
    ensures LowerHost(host)[k] ==
              if 'A' <= host[k] <= 'Z' && '%' !in host[..k] then (host[k] as int - 'A' as int + 'a' as int) as char else host[k]
  {
    var i := IndexOf(host, '%');
    IndexSkips(host, '%');
    if k < i {
      assert forall j :: 0 <= j < k ==> host[j] != '%';
    } else if i < k {
      assert host[..k][i] == '%';
    }
  }

  /** A port that is missing is an error like a port zero. */
  lemma ReadWithoutPort(text: string, scheme: Scheme, host: string, valid: Validator)
    requires Written(text, scheme) && host != [] && Bare(host) && '@' !in host && ':' !in host && !IsSpace(host[|host| - 1])
    ensures ParseUrl(text + "://" + host, valid) == ProxyError
  {
    UrlParses(scheme, host, valid);
    NoBracketsPass(host, valid);
    RFindNone(host, '@');
    IndexIn(host, ':');
    assert host[0..] == host && HostPort(host).1 == "";
    assert text == Spelling(scheme);
  }

  lemma NoSuchScheme(text: string)
    requires text !in {"socks5", "socks5h", "socks4", "socks4a", "http", "https"}
    ensures SchemeOf(text) == None
  {
  }

  /** Any other scheme is refused, whatever follows, unless brackets are refused before it is looked at. */
  lemma OtherSchemesRefused(name: string, authority: string, valid: Validator)
    requires IsSchemeText(name) && Lower(name) !in {"socks5", "socks5h", "socks4", "socks4a", "http", "https"}
    requires Ordinary(authority) && authority != [] && !IsSpace(authority[|authority| - 1])
    ensures ParseUrl(name + "://" + authority, valid) == if BracketsPass(authority, valid) then ProxyError else ValueError
  {
    UrlComesApart(name, authority, valid);
    NoSuchScheme(Lower(name));
  }

  /** What handing on changes: the scheme becomes one of three, and a password is lost exactly when it had no user name. */
  lemma HandedOnKeeps(p: Proxy)
    ensures HandedOn(p).scheme in {Socks5, Socks4, Http} && ConfigOf(HandedOn(p)) == ConfigOf(p)
    ensures HandedOn(p).host == p.host && HandedOn(p).port == p.port && LoginOf(HandedOn(p)) == LoginOf(p)
    ensures (HandedOn(p).username, HandedOn(p).password) == (p.username, p.password)
            <==> p.username.Some? || p.password.None?
  {
  }

  predicate Closed(s: string) {
    '[' in s && (IndexIn(s, '['); ']' in s[IndexOf(s, '[') + 1..])
  }

  /** Brackets in the login or around the host, not both; and those of the login closed within it. */
  predicate BracketsInOnePart(authority: string) {
    var user, hostinfo := UserInfo(authority), HostInfo(authority);
    || ('[' !in user && ']' !in user)
    || (Closed(user) && '[' !in hostinfo && ']' !in hostinfo)
  }

  lemma DropConcat(head: string, tail: string, k: nat)
    requires k <= |head|
    ensures (head + tail)[k..] == head[k..] + tail
  {
  }

  lemma BracketTextWithin(head: string, tail: string)
    requires Closed(head)
    ensures '[' in head + tail && ']' in head + tail && BracketText(head + tail) == BracketText(head)
  {
    IndexIn(head, '[');
    IndexSkips(head, '[');
    var i := IndexOf(head, '[');
    var inner := head[i + 1..];
    IndexIn(inner, ']');
    IndexSkips(inner, ']');
    var j := IndexOf(inner, ']');
    IndexFirst(head[..i], '[', head[i..] + tail);
    assert head[..i] + (head[i..] + tail) == head + tail;
    IndexFirst(inner[..j], ']', inner[j..] + tail);
    DropConcat(head, tail, i + 1);
    assert inner[..j] + (inner[j..] + tail) == inner + tail;
    assert (inner + tail)[..j] == inner[..j];
    assert (head + tail)[i] == '[' && (head + tail)[i + 1 + j] == ']';
  }

  /** The login as it is printed begins as it was written. */
  lemma LoginRewritten(authority: string)
    requires Credentials(authority).0.Some?
    ensures var (username, password) := Credentials(authority);
            UserInfo(authority) <= username.value + ":" + if password.Some? then password.value else ""
    ensures authority == UserInfo(authority) + "@" + HostInfo(authority)
  {
    var info := UserInfo(authority);
    var colon := IndexOf(info, ':');
    if colon < |info| {
      assert info == info[..colon] + ":" + info[colon + 1..];
    }
  }

  lemma BeginsClosed(info: string, s: string)
    requires Closed(info) && info <= s
    ensures '[' in s && ']' in s && BracketText(s) == BracketText(info)
  {
    BracketTextWithin(info, s[|info|..]);
    assert info + s[|info|..] == s;
  }

  lemma PrintedBeginsWithLogin(p: Proxy, authority: string)
    requires p.username.Some? && (p.username, p.password) == Credentials(authority)
    ensures UserInfo(authority) <= authority && UserInfo(authority) <= PrintedAuthority(p)
  {
    LoginRewritten(authority);
  }

  lemma NoBracketsPass(authority: string, valid: Validator)
    requires '[' !in authority && ']' !in authority
    ensures BracketsPass(authority, valid)
  {
  }

  lemma ClosedLoginPasses(p: Proxy, authority: string, valid: Validator)
    requires Closed(UserInfo(authority)) && BracketsPass(authority, valid) && (p.username, p.password) == Credentials(authority)
    requires '[' !in p.host && ']' !in p.host
    ensures BracketsPass(PrintedAuthority(p), valid)
  {
    if p.username.Some? {
      PrintedBeginsWithLogin(p, authority);
      BeginsClosed(UserInfo(authority), authority);
      BeginsClosed(UserInfo(authority), PrintedAuthority(p));
    } else {
      DigitsAreOrdinary(p.port);
      NoBracketsPass(PrintedAuthority(p), valid);
    }
  }

  lemma LoginWithin(authority: string)
    ensures var (username, password) := Credentials(authority);
            && (username.Some? ==> forall c :: c in username.value ==> c in UserInfo(authority))
            && (password.Some? ==> forall c :: c in password.value ==> c in UserInfo(authority))
  {
  }

  lemma BareLoginPasses(p: Proxy, authority: string, valid: Validator)
    requires '[' !in UserInfo(authority) && ']' !in UserInfo(authority) && (p.username, p.password) == Credentials(authority)
    requires '[' !in p.host && ']' !in p.host
    ensures BracketsPass(PrintedAuthority(p), valid)
  {
    LoginWithin(authority);
    DigitsAreOrdinary(p.port);
    assert '[' !in Auth(p) && ']' !in Auth(p);
    NoBracketsPass(PrintedAuthority(p), valid);
  }

  lemma BracketSomewhere(authority: string, c: char)
    requires IsBracket(c)
    ensures c in authority <==> c in UserInfo(authority) || c in HostInfo(authority)
  {
    var at := RFind(authority, '@');
    assert authority == if at < 0 then HostInfo(authority) else UserInfo(authority) + "@" + HostInfo(authority);
  }

  /** With brackets in one part the condition is about the host alone. */
  lemma ReparsesByHost(raw: string, valid: Validator)
    requires ParseUrl(raw, valid).Accepted? && BracketsInOnePart(Authority(raw))
    ensures var p := ParseUrl(raw, valid).proxy; Reparses(p, valid) <==> ':' !in p.host && '[' !in p.host
    ensures '[' !in HostInfo(Authority(raw)) ==> Reparses(ParseUrl(raw, valid).proxy, valid)
  {
    AcceptedParts(raw, valid);
    OnePartReparses(ParseUrl(raw, valid).proxy, Authority(raw), valid);
  }

  lemma OnePartReparses(p: Proxy, authority: string, valid: Validator)
    requires BracketsPass(authority, valid) && BracketsInOnePart(authority) && (p.username, p.password) == Credentials(authority)
    requires ']' in p.host ==> ']' in HostInfo(authority) && '[' !in HostInfo(authority)
    ensures Reparses(p, valid) <==> ':' !in p.host && '[' !in p.host
  {
    if '[' !in p.host {
      HostInOnePart(p, authority, valid);
    }
  }

  lemma HostInOnePart(p: Proxy, authority: string, valid: Validator)
    requires BracketsPass(authority, valid) && BracketsInOnePart(authority) && (p.username, p.password) == Credentials(authority)
    requires '[' !in p.host && (']' in p.host ==> ']' in HostInfo(authority) && '[' !in HostInfo(authority))
    ensures BracketsPass(PrintedAuthority(p), valid)
  {
    BracketSomewhere(authority, '[');
    BracketSomewhere(authority, ']');
    if '[' !in UserInfo(authority) && ']' !in UserInfo(authority) {
      BareLoginPasses(p, authority, valid);
    } else {
      ClosedLoginPasses(p, authority, valid);
    }
  }

  /** Both back-ends are given the same proxy, type, endpoint and login, exactly when aiogram's URL parses. */
  lemma BackEndsAgree(raw: string, valid: Validator)
    requires ParseUrl(raw, valid).Accepted?
    ensures TelethonConfig(ParseUrl(ForAiogram(raw, valid).value, valid)) == TelethonConfig(ParseUrl(raw, valid))
            <==> Reparses(ParseUrl(raw, valid).proxy, valid)
  {
    AiogramRoundTrip(raw, valid);
    var p := ParseUrl(raw, valid).proxy;
    SameConfig(p, ParseUrl(ForAiogram(raw, valid).value, valid));
  }

  lemma SameConfig(p: Proxy, again: Parsed)
    requires again.Accepted? ==> again == Accepted(HandedOn(p))
    ensures TelethonConfig(again) == TelethonConfig(Accepted(p)) <==> again.Accepted?
  {
    HandedOnKeeps(p);
  }

  /** Exactly then converting a converted URL changes nothing; otherwise it fails. */
  lemma AiogramTwice(raw: string, valid: Validator)
    requires ParseUrl(raw, valid).Accepted?
    ensures ForAiogram(ForAiogram(raw, valid).value, valid) == ForAiogram(raw, valid)
            <==> Reparses(ParseUrl(raw, valid).proxy, valid)
  {
    AiogramRoundTrip(raw, valid);
    var p := ParseUrl(raw, valid).proxy;
    SamePrint(p, ParseUrl(ForAiogram(raw, valid).value, valid));
  }

  lemma SamePrint(p: Proxy, again: Parsed)
    requires again.Accepted? ==> again == Accepted(HandedOn(p))
    ensures AiogramUrl(again) == AiogramUrl(Accepted(p)) <==> again.Accepted?
  {
    PrintHandedOn(p);
  }

  lemma PrintHandedOn(p: Proxy)
    ensures Print(HandedOn(p)) == Print(p)
  {
  }

  /** The IPv6 loopback: a URL that is accepted, and whose converted form is refused. */
  lemma BracketsAreLost(scheme: Scheme, valid: Validator)
    requires valid("::1")
    ensures var url := Spelling(scheme) + "://" + "[::1]:80";
            && ParseUrl(url, valid) == Accepted(Proxy(scheme, "::1", 80, None, None))
            && !ParseUrl(ForAiogram(url, valid).value, valid).Accepted?
  {
    Loopback();
    BracketedEndpoint("::1", "80");
    LoopbackPort();
    LoopbackIsOrdinary();
    ColonIsLost(scheme, "[::1]:80", "::1", "80", valid);
  }

  /** The same for any bracketed host with a colon in it and any port. */
  lemma ColonIsLost(scheme: Scheme, authority: string, host: string, port: string, valid: Validator)
    requires Ordinary(authority) && authority != [] && !IsSpace(authority[|authority| - 1]) && BracketsPass(authority, valid)
    requires RFind(authority, '@') == -1 && HostPort(authority) == (host, port)
    requires port != [] && AllDigits(port) && 1 <= NumberOf(port) <= 65535
    requires LowerHost(host) == host && ':' in host
    ensures var url := Spelling(scheme) + "://" + authority;
            && ParseUrl(url, valid) == Accepted(Proxy(scheme, host, NumberOf(port), None, None))
            && !ParseUrl(ForAiogram(url, valid).value, valid).Accepted?
  {
    NoLogin(scheme, authority, host, port);
    UrlParses(scheme, authority, valid);
    AiogramRoundTrip(Spelling(scheme) + "://" + authority, valid);
  }

  lemma LoopbackIsOrdinary()
    ensures Ordinary("[::1]:80") && !IsSpace("[::1]:80"[7]) && RFind("[::1]:80", '@') == -1
  {
  }

  lemma LoopbackPort()
    ensures AllDigits("80") && NumberOf("80") == 80 && LowerHost("::1") == "::1"
  {
  }

  lemma NoLogin(scheme: Scheme, authority: string, host: string, port: string)
    requires RFind(authority, '@') == -1 && HostPort(authority) == (host, port)
    requires host != [] && port != [] && AllDigits(port) && 1 <= NumberOf(port) <= 65535
    ensures ParseAuthority(scheme, authority) == Accepted(Proxy(scheme, LowerHost(host), NumberOf(port), None, None))
  {
  }

  lemma AtTheFront(c: char, rest: string)
    ensures IndexOf([c] + rest, c) == 0 && ([c] + rest)[1..] == rest
  {
    IndexFirst("", c, [c] + rest);
    assert "" + ([c] + rest) == [c] + rest;
  }

  lemma InFrontOf(inside: string, c: char, rest: string)
    requires c !in inside
    ensures var s := inside + ([c] + rest); IndexOf(s, c) == |inside| && s[..|inside|] == inside && s[|inside| + 1..] == rest
  {
    IndexFirst(inside, c, [c] + rest);
  }

  lemma OpensAtTheFront(inner: string)
    ensures '[' in ['['] + inner && AfterBracket(['['] + inner) == inner
  {
    AtTheFront('[', inner);
    assert (['['] + inner)[0] == '[';
  }

  lemma ClosesAndPort(inside: string, port: string)
    requires ']' !in inside
    ensures BracketedHostPort(inside + ([']'] + ([':'] + port))) == (inside, port)
  {
    InFrontOf(inside, ']', [':'] + port);
    AtTheFront(':', port);
  }

  /** How a host in brackets and a port are told apart, whatever is in the brackets. */
  lemma BracketedEndpoint(inside: string, port: string)
    requires ']' !in inside
    ensures var s := ['['] + (inside + ([']'] + ([':'] + port)));
            '[' in s && ']' in s && HostPort(s) == (inside, port) && BracketText(s) == inside
  {
    var inner := inside + ([']'] + ([':'] + port));
    OpensAtTheFront(inner);
    ClosesAndPort(inside, port);
    InFrontOf(inside, ']', [':'] + port);
    assert inner[|inside|] == ']' && (['['] + inner)[|inside| + 1] == ']';
  }

  lemma Loopback()
    ensures "[::1]:80" == ['['] + ("::1" + ([']'] + ([':'] + "80"))) && ']' !in "::1"
  {
  }
}
