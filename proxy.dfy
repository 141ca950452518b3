/** `parse_proxy` of cookie_collector/collector.py, together with the part of Python's
    `urllib.parse.urlsplit` and of its `hostname`, `port`, `username` and `password`
    properties that it relies on. */
module Proxy {
  import opened Wrappers
  import opened Text

  /** The `ValueError`s that `urlsplit` and the `port` property raise. */
  datatype ProxyError = InvalidIPv6 | PortNotNumeric | PortOutOfRange

  datatype Credentials = Credentials(username: string, password: string)

  /** The dictionary handed to the browser: `{"server": ...}`, plus `"username"` and
      `"password"` when `credentials` is present. */
  datatype ProxySettings = ProxySettings(server: string, credentials: Option<Credentials>)

  /** The two fields of `urlsplit`'s result that `parse_proxy` looks at. */
  datatype Split = Split(scheme: string, netloc: string)

  const DEFAULT_SCHEME := "http"
  /** What `parse_proxy` puts in front of a string without a scheme. */
  const HTTP_PREFIX := "http://"
  const DEFAULT_PORT := 80
  const MAX_PORT := 65535
  /** The characters `urlsplit` deletes wherever they occur. */
  const UNSAFE := {'\t', '\r', '\n'}
  /** The characters that end the network location. */
  const NETLOC_END := {'/', '?', '#'}

  predicate IsSchemeChar(c: char) {
    IsLetter(c) || IsDigit(c) || c == '+' || c == '-' || c == '.'
  }

  predicate AllSchemeChars(s: string) {
    forall i :: 0 <= i < |s| ==> IsSchemeChar(s[i])
  }

  /** Strips leading C0 control characters and spaces. */
  function LStripControl(s: string): (r: string)
    ensures r == [] || r[0] > ' '
  {
    if |s| > 0 && s[0] <= ' ' then LStripControl(s[1..]) else s
  }

  function RemoveUnsafe(s: string): string {
    if |s| == 0 then [] else (if s[0] in UNSAFE then [] else [s[0]]) + RemoveUnsafe(s[1..])
  }

  lemma {:induction false} RemoveUnsafeConcat(a: string, b: string)
    ensures RemoveUnsafe(a + b) == RemoveUnsafe(a) + RemoveUnsafe(b)
  {
    if a == [] {
      assert a + b == b;
    } else {
      assert (a + b)[1..] == a[1..] + b;
      RemoveUnsafeConcat(a[1..], b);
    }
  }

  lemma {:induction false} RemoveUnsafeKeepsPrintable(s: string)
    requires Printable(s)
    ensures RemoveUnsafe(s) == s
  {
    if s != [] {
      RemoveUnsafeKeepsPrintable(s[1..]);
    }
  }

  /** `urlsplit` reads `u[..i]` as a scheme when `i` is the first ':' (not at 0), `u`
      starts with an ASCII letter and only scheme characters come before the ':'. */
  predicate SchemeAt(u: string, i: nat) {
    0 < i < |u| && IsLetter(u[0]) && AllSchemeChars(u[..i])
  }

  /** The network location: up to the first '/', '?' or '#'. */
  function NetlocOf(s: string): (r: string)
    ensures Avoids(r, NETLOC_END)
  {
    s[..FirstIndexOfAny(s, NETLOC_END)]
  }

  /** What comes after the first `c` (`str.partition(c)[2]`). */
  function AfterFirst(s: string, c: char): string {
    var k := FirstIndex(s, c);
    if k < |s| then s[k + 1..] else []
  }

  /** What comes before the first `c` (`str.partition(c)[0]`). */
  function BeforeFirst(s: string, c: char): string {
    s[..FirstIndex(s, c)]
  }

  /** The two sides of `str.partition(c)`: the first holds no `c`, and with the `c`
      between them they give back the string; without a `c` the string is all before. */
  lemma Partition(s: string, c: char)
    ensures c !in BeforeFirst(s, c)
    ensures c in s ==> s == BeforeFirst(s, c) + [c] + AfterFirst(s, c)
    ensures c !in s ==> BeforeFirst(s, c) == s && AfterFirst(s, c) == []
  {
    var k := FirstIndex(s, c);
    if k < |s| {
      assert s == s[..k] + [c] + s[k + 1..];
    } else {
      assert s[..k] == s;
    }
  }

  /** A character missing from the string is missing from both sides of a partition. */
  lemma PartitionAvoids(s: string, c: char, d: char)
    requires d !in s
    ensures d !in BeforeFirst(s, c) && d !in AfterFirst(s, c)
  {
    var k := FirstIndex(s, c);
    assert forall e :: e in s[..k] ==> e in s;
    if k < |s| {
      assert forall e :: e in s[k + 1..] ==> e in s;
    }
  }

  /** The text after the last '@' of the network location (`netloc.rpartition('@')[2]`). */
  function HostInfo(netloc: string): (r: string)
    ensures '@' !in r
    ensures Avoids(netloc, NETLOC_END) ==> Avoids(r, NETLOC_END)
  {
    netloc[LastIndex(netloc, '@') + 1..]
  }

  /** The bracket placement `urlsplit` insists on: a '[' after the last '@' must come
      first there, and only a ':' may follow its ']'. */
  predicate BracketsWellPlaced(netloc: string) {
    var hi := HostInfo(netloc);
    '[' in hi ==>
      FirstIndex(hi, '[') == 0 &&
      var after := AfterFirst(AfterFirst(hi, '['), ']');
      after == [] || after[0] == ':'
  }

  /** The string `urlsplit` works on: leading controls and spaces stripped, tabs and
      line breaks deleted. */
  function Cleaned(url: string): string {
    RemoveUnsafe(LStripControl(url))
  }

  /** The network location of what follows the scheme: present only after "//". */
  function NetlocPart(rest: string): (r: string)
    ensures Avoids(r, NETLOC_END)
  {
    if StartsWith(rest, "//") then NetlocOf(rest[2..]) else ""
  }

  /** The bracket checks `urlsplit` makes before it returns. */
  function Checked(scheme: string, netloc: string): (r: Result<Split, ProxyError>)
    ensures r.Success? ==> r.value == Split(scheme, netloc)
  {
    if ('[' in netloc) != (']' in netloc) || ('[' in netloc && !BracketsWellPlaced(netloc)) then
      Failure(InvalidIPv6)
    else
      Success(Split(scheme, netloc))
  }

  /** `urlsplit` on an already cleaned string. */
  function SplitCleaned(u: string): (r: Result<Split, ProxyError>)
    ensures r.Success? ==> AllSchemeChars(r.value.scheme) && Avoids(r.value.netloc, NETLOC_END)
  {
    var i := FirstIndex(u, ':');
    if SchemeAt(u, i) then
      Checked(Lower(u[..i]), NetlocPart(u[i + 1..]))
    else
      Checked("", NetlocPart(u))
  }

  /** `urlsplit(url)`, reduced to the scheme and the network location. */
  function UrlSplit(url: string): (r: Result<Split, ProxyError>)
    ensures r.Success? ==> AllSchemeChars(r.value.scheme) && Avoids(r.value.netloc, NETLOC_END)
  {
    SplitCleaned(Cleaned(url))
  }

  /** `urlsplit` finds a scheme exactly when, in the cleaned string, the text before the
      first ':' is non-empty, starts with an ASCII letter and holds only scheme
      characters. */
  lemma SchemeFoundIff(proxy: string)
    requires UrlSplit(proxy).Success?
    ensures UrlSplit(proxy).value.scheme != [] <==>
      SchemeAt(Cleaned(proxy), FirstIndex(Cleaned(proxy), ':'))
  {
    var u := Cleaned(proxy);
    var i := FirstIndex(u, ':');
    if SchemeAt(u, i) {
      assert |Lower(u[..i])| == i;
    }
  }

  /** The text before the last '@', if there is one. */
  function UserInfo(netloc: string): (r: Option<string>)
    ensures r.Some? <==> '@' in netloc
  {
    var k := LastIndex(netloc, '@');
    if k >= 0 then Some(netloc[..k]) else None
  }

  function Username(netloc: string): (r: Option<string>)
    ensures r.Some? <==> '@' in netloc
    ensures r.Some? ==> ':' !in r.value
  {
    match UserInfo(netloc)
    case None => None
    case Some(info) => Partition(info, ':'); Some(BeforeFirst(info, ':'))
  }

  function Password(netloc: string): (r: Option<string>)
    ensures r.Some? ==> Username(netloc).Some? && UserInfo(netloc) == Some(Username(netloc).value + ":" + r.value)
    ensures '@' in netloc && r.None? ==> UserInfo(netloc) == Username(netloc)
  {
    match UserInfo(netloc)
    case None => None
    case Some(info) => Partition(info, ':'); if ':' in info then Some(AfterFirst(info, ':')) else None
  }

  /** `_hostinfo`: the host text and the port text (empty when there is no port). */
  function HostAndPort(netloc: string): (r: (string, string))
    ensures '@' !in r.0 && '@' !in r.1
    ensures '[' !in HostInfo(netloc) ==>
      ':' !in r.0 && (HostInfo(netloc) == r.0 || HostInfo(netloc) == r.0 + ":" + r.1)
  {
    var hi := HostInfo(netloc);
    PartitionAvoids(hi, '[', '@');
    if '[' in hi then
      var bracketed := AfterFirst(hi, '[');
      PartitionAvoids(bracketed, ']', '@');
      PartitionAvoids(AfterFirst(bracketed, ']'), ':', '@');
      (BeforeFirst(bracketed, ']'), AfterFirst(AfterFirst(bracketed, ']'), ':'))
    else
      Partition(hi, ':');
      PartitionAvoids(hi, ':', '@');
      (BeforeFirst(hi, ':'), AfterFirst(hi, ':'))
  }

  /** The `hostname` property. */
  function Hostname(netloc: string): (r: Option<string>)
    ensures r.Some? <==> |HostAndPort(netloc).0| > 0
    ensures r.Some? ==> |r.value| == |HostAndPort(netloc).0|
  {
    HostnameOf(HostAndPort(netloc).0)
  }

  /** The hostname of a host text: `None` when empty, otherwise lower-cased up to a '%'. */
  function HostnameOf(h: string): (r: Option<string>)
    ensures r.Some? <==> |h| > 0
    ensures r.Some? ==> |r.value| == |h|
    ensures r.Some? && '%' !in h ==> r.value == Lower(h)
  {
    if |h| == 0 then
      None
    else
      var p := FirstIndex(h, '%');
      Some(Lower(h[..p]) + h[p..])
  }

  /** The host text of a network location holds none of '@', '/', '?', '#'. */
  lemma HostAndPortAvoids(netloc: string)
    requires Avoids(netloc, NETLOC_END)
    ensures Avoids(HostAndPort(netloc).0, {'@', '/', '?', '#'})
  {
    var hi := HostInfo(netloc);
    var cs := {'@', '/', '?', '#'};
    assert Avoids(hi, cs);
    if '[' in hi {
      var k := FirstIndex(hi, '[');
      AvoidsSlice(hi, cs, k + 1, |hi|);
      var bracketed := AfterFirst(hi, '[');
      AvoidsSlice(bracketed, cs, 0, FirstIndex(bracketed, ']'));
    } else {
      AvoidsSlice(hi, cs, 0, FirstIndex(hi, ':'));
    }
  }

  /** Lower-casing keeps a host free of '@', '/', '?', '#'. */
  lemma HostnameAvoids(netloc: string)
    requires Avoids(netloc, NETLOC_END) && Hostname(netloc).Some?
    ensures Avoids(Hostname(netloc).value, {'@', '/', '?', '#'})
  {
    HostAndPortAvoids(netloc);
    HostnameOfAvoids(HostAndPort(netloc).0);
  }

  lemma HostnameOfAvoids(h: string)
    requires Avoids(h, {'@', '/', '?', '#'}) && HostnameOf(h).Some?
    ensures Avoids(HostnameOf(h).value, {'@', '/', '?', '#'})
  {
    LowerCaseZone(h, FirstIndex(h, '%'), {'@', '/', '?', '#'});
  }

  lemma LowerCaseZone(h: string, p: nat, cs: set<char>)
    requires p <= |h|
    requires forall c :: c in cs ==> !IsLetter(c)
    ensures Avoids(h, cs) ==> Avoids(Lower(h[..p]) + h[p..], cs)
  {
    if Avoids(h, cs) {
      AvoidsSlice(h, cs, 0, p);
      AvoidsSlice(h, cs, p, |h|);
      assert h[p..|h|] == h[p..];
      LowerAvoids(h[..p], cs);
      AvoidsConcat(Lower(h[..p]), h[p..], cs);
    }
  }

  /** The `port` property: `None` without a port, an error unless the port is ASCII
      digits with a value of at most 65535. */
  function Port(netloc: string): (r: Result<Option<nat>, ProxyError>)
    ensures r.Success? && r.value.Some? ==> r.value.value <= MAX_PORT
  {
    var t := HostAndPort(netloc).1;
    if |t| == 0 then Success(None)
    else if !AllDigits(t) then Failure(PortNotNumeric)
    else if DecimalValue(t) > MAX_PORT then Failure(PortOutOfRange)
    else Success(Some(DecimalValue(t)))
  }

  /** How an f-string shows an optional host: `None` shows as "None". */
  function HostText(host: Option<string>): string {
    match host
    case None => "None"
    case Some(h) => h
  }

  /** Credentials are passed on only when both are non-empty. */
  function Forwarded(username: Option<string>, password: Option<string>): Option<Credentials> {
    if username.Some? && username.value != "" && password.Some? && password.value != "" then
      Some(Credentials(username.value, password.value))
    else
      None
  }

  /** The split `parse_proxy` builds its result from: the string's own, or, when that has
      no scheme, the split of the string with "http://" in front. */
  function EffectiveSplit(proxy: string): (r: Result<Split, ProxyError>)
    ensures r.Success? ==> AllSchemeChars(r.value.scheme) && Avoids(r.value.netloc, NETLOC_END)
  {
    var first :- UrlSplit(proxy);
    if first.scheme == "" then UrlSplit(HTTP_PREFIX + proxy) else Success(first)
  }

  /** The port the server names: 80 when none or 0 is given. */
  function EffectivePort(port: Option<nat>): nat {
    if port.None? || port.value == 0 then DEFAULT_PORT else port.value
  }

  /** `f"{scheme}://{hostname}:{port or 80}"`. */
  function ServerOf(scheme: string, host: string, port: nat): string {
    scheme + "://" + host + ":" + NatToString(port)
  }

  /** The settings built from a split whose port was read successfully. */
  function SettingsOf(parsed: Split, port: Option<nat>): ProxySettings {
    ProxySettings(ServerOf(parsed.scheme, HostText(Hostname(parsed.netloc)), EffectivePort(port)),
                  Forwarded(Username(parsed.netloc), Password(parsed.netloc)))
  }

  /** `parse_proxy(proxy_str)`; a `Failure` is the `ValueError` it lets escape. */
  function ParseProxy(proxy: string): (r: Result<ProxySettings, ProxyError>)
    ensures UrlSplit(proxy).Failure? ==> r.Failure?
    ensures r.Success? && r.value.credentials.Some? ==>
      r.value.credentials.value.username != [] && r.value.credentials.value.password != []
  {
    var parsed :- EffectiveSplit(proxy);
    var port :- Port(parsed.netloc);
    Success(SettingsOf(parsed, port))
  }

  // ---------------------------------------------------------------------------
  // Properties of parse_proxy

  lemma ParseProxyOfSplit(proxy: string, parsed: Split, port: Option<nat>)
    requires EffectiveSplit(proxy) == Success(parsed) && Port(parsed.netloc) == Success(port)
    ensures ParseProxy(proxy) == Success(SettingsOf(parsed, port))
  {
  }

  /** Scheme characters are printable and are none of ':', '@', '/', '?', '#'. */
  lemma SchemeCharsAreSafe(s: string)
    requires AllSchemeChars(s)
    ensures Printable(s) && Avoids(s, {':', '@', '/', '?', '#', '[', ']'}) && Count(s, '/') == 0
  {
    assert '/' !in s;
    CountAbsent(s, '/');
  }

  /** The server `parse_proxy` builds never carries credentials, a query, a fragment or a
      path: it holds no '@', '?' or '#', and its only two '/' are those of "://". */
  predicate NoCredentialsOrPath(server: string) {
    Avoids(server, {'@', '?', '#'}) && Count(server, '/') == 2
  }

  lemma {:induction false} DigitsAvoid(s: string, cs: set<char>)
    requires AllDigits(s) && forall c :: c in cs ==> !IsDigit(c)
    ensures Printable(s) && Avoids(s, cs) && Count(s, '/') == 0
  {
    assert '/' !in s;
    CountAbsent(s, '/');
  }

  /** The host text of a network location holds none of '@', '/', '?', '#'. */
  lemma HostTextAvoids(netloc: string)
    requires Avoids(netloc, NETLOC_END)
    ensures Avoids(HostText(Hostname(netloc)), {'@', '/', '?', '#'})
  {
    if Hostname(netloc).None? {
      NoneAvoids();
    } else {
      HostnameAvoids(netloc);
    }
  }

  lemma NoneAvoids()
    ensures Avoids("None", {'@', '/', '?', '#'})
  {
    var none := "None";
    assert none == ['N', 'o', 'n', 'e'];
  }

  lemma ServerPieces(scheme: string, host: string, port: nat)
    requires AllSchemeChars(scheme) && Avoids(host, {'@', '/', '?', '#'})
    ensures NoCredentialsOrPath(ServerOf(scheme, host, port))
  {
    var digits := NatToString(port);
    var cs := {'@', '?', '#'};
    SchemeCharsAreSafe(scheme);
    DigitsAvoid(digits, cs);
    AvoidsConcat(scheme, "://", cs);
    AvoidsConcat(scheme + "://", host, cs);
    AvoidsConcat(scheme + "://" + host, ":", cs);
    AvoidsConcat(scheme + "://" + host + ":", digits, cs);
    assert '/' !in host;
    CountAbsent(host, '/');
    CountConcat(scheme, "://", '/');
    CountConcat(scheme + "://", host, '/');
    CountConcat(scheme + "://" + host, ":", '/');
    CountConcat(scheme + "://" + host + ":", digits, '/');
  }

  lemma ServerHasNoCredentialsOrPath(proxy: string)
    ensures ParseProxy(proxy).Success? ==> NoCredentialsOrPath(ParseProxy(proxy).value.server)
  {
    if ParseProxy(proxy).Success? {
      var parsed := EffectiveSplit(proxy).value;
      var port := Port(parsed.netloc).value;
      assert ParseProxy(proxy).value == SettingsOf(parsed, port);
      HostTextAvoids(parsed.netloc);
      ServerPieces(parsed.scheme, HostText(Hostname(parsed.netloc)), EffectivePort(port));
    }
  }

  lemma CleanedBehindHttp(rest: string)
    ensures Cleaned(HTTP_PREFIX + rest) == HTTP_PREFIX + RemoveUnsafe(rest)
  {
    HttpPrefixNotStripped(rest);
    RemoveUnsafeConcat(HTTP_PREFIX, rest);
    HttpPrefixIsPrintable();
    RemoveUnsafeKeepsPrintable(HTTP_PREFIX);
  }

  lemma HttpPrefixNotStripped(rest: string)
    ensures LStripControl(HTTP_PREFIX + rest) == HTTP_PREFIX + rest
  {
    assert (HTTP_PREFIX + rest)[0] == 'h';
  }

  lemma HttpPrefixIsPrintable()
    ensures Printable(HTTP_PREFIX)
  {
    var p := HTTP_PREFIX;
    assert p == ['h', 't', 't', 'p', ':', '/', '/'];
  }

  /** After "http://", `urlsplit` always finds the scheme "http", whatever follows. */
  lemma HttpPrefixGivesHttpScheme(rest: string)
    ensures UrlSplit(HTTP_PREFIX + rest).Success? ==> UrlSplit(HTTP_PREFIX + rest).value.scheme == DEFAULT_SCHEME
  {
    CleanedBehindHttp(rest);
    var u := HTTP_PREFIX + RemoveUnsafe(rest);
    assert u[0] == 'h' && u[1] == 't' && u[2] == 't' && u[3] == 'p' && u[4] == ':';
    assert FirstIndex(u, ':') == 4;
    assert u[..4] == DEFAULT_SCHEME;
    assert SchemeAt(u, 4);
    assert Lower(DEFAULT_SCHEME) == DEFAULT_SCHEME;
  }

  /** The scheme part of a server string: the text before its first ':'. */
  function ServerScheme(server: string): string {
    BeforeFirst(server, ':')
  }

  lemma ServerSchemeOf(scheme: string, host: string, port: nat)
    requires AllSchemeChars(scheme)
    ensures ServerScheme(ServerOf(scheme, host, port)) == scheme
  {
    var server := ServerOf(scheme, host, port);
    SchemeCharsAreSafe(scheme);
    assert server[|scheme|] == ':';
    assert forall j :: 0 <= j < |scheme| ==> server[j] == scheme[j];
    assert FirstIndex(server, ':') == |scheme|;
    assert server[..|scheme|] == scheme;
  }

  /** The server's scheme is the scheme of the split it was built from. */
  lemma ServerSchemeOfSplit(proxy: string)
    requires ParseProxy(proxy).Success?
    ensures ServerScheme(ParseProxy(proxy).value.server) == EffectiveSplit(proxy).value.scheme
  {
    var parsed := EffectiveSplit(proxy).value;
    var port := Port(parsed.netloc).value;
    assert ParseProxy(proxy).value == SettingsOf(parsed, port);
    ServerSchemeOf(parsed.scheme, HostText(Hostname(parsed.netloc)), EffectivePort(port));
  }

  /** A proxy string in which `urlsplit` finds no scheme is parsed exactly as the same
      string behind "http://", so the scheme of its server is "http". */
  lemma SchemelessMeansHttp(proxy: string)
    requires UrlSplit(proxy).Success? && UrlSplit(proxy).value.scheme == ""
    ensures ParseProxy(proxy) == ParseProxy(HTTP_PREFIX + proxy)
    ensures ParseProxy(proxy).Success? ==> ServerScheme(ParseProxy(proxy).value.server) == DEFAULT_SCHEME
  {
    SchemelessParsesBehindHttp(proxy);
    if ParseProxy(proxy).Success? {
      HttpPrefixGivesHttpScheme(proxy);
      ServerSchemeOfSplit(proxy);
    }
  }

  lemma SchemelessParsesBehindHttp(proxy: string)
    requires UrlSplit(proxy).Success? && UrlSplit(proxy).value.scheme == ""
    ensures ParseProxy(proxy) == ParseProxy(HTTP_PREFIX + proxy)
  {
    HttpPrefixGivesHttpScheme(proxy);
    assert EffectiveSplit(proxy) == UrlSplit(HTTP_PREFIX + proxy);
    if UrlSplit(HTTP_PREFIX + proxy).Success? {
      assert EffectiveSplit(HTTP_PREFIX + proxy) == UrlSplit(HTTP_PREFIX + proxy);
    }
  }

  /** A user name, password or host free of the characters that structure a URL. */
  predicate Plain(s: string) {
    Printable(s) && Avoids(s, {':', '@', '/', '?', '#', '[', ']', '%'})
  }

  predicate PlainCredentials(creds: Option<Credentials>) {
    creds.Some? ==> Plain(creds.value.username) && Plain(creds.value.password)
  }

  /** The text "user:password@" that writes credentials into a proxy string. */
  function UserPart(creds: Option<Credentials>): string {
    match creds
    case None => ""
    case Some(c) => c.username + [':'] + c.password + ['@']
  }

  /** The text "host[:port]" that follows it. */
  function HostPart(host: string, port: Option<nat>): string {
    match port
    case None => host
    case Some(p) => host + [':'] + NatToString(p)
  }

  /** The port text of a network location written with this port. */
  function PortText(port: Option<nat>): string {
    match port
    case None => ""
    case Some(p) => NatToString(p)
  }

  /** A network location written from its components. */
  function Netloc(creds: Option<Credentials>, host: string, port: Option<nat>): string {
    UserPart(creds) + HostPart(host, port)
  }

  /** The settings a proxy written from these components should parse to: the scheme and
      host lower-cased, port 80 when none or 0 is given, credentials only when both are
      non-empty, and an error for a port beyond 65535. */
  function SettingsFor(scheme: string, creds: Option<Credentials>, host: string, port: Option<nat>)
    : Result<ProxySettings, ProxyError>
  {
    if port.Some? && port.value > MAX_PORT then
      Failure(PortOutOfRange)
    else
      var p := if port.None? || port.value == 0 then DEFAULT_PORT else port.value;
      var forwarded := if creds.Some? && creds.value.username != "" && creds.value.password != ""
                       then creds else None;
      Success(ProxySettings(Lower(scheme) + "://" + Lower(host) + ":" + NatToString(p), forwarded))
  }

  lemma UserPartIsPlain(creds: Option<Credentials>, cs: set<char>)
    requires PlainCredentials(creds) && cs <= {'/', '?', '#', '[', ']'}
    ensures Printable(UserPart(creds)) && Avoids(UserPart(creds), cs)
  {
    if creds.Some? {
      var c := creds.value;
      PrintableConcat(c.username, [':']);
      PrintableConcat(c.username + [':'], c.password);
      PrintableConcat(c.username + [':'] + c.password, ['@']);
      AvoidsConcat(c.username, [':'], cs);
      AvoidsConcat(c.username + [':'], c.password, cs);
      AvoidsConcat(c.username + [':'] + c.password, ['@'], cs);
    }
  }

  lemma HostPartIsPlain(host: string, port: Option<nat>, cs: set<char>)
    requires Plain(host) && cs <= {'@', '/', '?', '#', '[', ']'}
    ensures Printable(HostPart(host, port)) && Avoids(HostPart(host, port), cs)
  {
    if port.Some? {
      var digits := NatToString(port.value);
      DigitsAvoid(digits, cs);
      PrintableConcat(host, [':']);
      PrintableConcat(host + [':'], digits);
      AvoidsConcat(host, [':'], cs);
      AvoidsConcat(host + [':'], digits, cs);
    }
  }

  lemma NetlocIsPlain(creds: Option<Credentials>, host: string, port: Option<nat>)
    requires PlainCredentials(creds) && Plain(host)
    ensures Printable(Netloc(creds, host, port)) && Avoids(Netloc(creds, host, port), {'/', '?', '#', '[', ']'})
  {
    var cs := {'/', '?', '#', '[', ']'};
    UserPartIsPlain(creds, cs);
    HostPartIsPlain(host, port, cs);
    PrintableConcat(UserPart(creds), HostPart(host, port));
    AvoidsConcat(UserPart(creds), HostPart(host, port), cs);
  }

  lemma ColonSlashes(a: string, b: string)
    ensures a + "://" + b == a + [':'] + ("//" + b)
  {
  }

  /** Nothing is stripped or deleted from a printable string. */
  lemma CleanedPrintable(s: string)
    requires Printable(s)
    ensures Cleaned(s) == s
  {
    assert LStripControl(s) == s;
    RemoveUnsafeKeepsPrintable(s);
  }

  /** A scheme followed by ':' is found as the scheme, and the rest is split after it. */
  lemma SplitAfterScheme(scheme: string, rest: string)
    requires |scheme| > 0 && IsLetter(scheme[0]) && AllSchemeChars(scheme)
    ensures SplitCleaned(scheme + [':'] + rest) == Checked(Lower(scheme), NetlocPart(rest))
  {
    SchemeCharsAreSafe(scheme);
    FirstIndexAt(scheme, ':', rest);
    SchemeColonSlices(scheme, rest);
  }

  lemma SchemeColonSlices(scheme: string, rest: string)
    requires |scheme| > 0 && IsLetter(scheme[0]) && AllSchemeChars(scheme)
    ensures var u := scheme + [':'] + rest;
      u[..|scheme|] == scheme && u[|scheme| + 1..] == rest && SchemeAt(u, |scheme|)
  {
    var u := scheme + [':'] + rest;
    assert u[..|scheme|] == scheme;
    assert u[|scheme| + 1..] == rest;
  }

  lemma NetlocPartOfPlain(netloc: string)
    requires Avoids(netloc, NETLOC_END)
    ensures NetlocPart("//" + netloc) == netloc
  {
    var rest := "//" + netloc;
    assert StartsWith(rest, "//");
    assert rest[2..] == netloc;
    FirstIndexOfAnyAbsent(netloc, NETLOC_END);
    assert netloc[..|netloc|] == netloc;
  }

  /** `urlsplit` takes a well-formed scheme and a plain network location apart again. */
  lemma SplitOfComposed(scheme: string, netloc: string)
    requires |scheme| > 0 && IsLetter(scheme[0]) && AllSchemeChars(scheme)
    requires Printable(netloc) && Avoids(netloc, {'/', '?', '#', '[', ']'})
    ensures UrlSplit(scheme + "://" + netloc) == Success(Split(Lower(scheme), netloc))
  {
    var s := scheme + "://" + netloc;
    ColonSlashes(scheme, netloc);
    SchemeCharsAreSafe(scheme);
    PrintableConcat(scheme, "://");
    PrintableConcat(scheme + "://", netloc);
    CleanedPrintable(s);
    SplitAfterScheme(scheme, "//" + netloc);
    NetlocPartOfPlain(netloc);
    assert '[' !in netloc && ']' !in netloc;
  }

  /** The credentials written in front of a host come back out as the host information
      and as the forwarded user name and password. */
  lemma CredentialsOfNetloc(creds: Option<Credentials>, hp: string)
    requires PlainCredentials(creds) && '@' !in hp
    ensures HostInfo(UserPart(creds) + hp) == hp
    ensures Forwarded(Username(UserPart(creds) + hp), Password(UserPart(creds) + hp)) ==
            (if creds.Some? && creds.value.username != "" && creds.value.password != ""
             then creds else None)
  {
    var netloc := UserPart(creds) + hp;
    match creds {
      case None =>
        assert netloc == hp;
        LastIndexAbsent(hp, '@');
        assert hp[0..] == hp;
      case Some(c) =>
        var info := c.username + [':'] + c.password;
        assert netloc == info + ['@'] + hp;
        LastIndexAt(info, '@', hp);
        assert netloc[..|info|] == info;
        assert netloc[|info| + 1..] == hp;
        FirstIndexAt(c.username, ':', c.password);
        assert info[..|c.username|] == c.username;
        assert info[|c.username| + 1..] == c.password;
    }
  }

  /** `_hostinfo` takes "host[:port]" apart again. */
  lemma HostAndPortOf(netloc: string, host: string, port: Option<nat>)
    requires Plain(host) && HostInfo(netloc) == HostPart(host, port)
    ensures HostAndPort(netloc) == (host, PortText(port))
  {
    var hi := HostPart(host, port);
    HostPartIsPlain(host, port, {'['});
    match port {
      case None =>
        FirstIndexAbsent(host, ':');
        assert host[..|host|] == host;
      case Some(p) =>
        FirstIndexAt(host, ':', NatToString(p));
        assert hi[..|host|] == host;
        assert hi[|host| + 1..] == NatToString(p);
    }
  }

  lemma HostnameOfPlain(netloc: string, host: string)
    requires Plain(host) && host != "" && HostAndPort(netloc).0 == host
    ensures Hostname(netloc) == Some(Lower(host))
  {
    FirstIndexAbsent(host, '%');
    assert host[..|host|] == host;
    assert host[|host|..] == [];
    assert Lower(host[..|host|]) + host[|host|..] == Lower(host);
  }

  lemma PortOfText(netloc: string, port: Option<nat>)
    requires HostAndPort(netloc).1 == PortText(port)
    ensures Port(netloc) == (if port.Some? && port.value > MAX_PORT then Failure(PortOutOfRange)
                             else Success(port))
  {
    if port.Some? {
      NatToStringRoundTrip(port.value);
    }
  }

  /** The split of a proxy string written with a scheme. */
  lemma SplitOfNetloc(scheme: string, creds: Option<Credentials>, host: string, port: Option<nat>)
    requires |scheme| > 0 && IsLetter(scheme[0]) && AllSchemeChars(scheme)
    requires PlainCredentials(creds) && Plain(host)
    ensures var netloc := Netloc(creds, host, port);
      EffectiveSplit(scheme + "://" + netloc) == Success(Split(Lower(scheme), netloc))
  {
    var netloc := Netloc(creds, host, port);
    NetlocIsPlain(creds, host, port);
    SplitOfComposed(scheme, netloc);
  }

  /** The hostname, the forwarded credentials and the port of a written network location. */
  lemma FieldsOfNetloc(creds: Option<Credentials>, host: string, port: Option<nat>)
    requires PlainCredentials(creds) && Plain(host) && host != ""
    ensures var netloc := Netloc(creds, host, port);
      && Hostname(netloc) == Some(Lower(host))
      && Forwarded(Username(netloc), Password(netloc)) ==
         (if creds.Some? && creds.value.username != "" && creds.value.password != ""
          then creds else None)
      && Port(netloc) == (if port.Some? && port.value > MAX_PORT then Failure(PortOutOfRange)
                          else Success(port))
  {
    var netloc := Netloc(creds, host, port);
    HostPartIsPlain(host, port, {'@'});
    CredentialsOfNetloc(creds, HostPart(host, port));
    HostAndPortOf(netloc, host, port);
    HostnameOfPlain(netloc, host);
    PortOfText(netloc, port);
  }

  /** Round trip: a proxy written as "scheme://[user:password@]host[:port]" parses back to
      its components. */
  lemma RoundTripWithScheme(scheme: string, creds: Option<Credentials>, host: string, port: Option<nat>)
    requires |scheme| > 0 && IsLetter(scheme[0]) && AllSchemeChars(scheme)
    requires PlainCredentials(creds) && Plain(host) && host != ""
    ensures ParseProxy(scheme + "://" + Netloc(creds, host, port)) == SettingsFor(scheme, creds, host, port)
  {
    var netloc := Netloc(creds, host, port);
    SplitOfNetloc(scheme, creds, host, port);
    FieldsOfNetloc(creds, host, port);
    if !(port.Some? && port.value > MAX_PORT) {
      ParseProxyOfSplit(scheme + "://" + netloc, Split(Lower(scheme), netloc), port);
    }
  }

  /** A printable string that does not start with '/' and cannot hold a scheme (its
      first character is no letter, or it has no ':') splits into no scheme and no
      network location. */
  lemma SchemelessSplit(s: string)
    requires Printable(s) && s != [] && s[0] != '/'
    requires !IsLetter(s[0]) || ':' !in s
    ensures UrlSplit(s) == Success(Split("", ""))
  {
    CleanedPrintable(s);
    if ':' !in s {
      FirstIndexAbsent(s, ':');
    }
    assert !SchemeAt(s, FirstIndex(s, ':'));
    assert NetlocPart(s) == "";
  }

  lemma DefaultSchemeIsWellFormed()
    ensures |DEFAULT_SCHEME| > 0 && IsLetter(DEFAULT_SCHEME[0]) && AllSchemeChars(DEFAULT_SCHEME)
  {
    var d := DEFAULT_SCHEME;
    assert d == ['h', 't', 't', 'p'];
  }

  lemma HttpPrefixIsDefaultScheme(s: string)
    ensures HTTP_PREFIX + s == DEFAULT_SCHEME + "://" + s
  {
  }

  /** Round trip without a scheme: when the string does not start with a letter (an IPv4
      address, say), or holds no ':' at all, it parses as if "http://" stood in front. */
  lemma RoundTripWithoutScheme(creds: Option<Credentials>, host: string, port: Option<nat>)
    requires PlainCredentials(creds) && Plain(host) && host != ""
    requires !IsLetter(Netloc(creds, host, port)[0]) || (creds.None? && port.None?)
    ensures ParseProxy(Netloc(creds, host, port)) == SettingsFor(DEFAULT_SCHEME, creds, host, port)
  {
    var s := Netloc(creds, host, port);
    SchemelessNetloc(creds, host, port);
    SchemelessParsesBehindHttp(s);
    HttpPrefixIsDefaultScheme(s);
    DefaultSchemeIsWellFormed();
    RoundTripWithScheme(DEFAULT_SCHEME, creds, host, port);
  }

  lemma SchemelessNetloc(creds: Option<Credentials>, host: string, port: Option<nat>)
    requires PlainCredentials(creds) && Plain(host) && host != ""
    requires !IsLetter(Netloc(creds, host, port)[0]) || (creds.None? && port.None?)
    ensures UrlSplit(Netloc(creds, host, port)) == Success(Split("", ""))
  {
    var s := Netloc(creds, host, port);
    NetlocIsPlain(creds, host, port);
    if creds.None? && port.None? {
      assert s == host;
    }
    SchemelessSplit(s);
  }

  lemma NoneServer(scheme: string)
    ensures ServerOf(scheme, "None", DEFAULT_PORT) == scheme + "://None:80"
  {
    assert NatToString(DEFAULT_PORT) == "80";
  }

  /** An empty network location has no host and no credentials. */
  lemma SettingsOfEmptyNetloc(scheme: string)
    ensures SettingsOf(Split(scheme, ""), None) == ProxySettings(scheme + "://None:80", None)
  {
    EmptyUsername();
    EmptyPassword();
    EmptyHostname();
    NoneServer(scheme);
  }

  /** The fields of an empty network location, stated for a variable so that the
      verifier does not evaluate the recursive functions on the literal "". */
  lemma EmptyHostInfoOf(netloc: string)
    requires |netloc| == 0
    ensures HostInfo(netloc) == netloc
  {
    assert LastIndex(netloc, '@') == -1;
  }

  lemma EmptyUserInfoOf(netloc: string)
    requires |netloc| == 0
    ensures UserInfo(netloc) == None
  {
    assert LastIndex(netloc, '@') == -1;
  }

  lemma EmptyHostAndPortOf(netloc: string)
    requires |netloc| == 0
    ensures HostAndPort(netloc) == (netloc, netloc)
  {
    EmptyHostInfoOf(netloc);
    EmptyPartition(HostInfo(netloc));
  }

  lemma EmptyPartition(s: string)
    requires |s| == 0
    ensures '[' !in s && (BeforeFirst(s, ':'), AfterFirst(s, ':')) == (s, s)
  {
    assert FirstIndex(s, ':') == 0;
  }

  lemma EmptyHostInfo()
    ensures HostInfo("") == "" && UserInfo("") == None
  {
    EmptyHostInfoOf("");
    EmptyUserInfoOf("");
  }

  lemma EmptyHostAndPort()
    ensures HostAndPort("") == ("", "")
  {
    EmptyHostAndPortOf("");
  }

  lemma EmptyPort()
    ensures Port("") == Success(None)
  {
    EmptyHostAndPort();
  }

  lemma EmptyUsername()
    ensures Username("") == None
  {
    EmptyHostInfo();
  }

  lemma EmptyPassword()
    ensures Password("") == None
  {
    EmptyHostInfo();
  }

  lemma EmptyHostname()
    ensures Hostname("") == None
  {
    EmptyHostAndPort();
  }

  lemma UrlSplitAfterScheme(scheme: string, rest: string)
    requires |scheme| > 0 && IsLetter(scheme[0]) && AllSchemeChars(scheme) && Printable(rest)
    ensures UrlSplit(scheme + [':'] + rest) == Checked(Lower(scheme), NetlocPart(rest))
  {
    SchemeCharsAreSafe(scheme);
    PrintableConcat(scheme, [':']);
    PrintableConcat(scheme + [':'], rest);
    CleanedPrintable(scheme + [':'] + rest);
    SplitAfterScheme(scheme, rest);
  }

  lemma SplitOfHostPort(name: string, rest: string)
    requires |name| > 0 && IsLetter(name[0]) && AllSchemeChars(name)
    requires Printable(rest) && !StartsWith(rest, "//")
    ensures EffectiveSplit(name + ":" + rest) == Success(Split(Lower(name), ""))
  {
    UrlSplitAfterScheme(name, rest);
    assert NetlocPart(rest) == "";
    assert |Lower(name)| > 0;
  }

  /** As written, a string such as "proxy.example.com:8080" or "user:pass@host:1", whose
      text before the first ':' is a letter followed by scheme characters, has that text
      read as its scheme: the server becomes "<text>://None:80" and no credentials pass. */
  lemma HostPortReadAsScheme(name: string, rest: string)
    requires |name| > 0 && IsLetter(name[0]) && AllSchemeChars(name)
    requires Printable(rest) && !StartsWith(rest, "//")
    ensures ParseProxy(name + ":" + rest) == Success(ProxySettings(Lower(name) + "://None:80", None))
  {
    SplitOfHostPort(name, rest);
    EmptyPort();
    SettingsOfEmptyNetloc(Lower(name));
    ParseProxyOfSplit(name + ":" + rest, Split(Lower(name), ""), None);
  }
}
