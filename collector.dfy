/** One attempt of `get_cookies_via_playwright` in cookie_collector/collector.py, as a
    function of what each browser step turned out to do. The browser, the page and the
    solver service are not modelled; each step is a field of `PageRun` saying whether it
    raised and what it returned. */
module Collector {
  import opened Wrappers
  import Proxy
  import Captcha

  /** The status that marks the captcha page. */
  const CHALLENGE_STATUS := 429
  /** An attempt with at most this many raw cookies is rejected. */
  const MAX_REJECTED_COOKIES := 11

  /** One entry of `context.cookies()`: only its name and value are used. */
  datatype RawCookie = RawCookie(name: string, value: string)

  /** `page.goto(...)`: raised (a timeout, say), returned no response, or a response. */
  datatype Navigation = GotoRaised | NoResponse | Response(status: int)

  /** The submit step after the token is injected: no button found, button clicked, or
      the lookup or the click raised. A failed wait for "networkidle" is swallowed and
      counts as clicked. */
  datatype Submit = NoSubmitButton | SubmitClicked | SubmitFailed

  /** `context.cookies()`: raised, or the raw list. */
  datatype CookieRead = ReadFailed | ReadCookies(raw: seq<RawCookie>)

  /** What the browser did in one attempt.
      `launched`: the browser started; `pageOpened`: the context and the page were created;
      `sitekey`: what the sitekey lookup (whose exceptions are swallowed) left behind;
      `solver`: the reply of the solver service; `injected`: evaluating the token script
      and the following wait succeeded; the consent banner is swallowed either way. */
  datatype PageRun = PageRun(
    launched: bool,
    pageOpened: bool,
    navigation: Navigation,
    sitekey: Option<string>,
    solver: Captcha.Reply,
    injected: bool,
    submit: Submit,
    cookies: CookieRead)

  /** The result of one attempt: an exception escaping to the caller, `None`, or the
      triple `(cookies_dict, used_proxy, after_captcha)`. */
  datatype Outcome =
    | Raised
    | NoResult
    | Harvested(cookies: map<string, string>, proxy: string, afterCaptcha: bool)

  /** `response.status if response else 0`. */
  function StatusOf(navigation: Navigation): int
    requires !navigation.GotoRaised?
  {
    if navigation.Response? then navigation.status else 0
  }

  /** `{c["name"]: c["value"] for c in raw_cookies}`: entries are inserted in order, so
      a later cookie with the same name replaces an earlier one. */
  function CookieMap(raw: seq<RawCookie>): (m: map<string, string>)
    ensures forall n :: n in m <==> exists i :: 0 <= i < |raw| && raw[i].name == n
  {
    if |raw| == 0 then
      map[]
    else
      var last := raw[|raw| - 1];
      CookieMap(raw[..|raw| - 1])[last.name := last.value]
  }

  /** Whether the token branch runs and ends in an exception: the token was obtained, and
      then the script injection or the submit step raised. */
  predicate ChallengeRaises(apiKey: string, run: PageRun) {
    && run.sitekey.Some? && run.sitekey.value != "" && apiKey != ""
    && Captcha.Obtained(Captcha.Solve(run.solver))
    && (!run.injected || run.submit == SubmitFailed)
  }

  /** The cookie step: `None` on an exception or on too few raw cookies. */
  function Harvest(cookies: CookieRead, proxy: string): (o: Outcome)
    ensures o.Harvested? <==> cookies.ReadCookies? && |cookies.raw| > MAX_REJECTED_COOKIES
    ensures o.Harvested? ==> o.cookies == CookieMap(cookies.raw) && o.proxy == proxy && o.afterCaptcha
    ensures o.Raised? == false
  {
    match cookies
    case ReadFailed => NoResult
    case ReadCookies(raw) =>
      if |raw| <= MAX_REJECTED_COOKIES then NoResult
      else Harvested(CookieMap(raw), proxy, true)
  }

  /** One call of `get_cookies_via_playwright(page_url, pool, api_key)`, with `pick` the
      index `random.choice` draws. `random.choice` on an empty pool, a `ValueError` of
      `parse_proxy` and a failed launch escape; every later exception is caught and
      gives `None`. */
  function Attempt(pool: seq<string>, pick: nat, apiKey: string, run: PageRun): (o: Outcome)
    requires pool == [] || pick < |pool|
    ensures o.Harvested? ==>
      && pool != [] && run.navigation == Response(CHALLENGE_STATUS)
      && run.cookies.ReadCookies? && o.cookies == CookieMap(run.cookies.raw)
      && o.proxy == pool[pick] && o.afterCaptcha
  {
    if pool == [] then
      Raised
    else
      var used := pool[pick];
      if Proxy.ParseProxy(used).Failure? || !run.launched then
        Raised
      else if !run.pageOpened || run.navigation.GotoRaised? then
        NoResult
      else if StatusOf(run.navigation) != CHALLENGE_STATUS then
        NoResult
      else if ChallengeRaises(apiKey, run) then
        NoResult
      else
        Harvest(run.cookies, used)
  }

  // ---------------------------------------------------------------------------
  // Properties of get_cookies_via_playwright

  /** Cookies are harvested only after a 429 response. */
  lemma StatusGate(pool: seq<string>, pick: nat, apiKey: string, run: PageRun)
    requires pool == [] || pick < |pool|
    requires run.navigation != Response(CHALLENGE_STATUS)
    ensures !Attempt(pool, pick, apiKey, run).Harvested?
  {
  }

  /** A harvest reports the proxy string that was drawn, unparsed, and always says
      `after_captcha`. */
  lemma HarvestReportsProxy(pool: seq<string>, pick: nat, apiKey: string, run: PageRun)
    requires pool == [] || pick < |pool|
    requires Attempt(pool, pick, apiKey, run).Harvested?
    ensures pool != [] && Attempt(pool, pick, apiKey, run).proxy == pool[pick]
    ensures Attempt(pool, pick, apiKey, run).afterCaptcha
    ensures run.cookies.ReadCookies? && Attempt(pool, pick, apiKey, run).cookies == CookieMap(run.cookies.raw)
    ensures Proxy.ParseProxy(pool[pick]).Success?
  {
  }

  /** The whole gate: an attempt harvests exactly when the pool is not empty, the drawn
      proxy parses, the browser and page come up, the page answers 429, the token branch
      (if taken) does not raise, and more than 11 raw cookies are read. */
  lemma HarvestedIff(pool: seq<string>, pick: nat, apiKey: string, run: PageRun)
    requires pool == [] || pick < |pool|
    ensures Attempt(pool, pick, apiKey, run).Harvested? <==>
      && pool != []
      && Proxy.ParseProxy(pool[pick]).Success?
      && run.launched && run.pageOpened
      && run.navigation == Response(CHALLENGE_STATUS)
      && !ChallengeRaises(apiKey, run)
      && run.cookies.ReadCookies? && |run.cookies.raw| >= 12
  {
  }

  /** Only an empty pool, a proxy string `parse_proxy` rejects, or a browser that does
      not start lets an exception escape. */
  lemma RaisedIff(pool: seq<string>, pick: nat, apiKey: string, run: PageRun)
    requires pool == [] || pick < |pool|
    ensures Attempt(pool, pick, apiKey, run).Raised? <==>
      pool == [] || Proxy.ParseProxy(pool[pick]).Failure? || !run.launched
  {
  }

  /** The captcha steps are best effort: when no token is obtained (no sitekey, no API
      key, or no usable reply), the attempt ends as if no API key had been given. */
  lemma ChallengeIsBestEffort(pool: seq<string>, pick: nat, apiKey: string, run: PageRun)
    requires pool == [] || pick < |pool|
    requires !Captcha.Obtained(Captcha.Solve(run.solver)) || run.sitekey.None? || run.sitekey == Some("")
    ensures Attempt(pool, pick, apiKey, run) == Attempt(pool, pick, "", run)
  {
  }

  /** A successful injection and submit leaves the result to the cookie step alone. */
  lemma InjectedTokenFallsThrough(pool: seq<string>, pick: nat, apiKey: string, run: PageRun)
    requires pick < |pool|
    requires Proxy.ParseProxy(pool[pick]).Success? && run.launched && run.pageOpened
    requires run.navigation == Response(CHALLENGE_STATUS)
    requires run.injected && run.submit != SubmitFailed
    ensures Attempt(pool, pick, apiKey, run) == Harvest(run.cookies, pool[pick])
  {
  }

  /** The reject is on the number of raw cookies: eleven are rejected, twelve accepted. */
  lemma CookieCountBoundary(proxy: string, raw: seq<RawCookie>)
    ensures |raw| == 11 ==> Harvest(ReadCookies(raw), proxy) == NoResult
    ensures |raw| == 12 ==> Harvest(ReadCookies(raw), proxy).Harvested?
  {
  }

  /** The value for a name is the value of the last raw cookie with that name. */
  lemma {:induction false} LaterDuplicatesWin(raw: seq<RawCookie>, i: nat)
    requires i < |raw|
    requires forall j :: i < j < |raw| ==> raw[j].name != raw[i].name
    ensures raw[i].name in CookieMap(raw) && CookieMap(raw)[raw[i].name] == raw[i].value
  {
    if i < |raw| - 1 {
      var init := raw[..|raw| - 1];
      assert forall j :: i < j < |init| ==> init[j] == raw[j];
      LaterDuplicatesWin(init, i);
    }
  }

  /** Twelve raw cookies sharing one name still pass the count check, and the
      dictionary then holds a single entry. */
  lemma DuplicatesStillCount(c: RawCookie, proxy: string)
    ensures var raw := seq(12, _ => c);
      Harvest(ReadCookies(raw), proxy) == Harvested(map[c.name := c.value], proxy, true)
  {
    var raw := seq(12, _ => c);
    var m := CookieMap(raw);
    assert raw[11] == c;
    LaterDuplicatesWin(raw, 11);
    assert m.Keys == {c.name};
    assert m == map[c.name := c.value];
  }
}
