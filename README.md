# Cookie harvesting: a Dafny model

This project models the core of a cookie-harvesting system.

- A **collector** drives a browser through a randomly drawn proxy to a page. It solves the reCAPTCHA behind an HTTP 429 answer with the RuCaptcha service and keeps the browser's cookies.
- A **cleaner** periodically deletes the older half of the stored cookie sets.
- An **HTTP API** hands out stored cookie sets, and starts and stops the two programs by means of pid files.

The model is split into modules as follows:

- `Proxy` (proxy.dfy) is `parse_proxy`. It includes the part of `urllib.parse.urlsplit` that `parse_proxy` relies on, and the `hostname`, `port`, `username` and `password` properties. urllib.parse is not part of this model; its behaviour is written out after CPython 3.12.
- `Captcha` (captcha.dfy) is how `solve_recaptcha_rucaptcha` reads the reply of the solver library.
- `Collector` (collector.dfy) is one call of `get_cookies_via_playwright` as a pure function. Every browser step is an input saying whether the step raised and what it returned.
- `Store` (store.dfy) is the `cookies` table as a class over a sequence of rows, with the two deletions issued against it.
- `Cleaner` (cleaner.dfy) is `cleanup_old_cookies` as a method on that table. It is specified by the function `AfterCleanup`.
- `Api` (api.dfy) holds:
  - the two getters as functions of the table;
  - the parsing of a pid file;
  - a `Supervisor` class whose methods are the pid-file helpers and the start and stop endpoints. Its state is a map from program to pid-file contents, plus the set of pids a signal can reach.
- `Text` (text.dfy) and `Wrappers` (wrappers.dfy) are shared helpers: character classes, searching, lower-casing, decimal digits, and `Option` and `Result`.

Python's rules are spelled out where the code depends on them:

- truthiness and `x or y`;
- `False == 0`;
- a dict comprehension keeps the last value of a repeated key;
- `str.strip()` whitespace;
- `int()` on an optional sign followed by ASCII digits.

Randomness is a parameter. The index `random.choice` draws and the pid the operating system assigns are both inputs.

Behaviour that may surprise:

- `parse_proxy` adds "http://" only when `urlsplit` finds no scheme. `urlsplit` first strips leading control characters and spaces and removes every tab, carriage return and line feed. It then finds a scheme exactly when the text before the first ':' is non-empty, starts with an ASCII letter, and holds only ASCII letters, digits, '+', '-' and '.' (`Proxy.SchemeFoundIff`). So a proxy string `host:port` whose host is made of those characters and starts with a letter (say `proxy.example.com:8080`) is read as having the scheme `proxy.example.com`. It produces the server `proxy.example.com://None:80` and forwards no credentials (`Proxy.HostPortReadAsScheme`). A string such as `user@host:8080` or `my_proxy:8080` has another character before its ':', so it gets "http://" in front (`Proxy.SchemelessMeansHttp`). `Proxy.RoundTripWithoutScheme` proves one instance of the rule: written proxy strings that do not start with a letter, or that hold no ':'.
- A response status other than 429 ends the attempt with no result; it is not harvested (`Collector.StatusGate`).
- `after_captcha` is true in every harvested result, including when no captcha was solved (`Collector.HarvestReportsProxy`).
- The minimum-count check is on the number of raw cookies, not on the size of the dictionary built from them. Twelve cookies that share one name pass and give a single entry (`Collector.DuplicatesStillCount`).
- An exception in the token injection or the submit step ends the attempt with no result. So does an exception in reading the cookies.
- The following exceptions are not caught, and escape to the caller (`Collector.RaisedIff`):
  - `random.choice` on an empty pool;
  - a `ValueError` of `parse_proxy`;
  - a browser that fails to launch.

## Model

| member | source | states |
|---|---|---|
| Proxy.UrlSplit | cookie_collector/collector.py:171 | A successful split has a scheme made only of scheme characters, and a network location holding no '/', '?' or '#' |
| Proxy.EffectiveSplit | cookie_collector/collector.py:171-173 | The split used, from the string itself or from "http://" followed by the string, has the same two properties |
| Proxy.Port | cookie_collector/collector.py:174 | A port that is read successfully is at most 65535 |
| Proxy.ParseProxy | cookie_collector/collector.py:168-178 | A string `urlsplit` rejects is an error; forwarded credentials are never empty. It is pinned down by `RoundTripWithScheme` (against the independent `SettingsFor`), `SchemelessMeansHttp` and `ServerHasNoCredentialsOrPath` |
| Proxy.SchemelessMeansHttp | cookie_collector/collector.py:171-174 | A string in which no scheme is found parses exactly as the same string behind "http://", and its server's scheme is "http" |
| Proxy.SchemeFoundIff | cookie_collector/collector.py:171-172 | A successful split has a scheme exactly when, in the cleaned string, the text before the first ':' is non-empty, starts with an ASCII letter and holds only scheme characters |
| Proxy.HttpPrefixGivesHttpScheme | cookie_collector/collector.py:173 | Behind "http://", a successful split always has the scheme "http", whatever follows |
| Proxy.ServerSchemeOfSplit | cookie_collector/collector.py:174 | The text of the server before its first ':' is the scheme of the split it was built from |
| Proxy.ServerHasNoCredentialsOrPath | cookie_collector/collector.py:174 | Every server produced holds no '@', '?' or '#', and exactly two '/' (those of "://") |
| Proxy.HostTextAvoids | cookie_collector/collector.py:174 | The host shown in the server (the hostname, or "None") holds none of '@', '/', '?', '#' |
| Proxy.Username | cookie_collector/collector.py:176-177 | There is a user name exactly when the network location holds an '@', and it holds no ':' (characterised by `CredentialsOfNetloc`) |
| Proxy.Password | cookie_collector/collector.py:176-177 | A password comes with a user name, and the user information is the user name, ':' and the password; without a password the user information is the user name |
| Proxy.HostAndPort | cookie_collector/collector.py:174 | Neither the host text nor the port text holds an '@'; without brackets, the host holds no ':' and the host information is the host, or the host, ':' and the port (characterised by `HostAndPortOf`) |
| Proxy.Hostname | cookie_collector/collector.py:174 | There is a hostname exactly when the host text is not empty, and it is as long as the host text (characterised by `HostnameOfPlain`) |
| Proxy.SplitOfComposed | cookie_collector/collector.py:171 | `urlsplit` of "scheme://netloc" gives back the lower-cased scheme and the network location, when the netloc holds no '/', '?', '#', '[', ']' |
| Proxy.CredentialsOfNetloc | cookie_collector/collector.py:176-177 | "user:password@" in front of a host comes back as the host information; credentials are forwarded exactly when both parts are non-empty |
| Proxy.FieldsOfNetloc | cookie_collector/collector.py:174-177 | A written network location gives back the lower-cased host, the forwarded credentials, and the port, or an error above 65535 |
| Proxy.RoundTripWithScheme | cookie_collector/collector.py:168-178 | "scheme://[user:password@]host[:port]" parses to the lower-cased scheme and host, the port, or 80 when none or 0, and the credentials when both are non-empty; a port above 65535 is an error |
| Proxy.RoundTripWithoutScheme | cookie_collector/collector.py:171-178 | The same string without "scheme://" parses as if "http://" stood in front, when it does not start with a letter or holds no ':' |
| Proxy.SettingsOfEmptyNetloc | cookie_collector/collector.py:174-177 | An empty network location gives the server "scheme://None:80" and no credentials |
| Proxy.HostPortReadAsScheme | cookie_collector/collector.py:171-174 | "name:rest" (name a letter followed by scheme characters, rest not starting with "//") parses to the lower-cased name followed by "://None:80", with no credentials |
| Captcha.Solve | cookie_collector/solve_captcha.py:16-35 | A returned token comes from a dictionary reply with error id 0 and status "ready"; it is the "gRecaptchaResponse" or the "token" of the solution, and is a string or a list |
| Captcha.NotReadyGivesNone | cookie_collector/solve_captcha.py:24-32 | An error id other than 0, or a status other than "ready", gives no token |
| Captcha.HandlerRaisedGivesNone | cookie_collector/solve_captcha.py:16-35 | An exception of the solver library gives no token and does not escape |
| Captcha.PrefersGRecaptchaResponse | cookie_collector/solve_captcha.py:26 | A non-empty "gRecaptchaResponse" string is returned, whatever "token" holds |
| Captcha.FallsBackToToken | cookie_collector/solve_captcha.py:26 | Without a truthy "gRecaptchaResponse", a string "token" is returned |
| Captcha.MissingSolutionGivesNone | cookie_collector/solve_captcha.py:25-28 | A missing or false solution gives no token, because slicing `None` raises |
| Captcha.OddTokenGivesNone | cookie_collector/solve_captcha.py:28-35 | A truthy token that can be neither sliced nor measured (a number, `True`, a dictionary) gives no token |
| Captcha.FalseErrorIdIsReady | cookie_collector/solve_captcha.py:24 | An error id of `False` passes the check as 0 does |
| Collector.CookieMap | cookie_collector/collector.py:154 | The dictionary's keys are exactly the names of the raw cookies |
| Collector.LaterDuplicatesWin | cookie_collector/collector.py:154 | The value for a name is the value of the last raw cookie with that name |
| Collector.Harvest | cookie_collector/collector.py:147-159 | The cookie step harvests exactly when the cookies are read and there are more than 11 of them, and it never raises; a harvest holds the dictionary built from the raw cookies, the proxy string and `after_captcha` |
| Collector.CookieCountBoundary | cookie_collector/collector.py:150-152 | Eleven raw cookies are rejected and twelve accepted |
| Collector.DuplicatesStillCount | cookie_collector/collector.py:150-154 | Twelve raw cookies with one name pass the check and give a one-entry dictionary |
| Collector.Attempt | cookie_collector/collector.py:19-165 | A harvest needs a non-empty pool, a 429 answer and a successful cookie read, and holds the dictionary of those cookies, the drawn proxy and `after_captcha`; characterised by `HarvestedIff` and `RaisedIff` |
| Collector.StatusGate | cookie_collector/collector.py:52-57 | Nothing is harvested unless the page answered 429 |
| Collector.HarvestReportsProxy | cookie_collector/collector.py:154-159 | A harvest reports the proxy string drawn at line 34 unchanged, that string parses, `after_captcha` (set at line 61) is true, and the cookies are the dictionary built from the cookies read |
| Collector.HarvestedIff | cookie_collector/collector.py:34-159 | An attempt harvests exactly when all of these hold: the pool is not empty; the proxy parses; the browser and the page come up; the page answers 429; the token branch does not raise; more than 11 cookies are read |
| Collector.RaisedIff | cookie_collector/collector.py:34-165 | An exception escapes exactly on an empty pool, a proxy that does not parse, or a browser that does not launch |
| Collector.ChallengeIsBestEffort | cookie_collector/collector.py:82-144 | Without a sitekey, an API key or a usable token, the attempt ends as it would with no API key |
| Collector.InjectedTokenFallsThrough | cookie_collector/collector.py:85-140 | After a successful injection and submit, the cookie step alone decides the result |
| Store.Without | cookie_cleaner/main.py:69-72 | A row survives `DELETE ... WHERE id IN ids` exactly when it was in the table and its id is not in `ids` |
| Store.WithoutCount | cookie_cleaner/main.py:74-77 | Under the primary key, the number of rows deleted is the number of given ids that are present |
| Store.WithoutKeepsUnique | cookie_cleaner/main.py:35 | The primary key still holds after a deletion |
| Store.CookieTable.DeleteWhere | cookie_cleaner/main.py:69-77 | The table becomes `Without(rows, ids)`, the row count is the number of rows removed, and the key still holds |
| Store.CookieTable.DeleteAll | api/main.py:104-109 | The table becomes empty and the count returned is the number of rows it had |
| Cleaner.Oldest | cookie_cleaner/main.py:61-66 | The subquery picks at most `k` ids, and no more than there are rows; characterised by `OldestCount`, `OldestFirst` and `OldestAreIds` |
| Cleaner.OldestIndexIsOldest | cookie_cleaner/main.py:63 | No row is older than the one picked first |
| Cleaner.OldestAreIds | cookie_cleaner/main.py:61-66 | The subquery picks only ids of existing rows |
| Cleaner.OldestCount | cookie_cleaner/main.py:61-66 | The subquery picks `min(k, rows)` distinct ids |
| Cleaner.OldestFirst | cookie_cleaner/main.py:61-66 | No picked row is newer than a row that is not picked |
| Cleaner.CleanupOldCookies | cookie_cleaner/main.py:48-82 | Without a database error the table becomes `AfterCleanup` of the old table; on an error it stays unchanged; the key holds throughout |
| Cleaner.AfterCleanup | cookie_cleaner/main.py:51-72 | Below 15 rows the table is unchanged, and every surviving row was in the table; characterised by `CleanupCount`, `CleanupKeepsNewest` and `CleanupSurvivors` |
| Cleaner.CleanupCount | cookie_cleaner/main.py:51-57 | Below 15 rows nothing is deleted; from 15 on, `total // 2` rows are deleted |
| Cleaner.CleanupExamples | cookie_cleaner/main.py:51-57 | 14 rows stay 14, 15 become 8, and 20 become 10 |
| Cleaner.CleanupKeepsNewest | cookie_cleaner/main.py:57-72 | Every deleted row is at most as new as every surviving row |
| Cleaner.CleanupSurvivors | cookie_cleaner/main.py:57-75 | The survivors are exactly the old rows whose id was not picked; `total // 2` existing ids are picked; the key holds |
| Api.Matching | api/main.py:144-147 | A row is among the candidates exactly when it is in the table and matches the `after_captcha` filter |
| Api.Newest | api/main.py:122-125 | The row chosen is in the table and no row is newer |
| Api.LatestCookie | api/main.py:115-134 | The error answer comes exactly when no row matches; otherwise the answer matches and is as new as every matching row |
| Api.LatestOfAll | api/main.py:122-125 | Without a filter, the answer of a non-empty table is as new as every row |
| Api.RandomCookie | api/main.py:137-157 | The error answer comes exactly when no row matches; otherwise the answer is a matching row |
| Api.EveryMatchCanBeDrawn | api/main.py:147-150 | Every matching row is the answer for some draw |
| Api.GettersAgreeOnEmpty | api/main.py:126-149 | The two getters give the error answer on the same tables |
| Api.StripLeft | api/main.py:38 | `lstrip()` leaves a suffix whose first character is not whitespace, and removes only whitespace |
| Api.StripRight | api/main.py:38 | `rstrip()` leaves a prefix whose last character is not whitespace, and removes only whitespace |
| Api.ParsePid | api/main.py:38 | A pid is read only from text holding a digit, and a negative pid only from text holding '-'; characterised by `ParsePidRoundTrip` and `ParsePidNeedsDigit` |
| Api.ParsePidRoundTrip | api/main.py:38 | The pid written as `str(pid)` (line 65) reads back as the same pid, also with whitespace around it |
| Api.ParsePidNeedsDigit | api/main.py:38-41 | A pid file without a digit is rejected |
| Api.WrittenPidNamesLiveProcess | api/main.py:34-40 | A pid file freshly written with `str(pid)` for a live process is found running |
| Api.Supervisor.IsProcessRunning | api/main.py:34-43 | Running exactly when the file exists and names a live process; otherwise the file is removed; the processes are unchanged |
| Api.Supervisor.LaunchDetached | api/main.py:46-66 | A failed spawn changes nothing; a failed write leaves the process running without a file; otherwise the file holds the new pid |
| Api.Supervisor.Start | api/main.py:163-179 | For either program (the cleaner's endpoint repeats these lines): answers 409 without any change while the program runs; otherwise launches and answers with the pid or 500; the resulting files and processes are stated exactly |
| Api.Supervisor.KillProcessTree | api/main.py:69-101 | Kills exactly when the file names a live process; the file is gone afterwards |
| Api.Supervisor.Stop | api/main.py:182-191 | For either program: reports whether the process was killed, which happens exactly when the file named a live process; that pid leaves the live set and no other does; removes the pid file, and empties the table, reporting how many rows it held |
| Text.NatToStringRoundTrip | api/main.py:65 | The decimal text of a number reads back as that number |

## Left out

- The browser, the page, the proxy connection and the solver service are not modelled. Each browser step is an input of `Collector.Attempt`. The solver's reply is an input of `Captcha.Solve`.
- The collector's worker loop, its asyncio scheduling, its jitter sleeps and the closing of the browser are left out. They are I/O and concurrency.
- The database is reduced to a sequence of rows. SQL, sessions, transactions and the JSON encoding of the cookie column are left out.
- NULL timestamps cannot occur in the model.
- Cleaner.Oldest: among rows with equal timestamps, the model picks the earliest in table order. The database leaves that order open.
- Api.Newest: the same holds for the latest row.
- Timestamps are integers. `datetime` values and their ISO formatting are left out.
- APScheduler, the 25-minute interval and the cleaner's `main` loop are left out. They are scheduling.
- The FastAPI routing, dependency injection, and the JSON shape of the answers are left out. Only the answer's kind, pid and counts are modelled.
- Cleaner.CleanupOldCookies: a database error is one flag meaning "nothing was committed". The point where it was raised is not modelled.
- The Windows branches of `_launch_detached` and `_kill_process_tree` are left out. The model follows the POSIX branch.
- Api.Supervisor.KillProcessTree: removes only the pid itself from the live set. Process groups are not modelled.
- Api.Supervisor.KillProcessTree: a `killpg` that fails with a permission error counts as not killed, like a missing process.
- Api.Supervisor.IsProcessRunning: `os.kill(pid, 0)` on pids of 0 or below (which address process groups), a permission error, and an `OverflowError` for huge pids are not modelled. A pid counts as running exactly when it is in the live set.
- Api.Supervisor.LaunchDetached: a partially written pid file is not modelled. The write either succeeds or raises.
- Api.ParsePid: `int()` also accepts underscores between digits and non-ASCII decimal digits. The model accepts only ASCII digits.
- Text.Lower: only ASCII letters are lower-cased. Python's `str.lower()` covers all of Unicode.
- Captcha.Json: floating-point JSON values are left out.
- Proxy.Checked: `urlsplit`'s validation of a bracketed host as an IPv6 address, and its NFKC check of the network location, are left out. Only the structural bracket checks are modelled.
- The banner click and the wait for "networkidle" swallow their exceptions in the source. The model therefore treats them as always succeeding.
- The logging is left out.
