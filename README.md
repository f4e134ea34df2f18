# dice_blast decision logic, modelled in Dafny

`dice_blast` drives a Chrome session through WebDriver against the Dice job
board: it restores or saves a login session as cookies, opens a search page
and lists the job cards it finds. Almost all of `src/main.rs` is WebDriver,
file and terminal plumbing. This project models the decision logic inside it,
with every browser call replaced by data describing how that call turns out:

- `JobId` (`job_id.dfy`): the job-id shape check, the anchored pattern
  `^[a-f0-9]{8}-[a-f0-9]{4}-[a-f0-9]{4}-[a-f0-9]{4}-[a-f0-9]{12}$`, written as a
  matcher over its five hex groups and proved equal to its flat reading
  (36 characters, `-` at offsets 8, 13, 18 and 23, lower-case hex elsewhere).
- `ElementWait` (`element_wait.dfy`): the `wait_for_element` poll loop as a
  method over an abstract millisecond clock. A `Schedule` gives the outcome of
  each probe, how long each probe takes and how much each 500 ms sleep
  overshoots. The method is proved to succeed exactly when some probe succeeds
  at an iteration whose time check is still within budget. It is also proved
  never to time out early and to probe at most `timeout / 500 + 1` times.
- `JobExtraction` (`job_extraction.dfy`): `get_job_detail_ids`. The page is a
  sequence of divs. Each div is the fallible lookup of its anchors. Each anchor
  is its three fallible reads (`data-cy`, `id`, text). A method with the
  source's nested loops and its `Vec` accumulator is proved equal to a
  functional specification. Lemmas about that specification cover when an
  anchor contributes, the shape of every job, order, the length bound,
  duplicates, and how errors propagate.
- `Cookies` (`cookies.dfy`): the persisted cookie record, the driver's cookie
  record, the field mapping in `load_cookies` (`e as i64` is modelled as the
  two's-complement reinterpretation of a `u64`), and the replay loop that adds
  the cookies one by one and stops at the first one the browser refuses.
- `Startup` (`startup.dfy`): the branching in `main`. Each effect is given only
  by its outcome in a `World` value. The run is the list of effects performed
  plus the result. A method that performs the steps in order is proved equal to
  a specification function, `MainRun`. Lemmas about that function cover the order of the
  login, resume versus save, and the two error messages.
- `Browser` (`browser.dfy`): the shared `Res`, `Option`, error and `Job` types.

Four behaviours of the code are easy to miss. The model keeps each of them.

- There is no deduplication. Every qualifying anchor is appended with a
  plain `jobs.push` (src/main.rs:236), once per div that reaches it.
  `DuplicatesKept` and `DuplicateAcrossDivs` state this.
- `src/main.rs` has no apply workflow and no deep-link URL code, so neither
  is modelled.
- `login` runs even when a saved session exists (src/main.rs:277), before
  the cookie file is checked. In that case its result is ignored.
  `LoginRunsFirst` and `SavedSessionIgnoresLogin` state this.
- The branch at src/main.rs:313-316 ("Error checking cookie file") cannot be
  reached. `cookie_exists` returns `Ok` in both arms (src/main.rs:181-190).
  `Startup.MainRun` still accepts an erroring check as input
  (`CheckErrorStops`), and `RealCheckNeverFails` shows the real check never
  takes that branch.

## Model

| member | source | states |
|---|---|---|
| `JobId.IsJobIdIff` | src/main.rs:219 | the pattern accepts a string iff it has length 36, `-` at offsets 8, 13, 18, 23 and a character of `0-9a-f` everywhere else |
| `JobId.JobIdLength` | src/main.rs:219 | every accepted id has exactly 36 characters |
| `JobId.JobIdAnchored` | src/main.rs:219 | the match is anchored: an accepted id with anything prepended or appended is rejected |
| `JobId.UpperCaseRejected` | src/main.rs:219 | a string containing an upper-case hex digit `A`-`F` is rejected |
| `JobId.SampleIdAccepted` | src/main.rs:193-219 | the id of a real job-detail page, `f0767d15-68a2-4c23-95c6-5685dedf2d2d`, is accepted |
| `JobId.NotAUuidRejected` | src/main.rs:219 | `not-a-uuid` is rejected |
| `ElementWait.WaitForElement` | src/main.rs:196-207 | returns `Ok` iff some probe succeeds at an iteration whose elapsed time is within the timeout; on `Ok` it stopped at the first successful probe, after a passed time check; on `Timeout` ("Timeout waiting for element") every probe failed, every earlier check passed and the measured time is strictly greater than the timeout; at most `timeout / 500 + 1` probes |
| `ElementWait.ElapsedGrowth` | src/main.rs:198-206 | between the tops of iterations `j` and `k` at least `500 * (k - j)` ms pass |
| `ElementWait.ProbeSpacing` | src/main.rs:202-205 | successive probes are separated by the earlier probe's duration and a full 500 ms sleep |
| `ElementWait.ProbeBound` | src/main.rs:199-205 | a wait that passed its time check before its n-th probe has made at most `timeout / 500 + 1` probes |
| `JobExtraction.PushCardJobs` | src/main.rs:223-244 | the inner loop appends to the jobs so far exactly the jobs of the div's anchors, in anchor order |
| `JobExtraction.GetJobDetailIds` | src/main.rs:209-248 | the nested-loop extraction returns `Timeout` if the `div` wait (30 s) fails, the lookup's error if finding the divs fails, and otherwise exactly `DivsJobs` of the page |
| `JobExtraction.AnchorContributesIff` | src/main.rs:224-236 | an anchor yields a job iff `data-cy` reads `Ok(Some("card-title-link"))`, `id` reads `Ok(Some(v))` with `v` well shaped and the text reads `Ok`; the job has the page number, the text as title and URL `https://dice.com/job-detail/` + id |
| `JobExtraction.AnchorJobShape` | src/main.rs:229-235 | every job carries the given page number and a URL that is the job-detail prefix followed by an accepted id |
| `JobExtraction.CardWithId` | src/main.rs:226-235 | a title-link card with a well-shaped id and readable text yields the job built from them |
| `JobExtraction.SampleCardAccepted` | src/main.rs:229-235 | a card with the sample id yields URL `https://dice.com/job-detail/f0767d15-68a2-4c23-95c6-5685dedf2d2d` |
| `JobExtraction.MalformedIdSkipped` | src/main.rs:229 | a card with id `not-a-uuid` yields nothing, silently |
| `JobExtraction.AnchorsJobsAppend` | src/main.rs:223-244 | the inner loop over a concatenation emits the jobs of the first part followed by those of the second (order kept, nothing merged) |
| `JobExtraction.AnchorsJobsMembers` | src/main.rs:223-237 | a job is emitted for a div iff one of its anchors yields that job |
| `JobExtraction.AnchorsJobsLength` | src/main.rs:223-244 | a div emits at most one job per anchor |
| `JobExtraction.AnchorsJobsShape` | src/main.rs:229-236 | every job a div emits is well formed for the page |
| `JobExtraction.DivsJobsBounded` | src/main.rs:218-247 | a successful extraction emits at most as many jobs as anchors reached, all well formed for the page |
| `JobExtraction.DivsJobsFails` | src/main.rs:221-222 | extraction fails iff some div's anchor lookup fails, and then with the error of the first such div |
| `JobExtraction.DivsJobsPrefixError` | src/main.rs:221-222 | once the divs walked so far end in an error, the whole extraction ends with it |
| `JobExtraction.SingleCard` | src/main.rs:223-236 | a div with one job card yields exactly that card's job |
| `JobExtraction.DuplicatesKept` | src/main.rs:223-245 | the same card twice yields its job twice: no deduplication |
| `JobExtraction.DuplicateAcrossDivs` | src/main.rs:221-245 | a card reached through two divs is emitted once per div, in div-then-anchor order |
| `Cookies.AsI64` | src/main.rs:142 | `e as i64` agrees with `e` modulo 2^64 and is non-negative iff `e < 2^63` |
| `Cookies.CastRoundTrip` | src/main.rs:142 | `e as i64` loses nothing: casting back gives `e` again, and the other way round |
| `Cookies.ToWebCookieFields` | src/main.rs:137-145 | the conversion keeps `name`, `value`, `domain` and `path`, sets `secure` to `Some(secure)` and `same_site` to `None`, and keeps `expiry` up to the cast |
| `Cookies.ToWebCookieForgetsOnlyHttpOnly` | src/main.rs:137-145 | two saved cookies convert to the same driver cookie iff they differ at most in `http_only` |
| `Cookies.LoadCookies` | src/main.rs:131-154 | a parse error is returned as is; otherwise the cookies are added in order, each converted, stopping at the first refusal with the browser's error, and `Ok` iff every cookie was added |
| `Startup.CookieExists` | src/main.rs:179-191 | the check reports `Ok(true)` iff the file opens and never reports an error |
| `Startup.RunStartup` | src/main.rs:272-318 | performing the effects step by step gives exactly the run `MainRun` describes |
| `Startup.LoginRunsFirst` | src/main.rs:276-279 | once connected and the URL is built, the login runs exactly once, before the cookie-file check |
| `Startup.SavedSessionIgnoresLogin` | src/main.rs:277-292 | with a saved session the cookies are loaded right before the search page is opened, nothing is saved, and the login outcome does not change the run |
| `Startup.FreshLoginSavesOnce` | src/main.rs:293-306 | with no saved session and a successful login, the cookies are saved exactly once right before the search page is opened, and nothing is loaded |
| `Startup.FailedLoginStops` | src/main.rs:307-310 | with no saved session and a failed login, the run ends with "Login failed", nothing saved or opened |
| `Startup.CheckErrorStops` | src/main.rs:313-316 | an erroring cookie-file check ends the run with "Error checking cookie file", nothing loaded, saved or opened |
| `Startup.LoadXorSave` | src/main.rs:279-317 | in every run loading and saving happen at most once in all |
| `Startup.SearchOpenedIff` | src/main.rs:279-311 | the search page is opened iff the session was loaded, or saved after a successful login, without error; the run succeeds iff opening and extraction also succeed, and its jobs are the extraction's |
| `Startup.RealCheckNeverFails` | src/main.rs:179-191 | with the real `cookie_exists`, after the login either cookies are loaded, or saved, or the run ends with "Login failed" |

## Left out

- The WebDriver transport (`WebDriver::new`, `driver.get`, `find`, `find_all`, `attr`, `text`, `add_cookie`, `get_all_cookies`, `execute_script`): a foreign asynchronous library, represented only by outcomes (`Res` values, `Schedule`, the answers `addCookie(k)` to the k-th `add_cookie`).
- `get_element_attributes` (src/main.rs:250-270): JavaScript execution and re-parsing of an opaque JSON value.
- `build_url_from_config` (src/main.rs:117-128): file I/O and URL/JSON serialisers that are not part of this model; `Startup` uses only its outcome.
- The file I/O and JSON persistence in `load_cookies`, `save_cookies` and `cookie_exists`: `LoadCookies` takes the parse result, `Startup` takes the outcomes of loading and saving, and `CookieExists` takes whether the file opens.
- The "Press Enter" pauses and the printing of jobs and messages: interactive terminal I/O.
- The `Display` impls, `ConfigError` and its `From` conversions (src/main.rs:50-114): formatting and error-wrapping code.
- Real wall-clock time, the 5 s settle delay after the page wait (src/main.rs:212) and tokio's scheduling: time is an abstract millisecond count advanced only by probes and sleeps, and nothing depends on concurrency.
- The order of the anchor reads: the source reads `id` only after `data-cy` matched and the text only after the id matched. The model takes all three reads as given data, so it does not capture which reads were performed.
- `Startup.RunStartup` takes the outcomes of `load_cookies` and `get_job_detail_ids` as inputs. It is not composed with `Cookies.LoadCookies` and `JobExtraction.GetJobDetailIds`, which model those two calls separately.
- Error payloads of the driver and the file layer are opaque (`Opaque(code)`); only the two errors `main` builds and the timeout error carry their messages.
