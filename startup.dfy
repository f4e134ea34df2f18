/**
 * The branching in `main`: connect, build the search URL, run the manual
 * login, then either resume the saved session or save the fresh one, and
 * finally open the search page and extract page 1.  Each effect is represented
 * only by its outcome; the run is the sequence of effects performed and the
 * program's result.
 */
module Startup {
  import opened Browser

  const LoginFailed: string := "Login failed"
  const CookieCheckFailed: string := "Error checking cookie file"

  /** How every effect `main` performs turns out. `url` is the outcome of
      `build_url_from_config`, `load` of `load_cookies`, `save` of
      `save_cookies`, `navigate` of `driver.get(&url)` and `extract` of
      `get_job_detail_ids(&driver, 1)`. */
  datatype World = World(
    connect: Res<()>,
    url: Res<string>,
    login: Res<()>,
    cookieCheck: Res<bool>,
    load: Res<()>,
    save: Res<()>,
    navigate: Res<()>,
    extract: Res<seq<Job>>)

  /** The effects `main` performs, in the order it performs them. */
  datatype Step =
    | Connect
    | ReadConfig
    | Login
    | CheckCookieFile
    | LoadSession
    | SaveSession
    | Get(url: string)
    | ExtractJobs(pageNumber: nat)

  /** The effects performed and the result: `Ok(jobs)` with the jobs printed
      before `main` returns `Ok(())`, or the error `main` returns. */
  datatype Run = Run(trace: seq<Step>, result: Res<seq<Job>>)

  /** How many times step `x` occurs in `t`. */
  function Count(t: seq<Step>, x: Step): nat
  {
    if t == [] then 0 else (if t[0] == x then 1 else 0) + Count(t[1..], x)
  }

  /** Counting distributes over concatenation. */
  lemma {:induction false} CountAppend(a: seq<Step>, b: seq<Step>, x: Step)
    ensures Count(a + b, x) == Count(a, x) + Count(b, x)
    decreases |a|
  {
    if a == [] {
      assert a + b == b;
    } else {
      assert (a + b)[1..] == a[1..] + b;
      CountAppend(a[1..], b, x);
    }
  }

  /** A step that does not occur is counted zero times. */
  lemma {:induction false} CountAbsent(t: seq<Step>, x: Step)
    requires x !in t
    ensures Count(t, x) == 0
    decreases |t|
  {
    if t != [] {
      assert x !in t[1..];
      CountAbsent(t[1..], x);
    }
  }

  /** `cookie_exists()`: opening `./cookies.json` either works or not; the
      check itself never reports an error. */
  function CookieExists(fileOpens: bool): (r: Res<bool>)
    ensures r.Ok? && (r.value <==> fileOpens)
  {
    if fileOpens then Ok(true) else Ok(false)
  }

  /** The common tail of both successful branches: after `load_cookies` or
      `save_cookies` (whose outcome is `first`), open the search page and
      extract page 1, each with `?`. */
  function Resume(trace: seq<Step>, first: Res<()>, url: string, w: World): Run
  {
    if first.Err? then Run(trace, Err(first.error))
    else if w.navigate.Err? then Run(trace + [Get(url)], Err(w.navigate.error))
    else Run(trace + [Get(url), ExtractJobs(1)], w.extract)
  }

  /** What `main` does in world `w`. */
  function MainRun(w: World): Run
  {
    if w.connect.Err? then Run([Connect], Err(w.connect.error))
    else if w.url.Err? then Run([Connect, ReadConfig], Err(w.url.error))
    else
      var checked := [Connect, ReadConfig, Login, CheckCookieFile];
      match w.cookieCheck
      case Ok(true) => Resume(checked + [LoadSession], w.load, w.url.value, w)
      case Ok(false) =>
        if w.login.Err? then Run(checked, Err(UnknownError(LoginFailed)))
        else Resume(checked + [SaveSession], w.save, w.url.value, w)
      case Err(_) => Run(checked, Err(UnknownError(CookieCheckFailed)))
  }

  /** `main`, performing the effects one after another. */
  method RunStartup(w: World) returns (trace: seq<Step>, r: Res<seq<Job>>)
    ensures Run(trace, r) == MainRun(w)
  {
    trace := [Connect];
    if w.connect.Err? {
      return trace, Err(w.connect.error);
    }
    trace := trace + [ReadConfig];
    if w.url.Err? {
      return trace, Err(w.url.error);
    }
    var url := w.url.value;
    trace := trace + [Login];
    var loginResult := w.login;
    trace := trace + [CheckCookieFile];
    var first: Res<()>;
    match w.cookieCheck {
      case Ok(true) =>
        trace := trace + [LoadSession];
        first := w.load;
      case Ok(false) =>
        if loginResult.Err? {
          return trace, Err(UnknownError(LoginFailed));
        }
        trace := trace + [SaveSession];
        first := w.save;
      case Err(_) =>
        return trace, Err(UnknownError(CookieCheckFailed));
    }
    if first.Err? {
      return trace, Err(first.error);
    }
    trace := trace + [Get(url)];
    if w.navigate.Err? {
      return trace, Err(w.navigate.error);
    }
    trace := trace + [ExtractJobs(1)];
    r := w.extract;
  }

  /** The tail `Resume` appends holds neither a load nor a save. */
  lemma ResumeTail(trace: seq<Step>, first: Res<()>, url: string, w: World)
    ensures var t := Resume(trace, first, url, w).trace;
            |t| >= |trace| && t[..|trace|] == trace &&
            LoadSession !in t[|trace|..] && SaveSession !in t[|trace|..]
  {
  }

  /** Once the driver is up and the URL is built, the login runs, and runs
      before the cookie file is checked, whatever the check later says. */
  lemma LoginRunsFirst(w: World)
    requires w.connect.Ok? && w.url.Ok?
    ensures var t := MainRun(w).trace;
            |t| >= 4 && t[..4] == [Connect, ReadConfig, Login, CheckCookieFile] &&
            Count(t, Login) == 1
  {
    var t := MainRun(w).trace;
    var checked := [Connect, ReadConfig, Login, CheckCookieFile];
    assert t[..4] == checked;
    assert t == checked + t[4..];
    assert Login !in t[4..];
    CountAppend(checked, t[4..], Login);
    CountAbsent(t[4..], Login);
  }

  /** With a saved session the cookies are loaded right before the search
      page is opened, nothing is saved, and the login's outcome makes no
      difference to the run. */
  lemma SavedSessionIgnoresLogin(w: World, otherLogin: Res<()>)
    requires w.connect.Ok? && w.url.Ok? && w.cookieCheck == Ok(true)
    ensures MainRun(w.(login := otherLogin)) == MainRun(w)
    ensures LoadSession in MainRun(w).trace && SaveSession !in MainRun(w).trace
    ensures var t := MainRun(w).trace;
            forall k :: 0 <= k < |t| && t[k] == Get(w.url.value) ==> k > 0 && t[k - 1] == LoadSession
  {
  }

  /** Without a saved session and with a successful login, the session is
      saved exactly once, right before the search page is opened, and
      nothing is loaded. */
  lemma FreshLoginSavesOnce(w: World)
    requires w.connect.Ok? && w.url.Ok? && w.cookieCheck == Ok(false) && w.login.Ok?
    ensures var t := MainRun(w).trace;
            Count(t, SaveSession) == 1 && LoadSession !in t &&
            forall k :: 0 <= k < |t| && t[k] == Get(w.url.value) ==> k > 0 && t[k - 1] == SaveSession
  {
    var t := MainRun(w).trace;
    var saved := [Connect, ReadConfig, Login, CheckCookieFile, SaveSession];
    ResumeTail(saved, w.save, w.url.value, w);
    assert t == saved + t[5..];
    CountAppend(saved, t[5..], SaveSession);
    CountAbsent(t[5..], SaveSession);
  }

  /** Without a saved session a failed login ends the run with "Login failed",
      before anything is saved or opened. */
  lemma FailedLoginStops(w: World)
    requires w.connect.Ok? && w.url.Ok? && w.cookieCheck == Ok(false) && w.login.Err?
    ensures MainRun(w).result == Err(UnknownError(LoginFailed))
    ensures MainRun(w).trace == [Connect, ReadConfig, Login, CheckCookieFile]
  {
  }

  /** A failing cookie-file check ends the run with its own error, after the
      login and before anything is loaded, saved or opened. */
  lemma CheckErrorStops(w: World)
    requires w.connect.Ok? && w.url.Ok? && w.cookieCheck.Err?
    ensures MainRun(w).result == Err(UnknownError(CookieCheckFailed))
    ensures MainRun(w).trace == [Connect, ReadConfig, Login, CheckCookieFile]
  {
  }

  /** In every run at most one of loading and saving happens, each at most
      once. */
  lemma LoadXorSave(w: World)
    ensures var t := MainRun(w).trace;
            Count(t, LoadSession) + Count(t, SaveSession) <= 1
  {
    var t := MainRun(w).trace;
    var checked := [Connect, ReadConfig, Login, CheckCookieFile];
    if w.connect.Err? || w.url.Err? || w.cookieCheck.Err? || (w.cookieCheck == Ok(false) && w.login.Err?) {
      assert LoadSession !in t && SaveSession !in t;
      CountAbsent(t, LoadSession);
      CountAbsent(t, SaveSession);
    } else {
      var loaded := w.cookieCheck == Ok(true);
      var head := checked + [if loaded then LoadSession else SaveSession];
      var first := if loaded then w.load else w.save;
      assert t == Resume(head, first, w.url.value, w).trace;
      ResumeTail(head, first, w.url.value, w);
      assert t == checked + ([head[4]] + t[5..]);
      CountAppend(checked, [head[4]] + t[5..], LoadSession);
      CountAppend(checked, [head[4]] + t[5..], SaveSession);
      CountAbsent(checked, LoadSession);
      CountAbsent(checked, SaveSession);
      CountAbsent(t[5..], LoadSession);
      CountAbsent(t[5..], SaveSession);
      assert ([head[4]] + t[5..])[1..] == t[5..];
    }
  }

  /** The search page is opened exactly when the session was resumed or
      freshly saved without error, and the run succeeds exactly when the
      page could also be opened and extracted; its jobs are the extraction's. */
  lemma SearchOpenedIff(w: World)
    ensures (exists u :: Get(u) in MainRun(w).trace) <==>
              w.connect.Ok? && w.url.Ok? &&
              ((w.cookieCheck == Ok(true) && w.load.Ok?) ||
               (w.cookieCheck == Ok(false) && w.login.Ok? && w.save.Ok?))
    ensures MainRun(w).result.Ok? <==>
              (exists u :: Get(u) in MainRun(w).trace) && w.navigate.Ok? && w.extract.Ok?
    ensures MainRun(w).result.Ok? ==> MainRun(w).result == w.extract && ExtractJobs(1) in MainRun(w).trace
  {
    var run := MainRun(w);
    if w.connect.Ok? && w.url.Ok? {
      var ok := (w.cookieCheck == Ok(true) && w.load.Ok?) ||
                (w.cookieCheck == Ok(false) && w.login.Ok? && w.save.Ok?);
      if ok {
        assert Get(w.url.value) in run.trace;
      } else {
        assert forall u :: Get(u) !in run.trace;
      }
    } else {
      assert forall u :: Get(u) !in run.trace;
    }
  }

  /** With the real `cookie_exists`, the "Error checking cookie file" branch is
      never taken: after the login either cookies are loaded, or saved, or the
      run stops with "Login failed". */
  lemma RealCheckNeverFails(w: World, fileOpens: bool)
    requires w.connect.Ok? && w.url.Ok? && w.cookieCheck == CookieExists(fileOpens)
    ensures LoadSession in MainRun(w).trace || SaveSession in MainRun(w).trace ||
            MainRun(w).result == Err(UnknownError(LoginFailed))
  {
  }
}
