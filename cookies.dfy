/**
 * The session cookies: the record persisted in `cookies.json`, the record the
 * WebDriver accepts, the field-by-field conversion `load_cookies` applies, and
 * the loop that replays a saved session into the browser.
 */
module Cookies {
  import opened Browser

  const TwoTo63: int := 0x8000_0000_0000_0000
  const TwoTo64: int := 0x1_0000_0000_0000_0000

  /** Rust's `u64` and `i64`. */
  type U64 = x: int | 0 <= x < TwoTo64
  type I64 = x: int | -TwoTo63 <= x < TwoTo63

  /** The program's own `Cookie` struct, as read from `cookies.json`. */
  datatype Cookie = Cookie(
    name: string,
    value: string,
    domain: Option<string>,
    path: Option<string>,
    expiry: Option<U64>,
    secure: bool,
    httpOnly: Option<bool>)

  /** The driver library's `SameSite` attribute. */
  datatype SameSite = Strict | Lax | NoRestriction

  /** The driver library's cookie record (`thirtyfour::cookie::Cookie`). */
  datatype WebCookie = WebCookie(
    name: string,
    value: string,
    domain: Option<string>,
    path: Option<string>,
    expiry: Option<I64>,
    secure: Option<bool>,
    sameSite: Option<SameSite>)

  /** The cast `e as i64` on a `u64`: the same 64 bits read as two's complement. */
  function AsI64(e: U64): (r: I64)
    ensures (r - e) % TwoTo64 == 0
    ensures r >= 0 <==> e < TwoTo63
  {
    if e < TwoTo63 then e else e - TwoTo64
  }

  /** The opposite cast, `i as u64`. */
  function AsU64(i: I64): (r: U64)
    ensures (r - i) % TwoTo64 == 0
  {
    if i >= 0 then i else i + TwoTo64
  }

  /** The two casts undo each other, so `e as i64` loses no information. */
  lemma CastRoundTrip(e: U64, i: I64)
    ensures AsU64(AsI64(e)) == e
    ensures AsI64(AsU64(i)) == i
  {
  }

  /** The struct literal built in `load_cookies` for each saved cookie. */
  function ToWebCookie(c: Cookie): WebCookie
  {
    WebCookie(
      c.name,
      c.value,
      c.domain,
      c.path,
      match c.expiry case Some(e) => Some(AsI64(e)) case None => None,
      Some(c.secure),
      None)
  }

  /** What the conversion keeps, sets and recomputes. */
  lemma ToWebCookieFields(c: Cookie)
    ensures var w := ToWebCookie(c);
            w.name == c.name && w.value == c.value && w.domain == c.domain && w.path == c.path &&
            w.secure == Some(c.secure) && w.sameSite == None &&
            (w.expiry.None? <==> c.expiry.None?) &&
            (c.expiry.Some? ==> AsU64(w.expiry.value) == c.expiry.value)
  {
  }

  /** Two saved cookies become the same driver cookie exactly when they differ
      at most in `http_only`: that field is dropped and nothing else is lost. */
  lemma ToWebCookieForgetsOnlyHttpOnly(c1: Cookie, c2: Cookie)
    ensures ToWebCookie(c1) == ToWebCookie(c2) <==> c1.(httpOnly := None) == c2.(httpOnly := None)
  {
    if ToWebCookie(c1) == ToWebCookie(c2) {
      if c1.expiry.Some? {
        assert ToWebCookie(c1).expiry == Some(AsI64(c1.expiry.value));
        CastRoundTrip(c1.expiry.value, 0);
        CastRoundTrip(c2.expiry.value, 0);
      }
    }
  }

  /** The `for cookie in cookies` loop of `load_cookies`: replay a saved
      session into the browser, stopping at the first cookie it refuses.
      `saved` is the parse of `cookies.json`; `addCookie(k)` is how the
      browser answers the k-th `driver.add_cookie`; `jar` lists the cookies
      it accepted. */
  method LoadCookies(saved: Res<seq<Cookie>>, addCookie: nat -> Res<()>) returns (jar: seq<WebCookie>, r: Res<()>)
    ensures saved.Err? ==> jar == [] && r == Err(saved.error)
    ensures saved.Ok? ==> |jar| <= |saved.value|
    ensures saved.Ok? ==> forall k :: 0 <= k < |jar| ==>
              jar[k] == ToWebCookie(saved.value[k]) && addCookie(k).Ok?
    ensures saved.Ok? ==> (r.Ok? <==> |jar| == |saved.value|)
    ensures saved.Ok? && r.Err? ==> |jar| < |saved.value| && r == addCookie(|jar|)
  {
    jar := [];
    if saved.Err? {
      return [], Err(saved.error);
    }
    var cookies := saved.value;
    var i := 0;
    while i < |cookies|
      invariant 0 <= i <= |cookies| && |jar| == i
      invariant forall k :: 0 <= k < i ==> jar[k] == ToWebCookie(cookies[k]) && addCookie(k).Ok?
    {
      var webCookie := ToWebCookie(cookies[i]);
      var added := addCookie(i);
      if added.Err? {
        return jar, added;
      }
      jar := jar + [webCookie];
      i := i + 1;
    }
    r := Ok(());
  }
}
