/**
 * Values that the browser-control library and the file layer hand back to the
 * program.  Every call into the WebDriver may fail; the program only ever looks
 * at whether it failed, except for the two errors it builds itself.
 */
module Browser {

  /** The errors `main` and `wait_for_element` construct, plus an opaque stand-in
      for every error the driver, the config reader or the cookie file report. */
  datatype WebDriverError =
    | Timeout(message: string)
    | UnknownError(message: string)
    | Opaque(code: nat)

  /** `WebDriverResult<T>` / `std::io::Result<T>`. */
  datatype Res<+T> = Ok(value: T) | Err(error: WebDriverError)

  /** Rust's `Option<T>`. */
  datatype Option<+T> = None | Some(value: T)

  /** The `Job` record printed at the end of a run. */
  datatype Job = Job(pageNumber: nat, jobTitle: string, url: string)
}
