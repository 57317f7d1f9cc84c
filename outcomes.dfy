/** Optional values, results and the error kinds the reconciliation core raises. */
module Outcomes {

  /** JavaScript's `undefined` versus a present value. */
  datatype Option<+T> = None | Some(value: T)

  /** A thrown error or a rejected promise (Err) versus a normal return (Ok). */
  datatype Result<+T> = Ok(value: T) | Err(error: Failure) {
    predicate IsFailure() { Err? }

    function PropagateFailure<U>(): Result<U>
      requires Err?
    {
      Err(error)
    }

    function Extract(): T
      requires Ok?
    {
      value
    }
  }

  /** The errors of the core, one per message the source throws or rejects with. */
  datatype Failure =
    | HostsUnreadable                      // hosts file missing or unreadable
    | InvalidHostDefinition(line: string)  // a non-comment line with fewer than two tokens
    | SectionNotFound                      // a sentinel of the requested section is missing
    | SectionMalformed                     // exactly one of the two sentinels is present
    | UpdateHookMissing                    // the compiled revision calls a `notifyUpdate` its manager does not export
    | HostAlreadyExists
    | InvalidAddress
    | InvalidHostName
    | HostDoesNotExist
    | ElevationFailed                      // the privileged copy to /etc/hosts failed
    | ConfigDirUnavailable                 // `nginx -t` printed no absolute path
    | TemplateNotFound
    | UnresolvedProperty(name: string)
    | ValidationFailed                     // `nginx -t` succeeded with no output: file removed
    | ValidatorFailed                      // `nginx -t` exited non-zero: the error escapes, file stays
    | SiteDoesNotExist
    | SiteUnreadable(site: string)
    | MalformedFooter(line: string)        // a `##%` line without a second space-separated token
    | MissingHostname
    | MissingIdentity
    | NotAFunction(name: string)           // a TypeError: the method called is not defined on the value
}
