/**
 * The error taxonomy shared by both controller generations
 * (internal/ctrl/error.go, internal/controller/error.go) and the one
 * classification step the controllers perform on repository errors.
 */
module Errors {

  /**
   * An error returned by a repository. `RepoNotFound` and `RepoAlreadyExists`
   * stand for every error that `errors.Is` matches against the repository's
   * two sentinels; `RepoFailure` is anything else (a driver or network fault).
   */
  datatype RepoError = RepoNotFound | RepoAlreadyExists | RepoFailure(message: string)

  /**
   * An error returned by a controller: its own two sentinels, or a repository
   * error handed on unchanged (the transports treat those as internal errors).
   */
  datatype CtrlError = NotFound | AlreadyExists | PassedThrough(cause: RepoError)

  /**
   * Classification after a lookup, update or delete: only the repository's
   * not-found sentinel is re-exposed as the controller's; everything else,
   * the repository's already-exists sentinel included, passes through.
   */
  function LookupError(e: RepoError): (r: CtrlError)
    ensures r == NotFound <==> e == RepoNotFound
    ensures r != AlreadyExists
    ensures e != RepoNotFound ==> r == PassedThrough(e)
  {
    if e == RepoNotFound then NotFound else PassedThrough(e)
  }

  /**
   * Classification after a create: only the repository's already-exists
   * sentinel is re-exposed as the controller's; everything else passes through.
   */
  function ConflictError(e: RepoError): (r: CtrlError)
    ensures r == AlreadyExists <==> e == RepoAlreadyExists
    ensures r != NotFound
    ensures e != RepoAlreadyExists ==> r == PassedThrough(e)
  {
    if e == RepoAlreadyExists then AlreadyExists else PassedThrough(e)
  }

  /** The repository error a controller error stands for. */
  function Cause(c: CtrlError): RepoError
  {
    match c
    case NotFound => RepoNotFound
    case AlreadyExists => RepoAlreadyExists
    case PassedThrough(e) => e
  }

  /**
   * Neither classification loses information up to the sentinel: the
   * repository error class can always be recovered. A `RepoError` stands for
   * every error that matches its sentinel, so the wrapping text of a wrapped
   * not-found, which the controller drops, is not part of this model.
   */
  lemma ClassificationIsLossless(e: RepoError)
    ensures Cause(LookupError(e)) == e
    ensures Cause(ConflictError(e)) == e
  {
  }
}
