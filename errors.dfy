/**
 * The error a deployment run returns: a stage tag (the error kinds of the
 * `core` package), a context line naming the stage, and the underlying
 * cause, reduced to its message.
 */
module HelmErrors {

  /** The kinds Run uses; uninstall and deploy failures share `Failed`. */
  datatype ErrorKind = PreFail | Failed | RollbackFailed | RollbackSuccess | PostFail

  datatype HelmError = HelmError(context: string, kind: ErrorKind, err: string)

  /** Wrap(err, info, kind): tag a cause with its stage. */
  function Wrap(err: string, info: string, kind: ErrorKind): HelmError
  {
    HelmError(info, kind, err)
  }

  /** HelmError.Error(): "<context>: <cause>". */
  function Message(e: HelmError): string
  {
    e.context + ": " + e.err
  }

  /**
   * The message of a wrapped error is the stage context, ": ", and the cause,
   * and the wrapper keeps the kind it was given.
   */
  lemma {:induction false} WrapMessage(err: string, info: string, kind: ErrorKind)
    ensures Wrap(err, info, kind).kind == kind
    ensures var m := Message(Wrap(err, info, kind));
      && |m| == |info| + 2 + |err|
      && m[..|info|] == info
      && m[|info|..|info| + 2] == ": "
      && m[|info| + 2..] == err
  {
  }
}
