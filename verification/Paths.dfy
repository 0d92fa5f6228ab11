/** Slash-separated paths, as the sources cut them with `rfind('/')`. */
module Paths {

  /** Position of the last slash, or -1. */
  function LastSlash(p: string): (n: int)
    ensures -1 <= n < |p| && (n >= 0 ==> p[n] == '/')
  {
    if p == "" then -1 else if p[|p| - 1] == '/' then |p| - 1 else LastSlash(p[..|p| - 1])
  }

  lemma {:induction false} LastSlashIsLast(p: string, i: nat)
    requires i < |p| && p[i] == '/'
    ensures i <= LastSlash(p)
  {
    if p[|p| - 1] != '/' {
      LastSlashIsLast(p[..|p| - 1], i);
    }
  }
}
