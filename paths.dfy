/** POSIX path joining, as Python's `os.path.join(a, b)` does it for two components. */
module Paths {

  /**
   * An absolute `name` replaces `dir`; otherwise a `/` is inserted between
   * the two unless `dir` is empty or already ends with one.
   */
  function PathJoin(dir: string, name: string): (p: string)
    ensures |name| > 0 && name[0] == '/' ==> p == name
  {
    if |name| > 0 && name[0] == '/' then name
    else if dir == [] || dir[|dir| - 1] == '/' then dir + name
    else dir + "/" + name
  }

  /** A relative `name` is appended to `dir`, with one `/` between them unless `dir` is empty or ends with one. */
  lemma PathJoinRelative(dir: string, name: string)
    requires !(|name| > 0 && name[0] == '/')
    ensures dir != [] && dir[|dir| - 1] != '/' ==> PathJoin(dir, name) == dir + "/" + name
    ensures (dir == [] || dir[|dir| - 1] == '/') ==> PathJoin(dir, name) == dir + name
  {
  }
}
