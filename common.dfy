/** Optional values, used for SQL NULL and for Python calls that can fail. */
module Common {

  datatype Option<+T> = None | Some(value: T)

  /** Python's `[:n]` on a sequence: the first min(n, len) elements. */
  function Take<T>(s: seq<T>, n: nat): (r: seq<T>)
    ensures |r| == if n < |s| then n else |s|
    ensures r == s[..|r|]
  {
    if n < |s| then s[..n] else s
  }
}
