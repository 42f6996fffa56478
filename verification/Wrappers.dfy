/** Optional values and a few total arithmetic helpers shared by every module. */
module Wrappers {
  datatype Option<+T> = None | Some(value: T)

  function Max(a: real, b: real): (m: real)
    ensures a <= m && b <= m && (m == a || m == b)
  {
    if a < b then b else a
  }

  function Min(a: real, b: real): (m: real)
    ensures m <= a && m <= b && (m == a || m == b)
  {
    if a < b then a else b
  }

  function Abs(a: real): (m: real)
    ensures 0.0 <= m && (m == a || m == -a)
  {
    if a < 0.0 then -a else a
  }

  /** The least integer that is not below `a`. */
  function Ceil(a: real): (n: int)
    ensures a <= n as real < a + 1.0
  {
    -((-a).Floor)
  }

  predicate Distinct<T(==)>(s: seq<T>) {
    forall i, j :: 0 <= i < j < |s| ==> s[i] != s[j]
  }

  function Elements<T>(s: seq<T>): set<T> {
    set x | x in s
  }

  lemma NonemptyHasElements<T>(s: seq<T>)
    ensures s != [] ==> Elements(s) != {}
  {
    if s != [] {
      assert s[0] in Elements(s);
    }
  }
}
