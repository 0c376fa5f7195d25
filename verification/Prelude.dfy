/** Types and small facts shared by the modules of the model. */
module Prelude {
  datatype Option<+T> = None | Some(value: T)

  datatype Result<+T, +E> = Ok(value: T) | Err(error: E)

  /** The status classes the admin API handlers answer with. */
  datatype ApiError = BadRequest | Unauthorized | Forbidden | NotFound | Conflict | Internal

  function Or<T>(value: Option<T>, fallback: T): (r: T) {
    if value.Some? then value.value else fallback
  }

  function OrElse<T>(a: Option<T>, b: Option<T>): (r: Option<T>) {
    if a.Some? then a else b
  }

  function Get<K, V>(m: map<K, V>, k: K): (r: Option<V>) {
    if k in m then Some(m[k]) else None
  }

  ghost predicate Distinct<T>(s: seq<T>) {
    forall i, j :: 0 <= i < j < |s| ==> s[i] != s[j]
  }

  lemma {:induction false} DistinctMultiset<T(!new)>(s: seq<T>)
    requires Distinct(s)
    ensures forall x :: multiset(s)[x] == if x in s then 1 else 0
  {
    if s != [] {
      var n := |s| - 1;
      DistinctMultiset(s[..n]);
      assert s == s[..n] + [s[n]] && s[n] !in s[..n];
      forall x ensures multiset(s)[x] == if x in s then 1 else 0 {
        assert x in s <==> x in s[..n] || x == s[n];
      }
    }
  }
}
