/** Small shared vocabulary: Python's `None`-or-value, and the string
    operations the scraper uses (`startswith`, `in`, `", ".join`). */
module Common {

  /** A Python value that may be `None`. */
  datatype Option<T> = None | Some(value: T)

  /** Python's `s.startswith(prefix)`. */
  predicate StartsWith(s: string, prefix: string)
  {
    |prefix| <= |s| && s[..|prefix|] == prefix
  }

  /** Python's `s.endswith(suffix)`. */
  predicate EndsWith(s: string, suffix: string)
  {
    |suffix| <= |s| && s[|s| - |suffix|..] == suffix
  }

  /** Python's `sub in s` on two strings: `sub` occurs in `s` as a contiguous
      run of characters (the empty string occurs in every string). */
  predicate Contains(s: string, sub: string)
  {
    exists i | 0 <= i <= |s| - |sub| :: StartsWith(s[i..], sub)
  }

  /** Python's `sep.join(xs)`. */
  function Join(xs: seq<string>, sep: string): string
  {
    if xs == [] then ""
    else if |xs| == 1 then xs[0]
    else xs[0] + sep + Join(xs[1..], sep)
  }

  /** Joining one more element appends exactly one separator and that
      element: the separator goes between neighbours only. */
  lemma {:induction false} JoinSnoc(xs: seq<string>, y: string, sep: string)
    requires xs != []
    ensures Join(xs + [y], sep) == Join(xs, sep) + sep + y
  {
    var xy := xs + [y];
    assert xy[0] == xs[0] && xy[1..] == xs[1..] + [y];
    if |xs| == 1 {
      assert xy[1..] == [y];
    } else {
      JoinSnoc(xs[1..], y, sep);
    }
  }

  /** No element occurs twice. */
  predicate Distinct<T(==)>(s: seq<T>)
  {
    forall i, j | 0 <= i < j < |s| :: s[i] != s[j]
  }
}
