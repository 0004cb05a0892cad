/**
 * The few .NET string operations the core relies on, stated on `seq<char>`.
 */
module Strings {

  /**
   * `String.LastIndexOf(char)`: the last position of `c` in `s`, or -1. Stated
   * for any element type, since delegate lists are searched the same way.
   */
  function LastIndexOf<T(==)>(s: seq<T>, c: T): (r: int)
    ensures -1 <= r < |s|
    ensures r >= 0 ==> s[r] == c
    ensures forall k :: r < k < |s| ==> s[k] != c
    ensures r == -1 <==> c !in s
  {
    if |s| == 0 then -1
    else if s[|s| - 1] == c then |s| - 1
    else LastIndexOf(s[..|s| - 1], c)
  }

  /**
   * `String.IndexOf(char, startIndex)`: the first position at or after `start`
   * holding `c`, or -1. Stated for any element type, like `LastIndexOf`.
   */
  function IndexOfFrom<T(==)>(s: seq<T>, c: T, start: nat): (r: int)
    requires start <= |s|
    ensures r == -1 || start <= r < |s|
    ensures r >= 0 ==> s[r] == c
    ensures forall k :: start <= k < |s| && (r == -1 || k < r) ==> s[k] != c
    decreases |s| - start
  {
    if start == |s| then -1
    else if s[start] == c then start
    else IndexOfFrom(s, c, start + 1)
  }

  /** `String.Join(separator, parts)`. */
  function Join(parts: seq<string>, separator: string): string
  {
    if |parts| == 0 then ""
    else if |parts| == 1 then parts[0]
    else Join(parts[..|parts| - 1], separator) + separator + parts[|parts| - 1]
  }

  /** Joining one more part appends the separator and the part, except to nothing. */
  lemma {:induction false} JoinStep(parts: seq<string>, i: nat, separator: string)
    requires i < |parts|
    ensures Join(parts[..i + 1], separator) == if i == 0 then parts[0] else Join(parts[..i], separator) + separator + parts[i]
  {
    assert parts[..i + 1][..i] == parts[..i];
  }

  /** Appending the separator (except before the first part) and the next part to a joined prefix extends the join. */
  lemma {:induction false} JoinAppend(prefix: string, parts: seq<string>, i: nat, separator: string)
    requires i < |parts|
    ensures prefix + Join(parts[..i], separator) + (if i > 0 then separator else "") + parts[i]
            == prefix + Join(parts[..i + 1], separator)
  {
    JoinStep(parts, i, separator);
  }

  /** Splitting `q + "." + m` at its last '.' gives back `q` and `m` when `m` has no '.'. */
  lemma {:induction false} LastDotOfJoined(q: string, m: string)
    requires '.' !in m
    ensures LastIndexOf(q + "." + m, '.') == |q|
  {
    var s := q + "." + m;
    assert s[|q|] == '.';
    assert forall k :: |q| < k < |s| ==> s[k] == m[k - |q| - 1];
  }
}
