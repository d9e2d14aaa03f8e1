/** Shared value types. */
module Common {

  datatype Option<+T> = None | Some(value: T)

  type byte = b: int | 0 <= b < 256

  function Min(a: int, b: int): int { if a <= b then a else b }

  function Max(a: int, b: int): int { if a >= b then a else b }

  /** The first non-empty of a list of strings, or the empty string. */
  function FirstNonEmpty(values: seq<string>): string {
    if values == [] then ""
    else if values[0] != "" then values[0]
    else FirstNonEmpty(values[1..])
  }

  /** The last at most n elements of s. */
  function LastN<T>(s: seq<T>, n: nat): (r: seq<T>)
    ensures |r| == Min(n, |s|)
    ensures forall i :: 0 <= i < |r| ==> r[i] == s[|s| - |r| + i]
  {
    if |s| <= n then s else s[|s| - n..]
  }
}
