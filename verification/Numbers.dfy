/** JavaScript's safe-integer bound, and the clamped positions its string and array methods work with. */
module Numbers {

  const MAX_SAFE_INTEGER := 9_007_199_254_740_991

  function Max(a: int, b: int): int {
    if a > b then a else b
  }

  function Min(a: int, b: int): int {
    if a < b then a else b
  }

  /** `s.slice(from, to)`: negative positions count from the end, and everything is clamped. */
  function Slice<T>(s: seq<T>, from: int, to: int): seq<T> {
    var start := if from < 0 then Max(|s| + from, 0) else Min(from, |s|);
    var stop := if to < 0 then Max(|s| + to, 0) else Min(to, |s|);
    if start < stop then s[start..stop] else []
  }
}
