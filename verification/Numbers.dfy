/** Numbers and bytes as several components use them. */
module Numbers {
  /** The largest integer a JavaScript number represents without gaps below it. */
  const SAFE_INTEGER_MAX := 9_007_199_254_740_991

  type Byte = x: int | 0 <= x < 256

  function Min(a: nat, b: nat): nat { if a < b then a else b }

  function Max(a: nat, b: nat): nat { if a < b then b else a }
}
