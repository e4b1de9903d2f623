/** The two integer helpers of Unity's Mathf that the scripts use: Mathf.Max and Mathf.Min on int. */
module Mathf {

  /** The larger of a and b. */
  function Max(a: int, b: int): (r: int)
    ensures r >= a && r >= b
    ensures r == a || r == b
  {
    if a > b then a else b
  }

  /** The smaller of a and b. */
  function Min(a: int, b: int): (r: int)
    ensures r <= a && r <= b
    ensures r == a || r == b
  {
    if a < b then a else b
  }
}
