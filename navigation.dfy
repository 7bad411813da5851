/** The navigation cursor's clamping rule. */
module Navigation {

  /** `max(min(k, hi), lo)`: the requested index pulled into `[lo, hi]`. */
  function Clamp(k: int, lo: int, hi: int): (r: int)
    ensures r >= lo
    ensures lo <= hi ==> r <= hi
    ensures lo <= k <= hi ==> r == k
    ensures k < lo ==> r == lo
    ensures lo <= hi < k ==> r == hi
  {
    var upper := if k < hi then k else hi;
    if upper > lo then upper else lo
  }
}
