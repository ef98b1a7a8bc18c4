/** The quiet-hour gate of `job`. */
module Schedule {
  /** Line 190: a run is allowed at hour 0 and from hour 8 on. */
  function RunsAt(hour: int): (r: bool)
    ensures 0 <= hour <= 23 ==> (r <==> hour == 0 || 8 <= hour)
    ensures 1 <= hour <= 7 ==> !r
  {
    hour >= 8 || hour < 1
  }
}
