/** A stretch of free time and the operation that carves a busy range out of
    it (src/free_time.rs). Instants are integers (seconds on one clock); the
    time zone plays no part in any comparison. */
module FreeTimes {

  /** Either nothing is free, or the time from `start` to `end`. */
  datatype FreeTime = Blocked | FromTo(start: int, end: int)

  /** What `block` does: it returns a value, or reaches the program's
      `todo!()` for the overlapping case, which stops the program. No rule
      for the overlapping case is invented here. */
  datatype BlockOutcome = Returned(value: FreeTime) | Unimplemented

  /** `FreeTime::new`: the two instants are kept as given, in that order,
      without checking that `start` comes first. */
  function New(start: int, end: int): (ft: FreeTime)
    ensures ft.FromTo? && ft.start == start && ft.end == end
  {
    FromTo(start, end)
  }

  /** `FreeTime::block`: removes the busy range from `blockStart` up to
      `blockEnd` from `ft`. */
  function Block(ft: FreeTime, blockStart: int, blockEnd: int): (r: BlockOutcome)
    // an empty or reversed busy range changes nothing, for both variants
    ensures blockEnd <= blockStart ==> r == Returned(ft)
    // nothing free stays nothing free
    ensures ft.Blocked? ==> r == Returned(Blocked)
    // free time entirely outside the busy range is kept unchanged
    ensures ft.FromTo? && (ft.start >= blockEnd || ft.end < blockStart) ==> r == Returned(ft)
    // whenever it returns, it returns its input: no new interval is ever built
    ensures r.Returned? ==> r.value == ft
  {
    if blockEnd <= blockStart then Returned(ft)
    else
      match ft
      case Blocked => Returned(Blocked)
      case FromTo(ourStart, ourEnd) =>
        if ourStart >= blockEnd || ourEnd < blockStart then Returned(ft)
        else Unimplemented
  }

  /** An instant `t` inside the free time, reading its end as included, that
      also lies inside the busy range, reading its end as excluded. */
  ghost predicate SharesInstant(ft: FreeTime, blockStart: int, blockEnd: int)
  {
    exists t :: Covers(ft, t) && blockStart <= t < blockEnd
  }

  /** `t` lies in the free time, both ends included. */
  predicate Covers(ft: FreeTime, t: int)
  {
    ft.FromTo? && ft.start <= t <= ft.end
  }

  /** For ordered free time and a non-empty busy range, `block` reaches the
      unimplemented case exactly when the two share an instant, the free
      time's end counting as inside it and the busy range's end not. */
  lemma BlockUnimplementedIffShared(ft: FreeTime, blockStart: int, blockEnd: int)
    requires ft.FromTo? ==> ft.start <= ft.end
    requires blockStart < blockEnd
    ensures Block(ft, blockStart, blockEnd).Unimplemented? <==> SharesInstant(ft, blockStart, blockEnd)
  {
    if Block(ft, blockStart, blockEnd).Unimplemented? {
      var t := if ft.start < blockStart then blockStart else ft.start;
      assert Covers(ft, t) && blockStart <= t < blockEnd;
    }
  }

  /** The disjointness test is asymmetric: free time that ends exactly where
      the busy range starts is not treated as disjoint and reaches the
      unimplemented case, while free time that starts exactly where the busy
      range ends is returned unchanged. */
  lemma BlockTouchingEnds(a: int, b: int, blockStart: int, blockEnd: int)
    requires blockStart < a <= b < blockEnd
    ensures Block(FromTo(a, b), b, blockEnd) == Unimplemented
    ensures Block(FromTo(a, b), blockStart, a) == Returned(FromTo(a, b))
  {
  }
}
