/** The displayed clock: a calibration offset added to the monotonic
    instant.

    A `Duration` or an `Instant` is a whole number of timer ticks; the
    timer runs at `TICKS_PER_MS` ticks per millisecond (1 MHz).  Converting
    to milliseconds truncates, converting from milliseconds is exact.  The
    current instant is a parameter instead of a read of the hardware
    timer. */
module TimeUtil {

  const TICKS_PER_MS: nat := 1000

  type Duration = nat
  type Instant = nat

  /** `Duration::as_millis` / `Instant::as_millis`: whole milliseconds. */
  function AsMillis(d: Duration): nat {
    d / TICKS_PER_MS
  }

  /** `Duration::from_millis`: exact, and `AsMillis` gives the
      milliseconds back. */
  function FromMillis(ms: nat): (d: Duration)
    ensures AsMillis(d) == ms
    ensures d % TICKS_PER_MS == 0
  {
    ms * TICKS_PER_MS
  }

  /** The duration is a whole number of milliseconds. */
  predicate WholeMillis(d: Duration) {
    d % TICKS_PER_MS == 0
  }

  /** A whole-millisecond duration survives the round trip through
      milliseconds. */
  lemma WholeMillisRoundTrip(d: Duration)
    requires WholeMillis(d)
    ensures FromMillis(AsMillis(d)) == d
  {
  }

  /** The offset `add_assign` leaves: both operands are truncated to whole
      milliseconds and added. */
  function OffsetAfterAdd(offset: Duration, rhs: Duration): (r: Duration)
    ensures AsMillis(r) == AsMillis(offset) + AsMillis(rhs)
    ensures WholeMillis(r)
  {
    FromMillis(AsMillis(offset) + AsMillis(rhs))
  }

  /** Adding zero leaves a whole-millisecond offset where it was, and adding
      never moves such an offset backwards. */
  lemma OffsetAddZeroAndMonotone(offset: Duration, rhs: Duration)
    requires WholeMillis(offset)
    ensures OffsetAfterAdd(offset, 0) == offset
    ensures OffsetAfterAdd(offset, rhs) >= offset
  {
  }

  /** Two successive adds equal one add of the summed milliseconds, and
      the order of the two adds does not matter. */
  lemma OffsetAddsCompose(offset: Duration, a: Duration, b: Duration)
    ensures OffsetAfterAdd(OffsetAfterAdd(offset, a), b)
         == OffsetAfterAdd(offset, FromMillis(AsMillis(a) + AsMillis(b)))
    ensures OffsetAfterAdd(OffsetAfterAdd(offset, a), b)
         == OffsetAfterAdd(OffsetAfterAdd(offset, b), a)
  {
  }

  /** Sub-millisecond ticks of either operand do not reach the offset. */
  lemma OffsetDropsSubMillis(offset: Duration, rhs: Duration)
    ensures OffsetAfterAdd(offset, rhs)
         == OffsetAfterAdd(offset - offset % TICKS_PER_MS, rhs - rhs % TICKS_PER_MS)
  {
  }

  class Time {
    var offset: Duration

    /** The offset is a whole number of milliseconds: true of the default
        and kept by every add. */
    ghost predicate Valid()
      reads this
    {
      WholeMillis(offset)
    }

    /** `Time::default`: no calibration offset. */
    constructor Default()
      ensures Valid() && offset == 0
    {
      offset := 0;
    }

    /** `Time::now` at the monotonic instant `instant`: the instant and the
        offset in whole milliseconds, added.  It reads the offset and does
        not change it. */
    function Now(instant: Instant): (d: Duration)
      reads this
      ensures AsMillis(d) == AsMillis(instant) + AsMillis(offset)
      ensures WholeMillis(d)
    {
      FromMillis(AsMillis(instant) + AsMillis(offset))
    }

    /** `AddAssign<Duration> for Time`. */
    method AddAssign(rhs: Duration)
      requires Valid()
      modifies this
      ensures Valid()
      ensures offset == OffsetAfterAdd(old(offset), rhs)
    {
      var ms := AsMillis(offset) + AsMillis(rhs);
      offset := FromMillis(ms);
    }
  }

  /** For a fixed offset the clock reading never goes backwards as the
      instant advances, and it moves by exactly the elapsed whole
      milliseconds when both instants are whole milliseconds. */
  lemma NowMonotone(t: Time, i: Instant, j: Instant)
    requires i <= j
    ensures t.Now(i) <= t.Now(j)
    ensures WholeMillis(i) && WholeMillis(j) ==> t.Now(j) - t.Now(i) == j - i
  {
  }
}
