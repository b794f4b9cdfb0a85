/**
 * The `utimensat` timestamp sentinels and the in-place update
 * `timespec::set_as_utime` (api/arceos_posix_api/src/ctypes_ext.rs).
 *
 * A timespec value is `TimespecValue`; the C struct that `set_as_utime`
 * overwrites through `&mut self` is the class `Timespec`. The wall clock
 * (`timespec::now()`) is a parameter.
 */
module CtypesExt {

  /** `tv_nsec` sentinel: set the field to the current time. */
  const UTIME_NOW: int := 0x3FFF_FFFF
  /** `tv_nsec` sentinel: leave the field unchanged. */
  const UTIME_OMIT: int := 0x3FFF_FFFE

  datatype TimespecValue = TimespecValue(tvSec: int, tvNsec: int)

  const ZeroTimespec := TimespecValue(0, 0)

  /**
   * The value a timestamp holds after `set_as_utime(time)`, given its old
   * value `current` and the wall-clock time `now`. Only `time.tvNsec` is
   * inspected.
   */
  function Utime(current: TimespecValue, time: TimespecValue, now: TimespecValue): (r: TimespecValue)
    ensures r == now || r == current || r == time
    ensures IsLiteral(time) ==> r == time
  {
    if time.tvNsec == UTIME_NOW then now
    else if time.tvNsec == UTIME_OMIT then current
    else time
  }

  /** A `tv_nsec` value that is neither sentinel: the timestamp is given literally. */
  predicate IsLiteral(time: TimespecValue)
  {
    time.tvNsec != UTIME_NOW && time.tvNsec != UTIME_OMIT
  }

  class Timespec {
    var tvSec: int
    var tvNsec: int

    function Value(): TimespecValue
      reads this
    {
      TimespecValue(tvSec, tvNsec)
    }

    constructor (v: TimespecValue)
      ensures Value() == v
    {
      tvSec, tvNsec := v.tvSec, v.tvNsec;
    }

    /** `set_as_utime`: overwrite `*self` according to `time.tv_nsec`. */
    method SetAsUtime(time: TimespecValue, now: TimespecValue)
      modifies this
      ensures time.tvNsec == UTIME_NOW ==> Value() == now
      ensures time.tvNsec == UTIME_OMIT ==> Value() == old(Value())
      ensures IsLiteral(time) ==> Value() == time
      ensures Value() == Utime(old(Value()), time, now)
    {
      if time.tvNsec == UTIME_NOW {
        tvSec, tvNsec := now.tvSec, now.tvNsec;
      } else if time.tvNsec == UTIME_OMIT {
      } else {
        tvSec, tvNsec := time.tvSec, time.tvNsec;
      }
    }
  }

  /** `UTIME_NOW` gives the supplied current time, whatever the old value. */
  lemma UtimeNowTakesClock(current: TimespecValue, sec: int, now: TimespecValue)
    ensures Utime(current, TimespecValue(sec, UTIME_NOW), now) == now
  {
  }

  /** `UTIME_OMIT` keeps the old value, whatever the clock says. */
  lemma UtimeOmitKeeps(current: TimespecValue, sec: int, now: TimespecValue)
    ensures Utime(current, TimespecValue(sec, UTIME_OMIT), now) == current
  {
  }

  /** Any other `tv_nsec`: both fields of the result are the literal ones. */
  lemma UtimeLiteralCopies(current: TimespecValue, time: TimespecValue, now: TimespecValue)
    requires IsLiteral(time)
    ensures Utime(current, time, now).tvSec == time.tvSec
    ensures Utime(current, time, now).tvNsec == time.tvNsec
  {
  }

  /**
   * The two sentinels differ, so exactly one of the three cases applies to
   * every `tv_nsec`; `tv_sec` of the argument never decides the case.
   */
  lemma ExactlyOneCase(time: TimespecValue)
    ensures UTIME_NOW != UTIME_OMIT
    ensures (if time.tvNsec == UTIME_NOW then 1 else 0)
          + (if time.tvNsec == UTIME_OMIT then 1 else 0)
          + (if IsLiteral(time) then 1 else 0) == 1
  {
  }

  /** Only `tv_nsec` of the argument selects the case: two arguments with the same `tv_nsec` act alike up to the literal copy. */
  lemma OnlyNsecInspected(current: TimespecValue, s1: int, s2: int, nsec: int, now: TimespecValue)
    requires nsec == UTIME_NOW || nsec == UTIME_OMIT
    ensures Utime(current, TimespecValue(s1, nsec), now) == Utime(current, TimespecValue(s2, nsec), now)
  {
  }

  /** Applying the same argument twice has the effect of applying it once (for `UTIME_NOW` with the same clock reading). */
  lemma UtimeIdempotent(current: TimespecValue, time: TimespecValue, now: TimespecValue)
    ensures Utime(Utime(current, time, now), time, now) == Utime(current, time, now)
  {
  }
}
