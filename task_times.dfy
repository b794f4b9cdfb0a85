/**
 * Per-task CPU time accounting (modules/axtask/src/times.rs).
 *
 * `Times` records when the task last entered kernel or user mode
 * (`start_time`, tagged with the mode; `-1` means "waiting": no interval is
 * open) and the user and system time accumulators. Every method of the
 * source mutates it through `&mut self`, so it is a class here; its value is
 * `TimesState`, and the transition functions on `TimesState` are what the
 * lemmas below reason about. `Tms` is the snapshot record `times(2)` returns.
 *
 * Ticks come from `axhal::time::current_ticks()` (a `u64`) and are passed in;
 * `as isize` is `MachineInt.ToI64`.
 */
module TaskTimes {
  import opened MachineInt

  const WAIT: int := -1

  datatype Tms = Tms(tmsUtime: int, tmsStime: int, tmsCutime: int, tmsCstime: int)

  /** `Tms::new_empty`. */
  function TmsNewEmpty(): (r: Tms)
    ensures r.tmsUtime == 0 && r.tmsStime == 0 && r.tmsCutime == 0 && r.tmsCstime == 0
  {
    Tms(0, 0, 0, 0)
  }

  datatype TimesType = Kernel(t: int) | User(t: int) | None

  datatype TimesState = TimesState(startTime: TimesType, utime: int, stime: int)

  /** `is_valid`: an interval is open (the mode is known and its start is not `-1`). */
  predicate IsValidState(s: TimesState)
    ensures IsValidState(s) ==> !s.startTime.None? && s.startTime.t != WAIT
    ensures s.startTime in {Kernel(WAIT), User(WAIT), None} ==> !IsValidState(s)
  {
    match s.startTime
    case Kernel(t) => t != WAIT
    case User(t) => t != WAIT
    case None => false
  }

  /** `change_to_wait`: the mode is kept and its timestamp becomes `-1`. */
  function ToWait(start: TimesType): (r: TimesType)
    ensures r.Kernel? == start.Kernel? && r.User? == start.User?
    ensures !r.None? ==> r.t == WAIT
  {
    match start
    case Kernel(_) => Kernel(WAIT)
    case User(_) => User(WAIT)
    case None => None
  }

  /** `reset_time`: the mode is kept and its timestamp replaced by `now`. */
  function Restarted(start: TimesType, now: int): (r: TimesType)
    ensures r.Kernel? == start.Kernel? && r.User? == start.User?
    ensures !r.None? ==> r.t == now
  {
    match start
    case Kernel(_) => Kernel(now)
    case User(_) => User(now)
    case None => None
  }

  /** `update_time(cur)` as a transition on values. */
  function Updated(s: TimesState, cur: int): (r: TimesState)
    ensures !IsValidState(r)
    ensures r.startTime.Kernel? == s.startTime.Kernel? && r.startTime.User? == s.startTime.User?
    ensures r.utime == s.utime || r.stime == s.stime
  {
    if !IsValidState(s) then s
    else
      var charged :=
        match s.startTime
        case Kernel(t) => s.(stime := cur - t)
        case User(t) => s.(utime := cur - t)
        case None => s;
      charged.(startTime := ToWait(s.startTime))
  }

  class Times {
    var startTime: TimesType
    var utime: int
    var stime: int

    function State(): TimesState
      reads this
    {
      TimesState(startTime, utime, stime)
    }

    /** `Times::new`: user mode, waiting, nothing accumulated. */
    constructor ()
      ensures State() == TimesState(User(WAIT), 0, 0)
      ensures !IsValid()
    {
      startTime, utime, stime := User(WAIT), 0, 0;
    }

    /** `is_valid`. */
    predicate IsValid()
      reads this
      ensures IsValid() ==> !startTime.None? && startTime.t != WAIT
    {
      IsValidState(State())
    }

    /** `add`: component-wise sum of the accumulators; `start_time` untouched. */
    method Add(other: Times)
      modifies this
      ensures utime == old(utime) + old(other.utime)
      ensures stime == old(stime) + old(other.stime)
      ensures startTime == old(startTime)
    {
      var du, ds := other.utime, other.stime;
      utime := utime + du;
      stime := stime + ds;
    }

    /** `set_start_time(cur_time, is_kernel)`: open an interval in the given mode. */
    method SetStartTime(curTime: int, isKernel: bool)
      modifies this
      ensures startTime == if isKernel then Kernel(curTime) else User(curTime)
      ensures utime == old(utime) && stime == old(stime)
    {
      if isKernel {
        startTime := Kernel(curTime);
      } else {
        startTime := User(curTime);
      }
    }

    /** `set_curr_time(is_kernel)`, reading the tick counter value `ticks`. */
    method SetCurrTime(isKernel: bool, ticks: U64)
      modifies this
      ensures startTime == if isKernel then Kernel(ToI64(ticks)) else User(ToI64(ticks))
      ensures utime == old(utime) && stime == old(stime)
    {
      SetStartTime(ToI64(ticks), isKernel);
    }

    /** `reset_time`, reading the tick counter value `ticks`. */
    method ResetTime(ticks: U64)
      modifies this
      ensures startTime == Restarted(old(startTime), ToI64(ticks))
      ensures utime == old(utime) && stime == old(stime)
    {
      match startTime
      case Kernel(_) => startTime := Kernel(ToI64(ticks));
      case User(_) => startTime := User(ToI64(ticks));
      case None =>
    }

    /** `change_to_wait`. */
    method ChangeToWait()
      modifies this
      ensures startTime == ToWait(old(startTime))
      ensures utime == old(utime) && stime == old(stime)
    {
      match startTime
      case Kernel(_) => startTime := Kernel(WAIT);
      case User(_) => startTime := User(WAIT);
      case None =>
    }

    /**
     * `update_time(cur_time)`: charge the open interval to the accumulator of
     * its mode (by assignment) and close it.
     */
    method UpdateTime(curTime: int)
      modifies this
      ensures State() == Updated(old(State()), curTime)
      ensures !IsValid()
      ensures old(IsValid()) && old(startTime).Kernel? ==>
                stime == curTime - old(startTime).t && utime == old(utime)
      ensures old(IsValid()) && old(startTime).User? ==>
                utime == curTime - old(startTime).t && stime == old(stime)
      ensures !old(IsValid()) ==> State() == old(State())
    {
      if !IsValid() {
        return;
      }
      match startTime {
        case Kernel(s) => stime := curTime - s;
        case User(s) => utime := curTime - s;
        case None =>
      }
      ChangeToWait();
    }

    /** `update_time_by_curr`, reading the tick counter value `ticks`. */
    method UpdateTimeByCurr(ticks: U64)
      modifies this
      ensures State() == Updated(old(State()), ToI64(ticks))
    {
      UpdateTime(ToI64(ticks));
    }
  }

  /** `Tms::create_from_times(process, children)`. */
  function CreateFromTimes(process: Times, children: Times): (r: Tms)
    reads process, children
    ensures r.tmsUtime == process.utime && r.tmsStime == process.stime
    ensures r.tmsCutime == children.utime && r.tmsCstime == children.stime
  {
    Tms(process.utime, process.stime, children.utime, children.stime)
  }

  /** A fresh `Times` has no open interval, so `update_time` on it does nothing. */
  lemma NewIsWaiting(cur: int)
    ensures !IsValidState(TimesState(User(WAIT), 0, 0))
    ensures Updated(TimesState(User(WAIT), 0, 0), cur) == TimesState(User(WAIT), 0, 0)
  {
  }

  /** Snapshots of two fresh `Times` are the empty `Tms`. */
  lemma NewSnapshotIsEmpty(process: Times, children: Times)
    requires process.State() == TimesState(User(WAIT), 0, 0)
    requires children.State() == TimesState(User(WAIT), 0, 0)
    ensures CreateFromTimes(process, children) == TmsNewEmpty()
  {
  }

  /** `update_time` on a state without an open interval changes nothing. */
  lemma UpdateInvalidIsNoop(s: TimesState, cur: int)
    requires !IsValidState(s)
    ensures Updated(s, cur) == s
  {
  }

  /**
   * From an open kernel interval starting at `t`, `update_time(cur)` sets
   * `stime` to `cur - t` (not `stime + cur - t`) and leaves `utime`; from a
   * user interval the roles swap. Either way the mode stays and the interval
   * closes.
   */
  lemma UpdateAssignsElapsed(s: TimesState, cur: int)
    requires IsValidState(s)
    ensures s.startTime.Kernel? ==>
      Updated(s, cur) == TimesState(Kernel(WAIT), s.utime, cur - s.startTime.t)
    ensures s.startTime.User? ==>
      Updated(s, cur) == TimesState(User(WAIT), cur - s.startTime.t, s.stime)
  {
  }

  /** After `update_time` no interval is open, so a second one is a no-op. */
  lemma UpdateClosesInterval(s: TimesState, c1: int, c2: int)
    ensures !IsValidState(Updated(s, c1))
    ensures Updated(Updated(s, c1), c2) == Updated(s, c1)
    ensures Updated(s, c1).startTime.Kernel? == s.startTime.Kernel?
    ensures Updated(s, c1).startTime.User? == s.startTime.User?
  {
  }

  /**
   * Because `update_time` assigns, two user-mode intervals (from 10 to 15 and
   * from 20 to 30) leave `utime` at 10, the length of the last one, not 15.
   */
  lemma UpdateKeepsOnlyLastInterval()
    ensures
      var s0 := TimesState(User(10), 0, 0);
      var s1 := Updated(s0, 15);
      var s2 := Updated(s1.(startTime := User(20)), 30);
      s1.utime == 5 && s2.utime == 10
  {
  }

  /** `reset_time` keeps the mode and the validity depends only on the new timestamp. */
  lemma RestartKeepsMode(s: TimesState, now: int)
    ensures Restarted(s.startTime, now).Kernel? == s.startTime.Kernel?
    ensures Restarted(s.startTime, now).User? == s.startTime.User?
    ensures s.startTime == None ==> Restarted(s.startTime, now) == None
    ensures IsValidState(s.(startTime := Restarted(s.startTime, now))) <==> (!s.startTime.None? && now != WAIT)
  {
  }

  /** The `-1` sentinel is never produced by `as isize` from a tick count below 2^63. */
  lemma SmallTicksOpenInterval(ticks: U64, isKernel: bool, utime: int, stime: int)
    requires ticks < I64_LIMIT
    ensures IsValidState(TimesState(if isKernel then Kernel(ToI64(ticks)) else User(ToI64(ticks)), utime, stime))
  {
  }
}
