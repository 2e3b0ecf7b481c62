/**
 * The two alarm clocks and the alarm base each one selects, and the error
 * codes the posix entry points return.
 */
module Clocks {
  import opened Wrappers

  const CLOCK_REALTIME_ALARM: int := 8
  const CLOCK_BOOTTIME_ALARM: int := 9

  /** enum alarmtimer_type; Index is the slot in alarm_bases. */
  datatype AlarmType = AlarmRealtime | AlarmBoottime {
    function Index(): nat {
      match this
      case AlarmRealtime => 0
      case AlarmBoottime => 1
    }
  }

  /** The posix clock id an alarm type is registered under. */
  function ClockId(t: AlarmType): int {
    match t
    case AlarmRealtime => CLOCK_REALTIME_ALARM
    case AlarmBoottime => CLOCK_BOOTTIME_ALARM
  }

  /**
   * clock2alarm: the alarm type of an alarm clock id; None stands for the
   * -1 returned for any other id. It inverts ClockId.
   */
  function Clock2Alarm(clockid: int): (r: Option<AlarmType>)
    ensures r.Some? <==> clockid == CLOCK_REALTIME_ALARM || clockid == CLOCK_BOOTTIME_ALARM
    ensures r.Some? ==> ClockId(r.value) == clockid
    ensures forall t :: ClockId(t) == clockid ==> r == Some(t)
  {
    if clockid == CLOCK_REALTIME_ALARM then Some(AlarmRealtime)
    else if clockid == CLOCK_BOOTTIME_ALARM then Some(AlarmBoottime)
    else None
  }
}

/** Kernel error numbers; entry points return them negated. */
module Errno {
  const EPERM: int := 1
  const EFAULT: int := 14
  const ERESTARTNOHAND: int := 514
  const ERESTART_RESTARTBLOCK: int := 516
  const ENOTSUPP: int := 524
}
