# Alarm timers, modelled in Dafny

This project models the alarm timer engine of the Linux kernel
(`kernel/time/alarmtimer.c`). The engine provides timers that keep running
while the machine is suspended. There are two alarm types,
`CLOCK_REALTIME_ALARM` and `CLOCK_BOOTTIME_ALARM`, and each one has an
alarm base. A base holds a timerqueue of enabled alarms, ordered by
absolute expiry, and one hrtimer. That hrtimer must always be armed at the
earliest queued expiry.

The model is split into these modules:

- `Ktime` (ktime.dfy): nanosecond times as integers.
  - `timespec_to_ktime` with the 64-bit clamp of `ktime_set`.
  - `ktime_to_timespec`.
  - `ktime_add_safe`, as a 64-bit wrapping add that saturates.
- `TimerQueue` (timerqueue.dfy): the timerqueue as a sorted sequence of
  (alarm id, expiry) nodes.
  - A node inserted with the same expiry as queued nodes goes after them.
  - The head is `timerqueue_getnext`.
- `Alarms` (alarms.dfy): the alarm record and the dispatcher's
  specification.
  - `Linked` is the agreement between the queue and the alarm table.
  - It also holds the per-turn step of `alarmtimer_fired`, what each
    alarm looks like after a run (`Dispatched`), and the log of callback
    invocations.
  - `Firings` lists the expiries a due alarm is fired for in one run.
    `Project` picks one alarm's entries out of the log. The dispatcher's
    log accounts for every alarm exactly: each alarm's entries are its
    `Firings`, when it has a callback.
- `AlarmBases` (alarm_base.dfy): the class `AlarmBase`.
  - Its fields are the queue, the hrtimer (`armedAt`) and the alarm
    records of that base.
  - Its methods are `alarmtimer_enqueue`, `alarmtimer_remove`,
    `alarm_init`, `alarm_start`, `alarm_cancel`, `alarmtimer_fired` and
    the sleep loop of `alarmtimer_do_nsleep`.
  - `alarmtimer_fired` is split into its loop body (`ExpireHead`), the
    loop (`ExpireDue`) and the re-arm (`Fired`).
- `WakePlan` (wakeplan.dfy): the soonest-lead search of suspend, with 0
  as the "no candidate" value. A head due exactly at the clock reading
  has lead 0 too. It wipes out every candidate found before it, unless
  the minimum so far is negative: that one it keeps.
- `Clocks`, `Errno` (clocks.dfy): `clock2alarm` and the error numbers.
- `Sleep` (sleep.dfy): what `clock_nanosleep` computes around the sleep:
  - the absolute deadline;
  - `update_rmtp`;
  - the restart block and the return code.
- `AlarmTimers` (alarmtimer.dfy): the module state as the class
  `AlarmTimer`.
  - Its state is the two bases, `freezer_delta` and the RTC.
  - Its methods are `alarmtimer_suspend`, `alarmtimer_freezerset` and the
    posix entry points `alarm_timer_create`, `alarm_timer_set`,
    `alarm_timer_nsleep` and `alarm_timer_nsleep_restart`.
  - `alarm_timer_get` is a pure function.

Alarms are named by an id. The record an id names is the `struct alarm`
whose type selects the base that holds it. Some inputs come from outside
the engine:

- Clock readings (`base->gettime()`, the RTC's time) are parameters.
- So are the `CAP_WAKE_ALARM` capability check, `freezing(current)` and
  the success of `copy_to_user`.
- The wake-ups of a sleeping task are an input trace of `Wakeup` values.
  Each says whether the base's dispatcher ran, at what clock reading, and
  whether a signal is pending.

Callbacks are not called. The dispatcher returns a log of `Firing(id,
expired)` entries, one per callback invocation, in call order.

`alarm_timer_set` takes a `flags` argument but never consults it, so the
new value always becomes an absolute expiry. The model follows the code
here. A relative `TIMER_SETTIME` request is therefore also read as
absolute.

## Model

| member | source | states |
|---|---|---|
| Ktime.TimespecToKtime | kernel/time/alarmtimer.c:500-502 | a valid timespec becomes a ktime in 0..KTIME_MAX; a second count at or above KTIME_SEC_MAX gives exactly KTIME_MAX; below that, the ktime splits back into the same seconds and nanoseconds |
| Ktime.KtimeToTimespec | kernel/time/alarmtimer.c:446-449 | the nanoseconds are normalised; a non-negative ktime gives a valid timespec that converts back to the same ktime below the saturation instant |
| Ktime.TimespecRoundTrip | kernel/time/alarmtimer.c:446-449 | a normalised timespec survives ktime conversion and back unchanged |
| Ktime.Wrap64 | kernel/time/alarmtimer.c:642 | the result is a 64-bit value; in-range sums are kept, sums just past KTIME_MAX wrap by 2^64 |
| Ktime.AddSafe | kernel/time/alarmtimer.c:642 | ktime_add_safe of two ktimes is never negative and at most KTIME_MAX; it is either the 64-bit wrapped sum or KTIME_MAX, the value of ktime_set(KTIME_SEC_MAX, 0) |
| Ktime.AddSafeExact | kernel/time/alarmtimer.c:637-643 | for non-negative times, ktime_add_safe is the exact sum until that would pass KTIME_MAX, and KTIME_MAX after |
| TimerQueue.Insert | kernel/time/alarmtimer.c:128 | timerqueue_add adds exactly the new node: length plus one, multiset plus the node |
| TimerQueue.Delete | kernel/time/alarmtimer.c:150 | timerqueue_del only removes nodes |
| TimerQueue.DeleteLength | kernel/time/alarmtimer.c:150 | delete shortens the queue by one exactly when the id is queued |
| TimerQueue.InsertAt | kernel/time/alarmtimer.c:128 | insertion places the node after every node expiring no later and before every later one |
| TimerQueue.InsertSorted | kernel/time/alarmtimer.c:128 | insertion keeps the queue ordered by expiry |
| TimerQueue.DeleteAt | kernel/time/alarmtimer.c:150 | deleting a queued id cuts out exactly its node, leaving the rest in order |
| TimerQueue.DeleteAbsent | kernel/time/alarmtimer.c:150 | deleting an id that is not queued changes nothing |
| TimerQueue.DeleteSorted | kernel/time/alarmtimer.c:150 | deletion keeps the queue ordered |
| TimerQueue.DeleteDistinct | kernel/time/alarmtimer.c:150 | deletion keeps ids unique and removes exactly that id from the id set |
| TimerQueue.InsertDistinct | kernel/time/alarmtimer.c:128 | inserting an unqueued id keeps ids unique and adds exactly that id |
| TimerQueue.DeleteInsert | kernel/time/alarmtimer.c:128-151 | deleting a node just inserted gives back the queue before the insertion |
| TimerQueue.BacklogInsert | kernel/time/alarmtimer.c:193-194 | the total lateness of the queue grows by the inserted node's lateness |
| Alarms.NextExpiry | kernel/time/alarmtimer.c:180-198 | where a due periodic alarm ends up: later than now, within one period of now, never before its own expiry |
| Alarms.NextExpiryOnGrid | kernel/time/alarmtimer.c:193 | re-arming adds whole periods to the alarm's own expiry (expired + period, not now + period), so there is no drift |
| Alarms.DispatchStart | kernel/time/alarmtimer.c:179-180 | the dispatcher's loop invariant holds on entry with an empty log |
| Alarms.LinkedUnlink | kernel/time/alarmtimer.c:189-190 | unlinking an enabled alarm and disabling it keeps queue and alarm table in agreement |
| Alarms.LinkedLink | kernel/time/alarmtimer.c:193-195 | linking a disabled alarm at its expiry and enabling it keeps queue and table in agreement |
| Alarms.Relink | kernel/time/alarmtimer.c:317-330 | linking a disabled alarm keeps agreement, leaves exactly one node for it at its expiry, and unlinking it again restores the queue |
| Alarms.Requeue | kernel/time/alarmtimer.c:193-195 | linking an alarm no earlier than a bound keeps agreement and keeps every queued expiry at or after the bound |
| Alarms.LinkedCancel | kernel/time/alarmtimer.c:336-346 | cancel leaves the alarm unqueued and disabled with queue and table in agreement; on a disabled alarm it changes nothing |
| Alarms.LinkedRestart | kernel/time/alarmtimer.c:317-330 | start (remove if enabled, set expiry and period, enqueue, enable) keeps agreement, queues the alarm exactly once at start, and leaves every other node in place |
| Alarms.UniqueRequeued | kernel/time/alarmtimer.c:193-194 | a node inserted for an unqueued id is its only node, and deleting it restores the queue |
| Alarms.PopOneShot | kernel/time/alarmtimer.c:187-190 | popping the due head and disabling its alarm keeps agreement, and nothing left expires before the popped head |
| Alarms.RequeuePopped | kernel/time/alarmtimer.c:192-195 | re-adding a popped periodic alarm one period after the expiry it fired for keeps agreement, and nothing queued expires before that expiry |
| Alarms.InFlightPop | kernel/time/alarmtimer.c:186-196 | popping a due alarm moves it one step: a periodic one to the next expiry on the same grid, a one-shot one to disabled |
| Alarms.StepLinked | kernel/time/alarmtimer.c:186-196 | one dispatcher turn keeps queue and table in agreement |
| Alarms.StepInFlight | kernel/time/alarmtimer.c:186-196 | one dispatcher turn moves only the popped alarm, towards its dispatched state |
| Alarms.StepBacklog | kernel/time/alarmtimer.c:186-196 | one dispatcher turn lowers the total lateness: the popped head was overdue and a periodic one comes back strictly later |
| Alarms.StepLog | kernel/time/alarmtimer.c:198-199 | logging the popped alarm's callback keeps the log in expiry order and made of due alarms |
| Alarms.StepCoverage | kernel/time/alarmtimer.c:186-199 | every due alarm with a callback is either still waiting at its entry expiry or already logged |
| Alarms.DispatchStep | kernel/time/alarmtimer.c:180-201 | one dispatcher turn keeps the loop invariant and lowers the backlog, so the loop ends |
| Alarms.FiredMentions | kernel/time/alarmtimer.c:180-201 | an enabled alarm with a callback is fired exactly when its expiry is at most now |
| Alarms.DispatchDone | kernel/time/alarmtimer.c:180-185 | when the loop stops, every alarm is in its dispatched state, every due alarm with a callback was fired, and nothing queued is due |
| Alarms.FiringsShape | kernel/time/alarmtimer.c:186-196 | the expiries a due alarm fires for: none when it is not due; its expiry alone when it is one-shot; for a periodic one, its expiry plus k periods for each k, up to where NextExpiry re-arms it |
| Alarms.AccountStart | kernel/time/alarmtimer.c:179-180 | before the first turn, every alarm still owes all of its invocations |
| Alarms.OwedHead | kernel/time/alarmtimer.c:186-199 | popping a due head moves its first owed invocation (its expiry, when it has a callback) out of what it still owes |
| Alarms.StepAccount | kernel/time/alarmtimer.c:186-199 | one turn logs exactly the popped alarm's first owed invocation and leaves every other alarm's account as it was |
| Alarms.DispatchAccount | kernel/time/alarmtimer.c:180-201 | one turn keeps both the dispatch invariant and every alarm's account, and lowers the backlog |
| Alarms.AccountDone | kernel/time/alarmtimer.c:180-185 | when the loop stops, each alarm's log entries are exactly the expiries it was due for |
| AlarmBases.ArmedAtEarliest | kernel/time/alarmtimer.c:126-158 | the hrtimer setting the base keeps is idle exactly when the queue is empty, and otherwise is the earliest queued expiry |
| AlarmBases.HeadExpiry | kernel/time/alarmtimer.c:129-157 | where the hrtimer is armed for a queue: idle exactly when the queue is empty, otherwise at the expiry of a queued node (the earliest one, by ArmedAtEarliest) |
| AlarmBases.AlarmBase.constructor | kernel/time/alarmtimer.c:715-720 | a new base has an empty queue, an idle hrtimer and no alarms |
| AlarmBases.AlarmBase.Enqueue | kernel/time/alarmtimer.c:126-134 | the alarm is added at its expiry, the hrtimer follows the new head, and the hrtimer is untouched when the alarm did not become the head |
| AlarmBases.AlarmBase.Remove | kernel/time/alarmtimer.c:146-158 | the alarm's node is removed, the hrtimer follows the new head (idle when empty), and it is untouched when a non-head alarm is removed |
| AlarmBases.AlarmBase.Init | kernel/time/alarmtimer.c:301-309 | the alarm gets a zero period, is disabled and gets the callback; the queue is unchanged |
| AlarmBases.AlarmBase.Start | kernel/time/alarmtimer.c:317-330 | the alarm is enabled with expiry start and the period; it is queued exactly once at start whether or not it was enabled; no other node moves |
| AlarmBases.AlarmBase.Cancel | kernel/time/alarmtimer.c:336-346 | the alarm is disabled and unqueued, no other node moves, and cancelling a disabled alarm changes nothing |
| AlarmBases.AlarmBase.ExpireHead | kernel/time/alarmtimer.c:181-199 | one turn of the loop: the new queue and table are the due head popped and disabled, or for a periodic alarm re-queued one period after the expiry it fired for; the callback, if any, is logged for that expiry |
| AlarmBases.AlarmBase.ExpireDue | kernel/time/alarmtimer.c:180-201 | the loop ends with an empty queue or a head later than now, the dispatch invariant holding and the log accounting for every alarm |
| AlarmBases.AlarmBase.Fired | kernel/time/alarmtimer.c:170-211 | after the dispatcher runs: nothing queued is due; one-shot alarms are disabled; periodic alarms are re-armed on their own period grid; callbacks run in expiry order and only for due alarms; each alarm's log entries are exactly the expiries it was due for (once for a one-shot alarm, once per missed period for a periodic one); the result is RESTART exactly when the queue is not empty, with the hrtimer at the head |
| AlarmBases.AlarmBase.DoNsleep | kernel/time/alarmtimer.c:528-543 | the sleep ends with the alarm disabled and unqueued; it reports success exactly when the last wake-up ran the dispatcher at or after the deadline; without any dispatch, no other alarm changes |
| AlarmBases.AlarmBase.SleepOnce | kernel/time/alarmtimer.c:531-537 | one pass of the sleep loop (start, maybe fire, cancel) reports whether the alarm fired, and leaves it disabled and unqueued |
| AlarmBases.AlarmBase.Nsleep | kernel/time/alarmtimer.c:635-645 | initialises the stack alarm with the nsleep callback and sleeps: success exactly when the last wake-up ran the dispatcher at or after the deadline; the alarm is added and ends disabled and unqueued; without a dispatch, the queue and every other alarm are as before |
| WakePlan.Lead | kernel/time/alarmtimer.c:245-255 | a base has a lead exactly when its queue is not empty |
| WakePlan.MinStep | kernel/time/alarmtimer.c:254-255 | one step of the search: a lead replaces a zero (no candidate) minimum; otherwise the result is one of the two and no larger than either |
| WakePlan.SoonestLead | kernel/time/alarmtimer.c:243-256 | the search over the bases in order, from the freezer delta: the result is the freezer delta or one of the leads |
| WakePlan.SoonestLeadIsMinimum | kernel/time/alarmtimer.c:232-258 | the search yields zero exactly when there is no candidate, and otherwise the smallest of the freezer delta and the base leads |
| WakePlan.ZeroLeadStep | kernel/time/alarmtimer.c:254-255 | a zero lead replaces a running minimum that is zero or positive, and leaves a negative one unchanged |
| WakePlan.ZeroLeadResets | kernel/time/alarmtimer.c:254-255 | a lead of exactly zero, met while the running minimum is not negative, resets the search: every earlier candidate, the freezer delta included, is forgotten |
| Clocks.Clock2Alarm | kernel/time/alarmtimer.c:353-360 | exactly the two alarm clock ids map to an alarm type, and each to the type registered under it |
| Sleep.UpdateRmtp | kernel/time/alarmtimer.c:555-572 | returns 0 without writing when no time is left; otherwise 1 after writing, or -EFAULT when the copy fails; what is written converts back to the remainder when that is below KTIME_SEC_MAX_NS (above it, ktime_set's clamp gives KTIME_MAX) |
| Sleep.Deadline | kernel/time/alarmtimer.c:637-643 | an absolute request is taken as is; a relative one is now plus the request, KTIME_MAX on overflow, and never earlier than now |
| Sleep.Outcome | kernel/time/alarmtimer.c:645-671 | woken: 0; interrupted absolute: -ERESTARTNOHAND with no write and no restart; interrupted relative: update_rmtp's result when not positive, else -ERESTART_RESTARTBLOCK with a restart block holding the type, the same absolute expiry and the user pointer |
| AlarmTimers.TimerGet | kernel/time/alarmtimer.c:441-451 | reports the period as the interval and the expiry as the value, both normalised, each converting back to the ktime it came from when that is below KTIME_SEC_MAX_NS (above it, ktime_set's clamp gives KTIME_MAX) |
| AlarmTimers.TimerGetAfterSet | kernel/time/alarmtimer.c:441-451 | reading back an alarm set from a setting gives that setting |
| AlarmTimers.ClampIntervalAsWritten | kernel/time/alarmtimer.c:489-491 | an interval under 100 microseconds, zero included, becomes exactly {0, 100000}; any other comes out unchanged; a valid interval stays valid |
| AlarmTimers.ClampAsWrittenMakesOneShotPeriodic | kernel/time/alarmtimer.c:489-491 | as written, a zero interval becomes 100000 ns, while the corrected clamp keeps it zero |
| AlarmTimers.ClampInterval | kernel/time/alarmtimer.c:489-491 | a zero interval stays zero; a nonzero one under 100 microseconds becomes exactly {0, 100000}; any other comes out unchanged |
| AlarmTimers.AlarmTimer.constructor | kernel/time/alarmtimer.c:714-721 | both bases start empty with idle hrtimers and no freezer delta |
| AlarmTimers.AlarmTimer.Suspend | kernel/time/alarmtimer.c:224-272 | the freezer delta is read and reset even without an RTC; with an RTC and a nonzero soonest lead, the RTC alarm is set at its time plus that lead, and a lead under a second is flagged |
| AlarmTimers.AlarmTimer.FreezerSet | kernel/time/alarmtimer.c:280-292 | the freezer delta becomes the lead to absexp when it was zero or the lead is smaller |
| AlarmTimers.AlarmTimer.TimerCreate | kernel/time/alarmtimer.c:417-432 | -ENOTSUPP without an RTC, then -EPERM without the capability, each with nothing changed; else 0 with the alarm initialised with the posix callback |
| AlarmTimers.AlarmTimer.TimerSet | kernel/time/alarmtimer.c:477-504 | -ENOTSUPP without an RTC with nothing changed; else the interval is clamped as the code does, the old setting is the alarm's before the change, and the alarm is enabled at the new expiry and period, queued exactly once; a zero interval leaves the alarm periodic every 100 microseconds |
| AlarmTimers.AlarmTimer.Nsleep | kernel/time/alarmtimer.c:620-672 | -ENOTSUPP, then -EPERM, each with the base and the freezer delta unchanged; otherwise the result is Outcome for the deadline, an interrupted sleep under the freezer records its lead in the freezer delta, the stack alarm ends disabled and unqueued, and when no wake-up ran the dispatcher, the queue and every other alarm are as before |
| AlarmTimers.AlarmTimer.NsleepRestart | kernel/time/alarmtimer.c:580-609 | sleeps to the block's expiry and reports as a relative sleep, with the same expiry and user pointer in the restart block; the stack alarm ends disabled and unqueued, and without a dispatch the queue and every other alarm are as before |
| AlarmTimers.AlarmTimer.SleepFor | kernel/time/alarmtimer.c:635-671 | the shared tail: the return code is Outcome's, the freezer lead is recorded for an interrupted sleep under the freezer, the stack alarm ends disabled and unqueued, and without a dispatch the queue and every other alarm are as before |

## Left out

- Spinlocks and interrupt masking are not modelled. Each entry point runs atomically. So is the window in suspend where a head's expiry is read after the base lock is dropped.
- RTC discovery (`has_wakealarm`, `alarmtimer_get_rtcdev`) is left out. The RTC is an optional value: its time in seconds and its programmed wake instant.
- `rtc_timer_cancel` and `rtc_timer_start` become one overwrite of the programmed instant.
- `hrtimer_try_to_cancel` failure and real hrtimer behaviour are left out. The hrtimer is `armedAt`, the instant it is armed at, or idle.
- Callbacks are not run. They are recorded in a log, so these are not modelled:
  - re-entrancy from a callback into `alarm_start` or `alarm_cancel`;
  - `alarm_handle_timer` with `posix_timer_event` and `it_overrun`;
  - `alarmtimer_nsleep_wakeup` and `wake_up_process`.
- Scheduling and signals are not modelled directly. The sleep loop reads them from a finite wake-up trace.
  - AlarmBases.AlarmBase.DoNsleep: the trace must end the sleep, so a task that never wakes is not modelled.
  - Only a `Wakeup` that runs the dispatcher at or after the deadline fires the sleeper's alarm.
  - In the kernel the dispatcher may run several times during one `schedule()` without waking the sleeper, and the sleeper's node stays where it is. In the model every such run belongs to a `Wakeup`, which ends with a cancel and a fresh start. That re-queue puts the sleeper's node behind any alarm with the same expiry.
- `alarm_clock_getres`, `alarm_clock_get` and `alarm_timer_del` are left out. They are one-line wrappers around the RTC check, hrtimer resolution, the clock reading and `alarm_cancel`.
- `alarmtimer_init` is left out, except for the empty bases it sets up (the constructors). Also left out: the platform driver, PM ops and posix clock registration. These are boot-time glue.
- Ktime arithmetic: only the clamp in `ktime_set` and the saturation in `ktime_add_safe` are modelled.
  - `ktime_add` and `ktime_sub` overflow is not modelled: in `alarmtimer_fired`, suspend, freezerset and `update_rmtp`.
  - `expired + period` is therefore an unbounded sum.
- `copy_to_user` either copies all of the timespec or fails. A partial copy is the same as a failure.
- The alarm on the caller's stack in the sleep paths is an alarm id the caller supplies. The id must not already be in the base.
- Callers must pass an alarm clock id. The posix layer only routes `CLOCK_REALTIME_ALARM` and `CLOCK_BOOTTIME_ALARM` here.
- WakePlan.SoonestLeadIsMinimum assumes that no base lead is exactly zero. That case is covered by WakePlan.ZeroLeadStep (both signs of the minimum so far) and WakePlan.ZeroLeadResets instead. A head due at the very instant suspend reads the clock has lead 0. While no earlier candidate is negative, the code's `min = delta` then puts min back to the "no candidate" value, so every earlier candidate is dropped. A negative minimum so far (an overdue head, or a freezer deadline already passed) is kept instead, since 0 is not below it. For example, a freezer delta of 5 s followed by a realtime lead of 0 and an empty boottime queue ends with min 0, and no RTC wake-up is programmed. The model keeps this behaviour.
- Ktime is modelled for 64-bit builds only. On 32-bit builds `KTIME_SEC_MAX` is `LONG_MAX` and `ktime_t` is a pair of 32-bit fields. Neither is modelled.

## Findings

| source | as written | input that shows it | evidently intended | confidence | as-written member | corrected member |
|---|---|---|---|---|---|---|
| kernel/time/alarmtimer.c:489-491 | any interval with `tv_sec == 0 && tv_nsec < 100000` is raised to 100000 ns, including a zero interval | `timer_settime` with `it_interval = {0, 0}` (a one-shot timer): the alarm gets period 100000 ns, and `alarmtimer_fired` re-queues it every 100 microseconds | only nonzero intervals are raised; a zero interval keeps the timer one-shot | medium, not executed | AlarmTimers.ClampAsWrittenMakesOneShotPeriodic | AlarmTimers.ClampInterval |

`AlarmTimers.AlarmTimer.TimerSet` applies the clamp as written, so its
contract shows a one-shot timer becoming periodic. `ClampInterval` is
the corrected clamp, with its intended property proved on its own.
