/** Durations in nanoseconds (src/base/source/clock.cc) and the timerfd request they become
    (src/net/source/timer_queue.cc, src/base/source/sys_fd.cc). */
module Clock {
  import opened Common

  const NANOS_PER_SEC: int := 1_000_000_000
  const NANOS_PER_MS: int := 1_000_000

  /** parse_time_duration: seconds truncated toward zero, and the rest with the same sign.  The
      contract determines the pair. */
  function ParseTimeDuration(dur: int): (r: (int, int))
    ensures dur == r.0 * NANOS_PER_SEC + r.1
    ensures -NANOS_PER_SEC < r.1 < NANOS_PER_SEC
    ensures dur >= 0 ==> r.0 >= 0 && r.1 >= 0
    ensures dur <= 0 ==> r.0 <= 0 && r.1 <= 0
  {
    if dur >= 0 then (dur / NANOS_PER_SEC, dur % NANOS_PER_SEC)
    else (-(-dur / NANOS_PER_SEC), -(-dur % NANOS_PER_SEC))
  }

  /** Whether a timer overdue at arming is clamped to "now" before the request is made. */
  datatype Variant = AsWritten | Repaired

  /** The request reset_expieration_from_now makes at time now for expiry expir. */
  function Request(variant: Variant, now: int, expir: int): (int, int) {
    var wait := if variant.Repaired? then Max(expir - now, 0) else expir - now;
    var (sec, nano) := ParseTimeDuration(wait);
    (sec, if sec == 0 && nano < NANOS_PER_MS then NANOS_PER_MS else nano)
  }

  /** timerfd_settime rejects a negative part or a nanosecond part of a second or more. */
  predicate Accepted(request: (int, int)) {
    request.0 >= 0 && 0 <= request.1 < NANOS_PER_SEC
  }

  /** The deadline of the OS timer after the request; a rejected one changes nothing. */
  function Arm(variant: Variant, armed: Option<int>, now: int, expir: int): Option<int> {
    var request := Request(variant, now, expir);
    if Accepted(request) then Some(now + request.0 * NANOS_PER_SEC + request.1) else armed
  }

  /** What arming is for: fire at the expiry, or a millisecond from now if that is sooner. */
  predicate ArmsFor(armed: Option<int>, now: int, expir: int) {
    armed == Some(Max(expir, now + NANOS_PER_MS))
  }

  /** The repair arms correctly for every expiry.  The code as written does so, whatever was
      armed before, exactly when the expiry is less than a second in the past. */
  lemma ArmExactly(now: int, expir: int)
    ensures forall armed :: ArmsFor(Arm(Repaired, armed, now, expir), now, expir)
    ensures (forall armed :: ArmsFor(Arm(AsWritten, armed, now, expir), now, expir))
       <==> expir - now > -NANOS_PER_SEC
  {
    var (sec, nano) := ParseTimeDuration(expir - now);
    if expir - now <= -NANOS_PER_SEC {
      assert sec < 0;
      assert Arm(AsWritten, None, now, expir) == None;
    } else if expir < now {
      assert sec == 0;
    }
  }

  /** What arming leaves, for any expiry, by number. */
  lemma ArmsOrNot(v: Variant, armed: Option<int>, now: int, expir: int)
    ensures Arm(v, armed, now, expir) ==
            if v.Repaired? || expir - now > -1_000_000_000 then Some(Max(expir, now + 1_000_000)) else armed
  {
    ArmExactly(now, expir);
    var (sec, nano) := ParseTimeDuration(expir - now);
  }

  /** A timer one second overdue leaves the OS timer disarmed. */
  lemma OverdueTimerIsNotArmed()
    ensures Arm(AsWritten, None, 5 * NANOS_PER_SEC, 4 * NANOS_PER_SEC) == None
  {
  }
}
