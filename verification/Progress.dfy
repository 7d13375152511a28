/** internal/status/cod/progress.go: the progress deadline of a deployment. */
module Progress {
  import opened Api

  /** What the deadline reads of the latest active revision. */
  datatype Latest = Latest(created: Time, completedAt: Option<Time>, phases: seq<ObservedPhase>)

  datatype ProgressReason = NoActiveRevisions | Progressed | DeadlineExceeded | Progressing

  /** The Progressing condition and the requested wake-up; no wake-up is 0. */
  datatype Verdict = Verdict(status: ConditionStatus, reason: ProgressReason, requeueAfter: Time)

  // ---------- Durations are 64-bit ----------

  const MAX_DURATION: int := 0x7fff_ffff_ffff_ffff

  const MINUTE: int := 60_000_000_000

  /** Products and differences of durations wrap around. */
  function Wrap(x: int): int {
    (x + MAX_DURATION + 1) % (2 * MAX_DURATION + 2) - MAX_DURATION - 1
  }

  /** The difference of two times saturates. */
  function Since(now: Time, t: Time): int {
    var d := now - t;
    if d > MAX_DURATION then MAX_DURATION else if d < -MAX_DURATION - 1 then -MAX_DURATION - 1 else d
  }

  function LastMilestone(created: Time, phases: seq<ObservedPhase>): Time {
    if phases == [] then created
    else
      var before, p := LastMilestone(created, phases[..|phases| - 1]), phases[|phases| - 1];
      if p.completedAt.Some? && p.completedAt.value > before then p.completedAt.value else before
  }

  function VerdictOf(minutes: Option<int>, latest: Option<Latest>, now: Time, deadlineUnit: Time): Verdict {
    if latest.None? then Verdict(CondFalse, NoActiveRevisions, 0)
    else if latest.value.completedAt.Some? then Verdict(CondTrue, Progressed, 0)
    else if minutes.None? then Verdict(CondTrue, Progressing, 0)
    else
      var deadline := Wrap(minutes.value * deadlineUnit);
      var elapsed := Since(now, LastMilestone(latest.value.created, latest.value.phases));
      if elapsed >= deadline then Verdict(CondFalse, DeadlineExceeded, 0)
      else Verdict(CondTrue, Progressing, Wrap(deadline - elapsed))
  }

  method EvaluateDeadline(
      minutes: Option<int>, latest: Option<Latest>, now: Time, deadlineUnit: Time) returns (v: Verdict)
    ensures v == VerdictOf(minutes, latest, now, deadlineUnit)
  {
    if latest.None? {
      return Verdict(CondFalse, NoActiveRevisions, 0);
    }
    var cos := latest.value;
    if cos.completedAt.Some? {
      return Verdict(CondTrue, Progressed, 0);
    }
    var requeueAfter := 0;
    if minutes.Some? {
      var lastMilestone := cos.created;
      for i := 0 to |cos.phases|
        invariant lastMilestone == LastMilestone(cos.created, cos.phases[..i])
      {
        var p := cos.phases[i];
        assert cos.phases[..i + 1][..i] == cos.phases[..i];
        if p.completedAt.Some? && p.completedAt.value > lastMilestone {
          lastMilestone := p.completedAt.value;
        }
      }
      assert cos.phases[..|cos.phases|] == cos.phases;
      var deadline := Wrap(minutes.value * deadlineUnit);
      var elapsed := Since(now, lastMilestone);
      if elapsed >= deadline {
        return Verdict(CondFalse, DeadlineExceeded, 0);
      }
      requeueAfter := Wrap(deadline - elapsed);
    }
    return Verdict(CondTrue, Progressing, requeueAfter);
  }

  /** The last milestone is the latest of the creation and the phase completions. */
  lemma {:induction false} MilestoneIsLatest(created: Time, phases: seq<ObservedPhase>)
    ensures var m := LastMilestone(created, phases);
            && created <= m
            && (forall k :: 0 <= k < |phases| && phases[k].completedAt.Some? ==> phases[k].completedAt.value <= m)
            && (m == created || exists k :: 0 <= k < |phases| && phases[k].completedAt == Some(m))
  {
    if phases == [] {
    } else {
      var init := phases[..|phases| - 1];
      MilestoneIsLatest(created, init);
      var m := LastMilestone(created, init);
      if k :| 0 <= k < |init| && init[k].completedAt == Some(m) {
        assert phases[k].completedAt == Some(m);
      }
      assert phases[|phases| - 1].completedAt == phases[|init|].completedAt;
    }
  }

  /** While the deadline's product is exact, it is exceeded exactly when that much time has passed since
      the last milestone, for any clock reading. */
  lemma {:induction false} ExceededExactly(minutes: int, latest: Latest, now: Time, deadlineUnit: Time)
    requires latest.completedAt.None? && 0 <= minutes * deadlineUnit <= MAX_DURATION
    ensures VerdictOf(Some(minutes), Some(latest), now, deadlineUnit).reason == DeadlineExceeded
            <==> now - LastMilestone(latest.created, latest.phases) >= minutes * deadlineUnit
  {
    WrapIsExact(minutes * deadlineUnit);
  }

  lemma {:induction false} WrapIsExact(x: int)
    ensures Wrap(x) == x <==> -MAX_DURATION - 1 <= x <= MAX_DURATION
  {
  }

  /** The wake-up is exact: if an evaluation asks to be woken after d, then evaluating the same state
      at any time reports the deadline exceeded exactly from now + d on.  The deadline must fit a
      64-bit duration, and so must the time that is left, which can fail only if the last milestone
      lies in the future. */
  lemma {:induction false} WakeUpIsExact(minutes: int, latest: Latest, now: Time, t: Time, deadlineUnit: Time)
    requires latest.completedAt.None? && 0 <= minutes * deadlineUnit <= MAX_DURATION
    requires minutes * deadlineUnit - (now - LastMilestone(latest.created, latest.phases)) <= MAX_DURATION
    requires VerdictOf(Some(minutes), Some(latest), now, deadlineUnit).reason == Progressing
    ensures var d := VerdictOf(Some(minutes), Some(latest), now, deadlineUnit).requeueAfter;
            && d > 0
            && (VerdictOf(Some(minutes), Some(latest), t, deadlineUnit).reason == DeadlineExceeded <==> t >= now + d)
  {
    var left := minutes * deadlineUnit - (now - LastMilestone(latest.created, latest.phases));
    ExceededExactly(minutes, latest, now, deadlineUnit);
    ExceededExactly(minutes, latest, t, deadlineUnit);
    WrapIsExact(minutes * deadlineUnit);
    WrapIsExact(left);
  }

  /** A running deadline asks to be woken when it is due, exactly if the time left fits a 64-bit duration.
      If the last milestone lies too far in the future for that, the wake-up is negative, which is none. */
  lemma {:induction false} WakeUpFitsIff(minutes: int, latest: Latest, now: Time, deadlineUnit: Time)
    requires latest.completedAt.None? && 0 <= minutes * deadlineUnit <= MAX_DURATION
    requires VerdictOf(Some(minutes), Some(latest), now, deadlineUnit).reason == Progressing
    ensures var d := VerdictOf(Some(minutes), Some(latest), now, deadlineUnit).requeueAfter;
            var left := minutes * deadlineUnit - (now - LastMilestone(latest.created, latest.phases));
            if left <= MAX_DURATION then d == left > 0 else d < 0
  {
    var left := minutes * deadlineUnit - (now - LastMilestone(latest.created, latest.phases));
    ExceededExactly(minutes, latest, now, deadlineUnit);
    WrapIsExact(minutes * deadlineUnit);
    WrapIsExact(left);
  }

  /** In minutes, the deadline fits a 64-bit duration exactly up to 153722867 of them; one more turns it
      negative, so that it is exceeded at once. */
  lemma {:induction false} MinutesFitIff(minutes: int)
    requires 0 <= minutes < 0x8000_0000
    ensures Wrap(minutes * MINUTE) == minutes * MINUTE <==> minutes <= 153_722_867
    ensures VerdictOf(Some(153_722_868), Some(Latest(0, None, [])), 0, MINUTE).reason == DeadlineExceeded
  {
    WrapIsExact(minutes * MINUTE);
  }

  /** A phase that completes later only delays the deadline. */
  lemma {:induction false} LaterMilestoneDelays(minutes: Option<int>, a: Latest, b: Latest, t: Time, deadlineUnit: Time)
    requires a.completedAt == b.completedAt == None
    requires LastMilestone(a.created, a.phases) <= LastMilestone(b.created, b.phases)
    requires VerdictOf(minutes, Some(b), t, deadlineUnit).reason == DeadlineExceeded
    ensures VerdictOf(minutes, Some(a), t, deadlineUnit).reason == DeadlineExceeded
  {
  }

  /** The condition and the wake-up go with the reason: only a group without an active revision and an
      exceeded deadline are False, a completed revision has Progressed for good, and only a deadline that
      still runs asks to be woken. */
  lemma {:induction false} VerdictExactly(minutes: Option<int>, latest: Option<Latest>, now: Time, deadlineUnit: Time)
    ensures var v := VerdictOf(minutes, latest, now, deadlineUnit);
            && (v.status == CondFalse <==> v.reason in {NoActiveRevisions, DeadlineExceeded})
            && (v.status == CondTrue <==> v.reason in {Progressed, Progressing})
            && (v.reason == NoActiveRevisions <==> latest == None)
            && (v.reason == Progressed <==> latest.Some? && latest.value.completedAt.Some?)
            && (v.requeueAfter != 0 ==> v.reason == Progressing && minutes.Some?)
            && (v.reason == DeadlineExceeded ==> minutes.Some?)
  {
  }
}
