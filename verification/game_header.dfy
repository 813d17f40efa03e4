/** The game header's view model
    (src/viewModels/game/components/GameHeader/GameHeader.viewmodel.ts):
    the remaining-time clock, the two time thresholds, and when the
    warning haptic fires. The pulse animation is not modelled; the haptic
    call itself is reduced to a "fires" flag. */
module GameHeader {
  import opened Text
  import History

  /** `timeString`: the `MM:SS` clock of the remaining time, the same text
      as the history screen's formatter. */
  function TimeString(timeRemaining: nat): (r: string)
    ensures r == History.FormatTime(timeRemaining)
  {
    PadStart2(NatToString(timeRemaining / 60)) + ":" + PadStart2(NatToString(timeRemaining % 60))
  }

  predicate IsLowTime(timeRemaining: nat) {
    timeRemaining <= 30
  }

  predicate IsCriticalTime(timeRemaining: nat) {
    timeRemaining <= 10
  }

  /** Critical time is always low time. */
  lemma CriticalIsLow(timeRemaining: nat)
    ensures IsCriticalTime(timeRemaining) ==> IsLowTime(timeRemaining)
  {
  }

  /** One run of the effect: whether the warning fires, and the new value
      of `lastHapticTime`. */
  datatype HapticOutcome = HapticOutcome(fires: bool, lastHapticTime: int)

  /** The effect for one value of `timeRemaining`: inside "low and above
      zero", it fires when the time is critical and differs from the last
      time it fired for, and then remembers that time. */
  function HapticEffect(timeRemaining: nat, last: int): (r: HapticOutcome)
    ensures r.fires <==> 0 < timeRemaining <= 10 && timeRemaining != last
    ensures r.lastHapticTime == if r.fires then timeRemaining else last
  {
    if IsLowTime(timeRemaining) && timeRemaining > 0 then
      if IsCriticalTime(timeRemaining) && timeRemaining != last then HapticOutcome(true, timeRemaining)
      else HapticOutcome(false, last)
    else HapticOutcome(false, last)
  }

  /** The times the warning fired for, as the effect runs over the values
      `timeRemaining` takes, starting from `last`. */
  function HapticRun(trace: seq<nat>, last: int): (fired: seq<nat>)
    ensures |fired| <= |trace|
    decreases |trace|
  {
    if |trace| == 0 then []
    else
      var step := HapticEffect(trace[0], last);
      (if step.fires then [trace[0]] else []) + HapticRun(trace[1..], step.lastHapticTime)
  }

  predicate NonIncreasing(s: seq<nat>) {
    forall i, j :: 0 <= i < j < |s| ==> s[i] >= s[j]
  }

  predicate StrictlyDecreasing(s: seq<nat>) {
    forall i, j :: 0 <= i < j < |s| ==> s[i] > s[j]
  }

  /** While the clock only counts down, the warning fires at most once per
      value: the values it fires for strictly decrease, all lie in 1..10,
      and the first one is not the starting `last`. */
  lemma HapticOncePerValue(trace: seq<nat>, last: int)
    requires NonIncreasing(trace)
    ensures var fired := HapticRun(trace, last);
            && StrictlyDecreasing(fired)
            && (forall i :: 0 <= i < |fired| ==> 0 < fired[i] <= 10)
            && (|fired| > 0 ==> fired[0] <= trace[0] && fired[0] != last)
  {
    HapticFiredDecreasing(trace, last);
    HapticFiredInRange(trace, last);
    HapticFirstFired(trace, last);
  }

  /** The warning only ever fires for a time in 1..10. */
  lemma {:induction false} HapticFiredInRange(trace: seq<nat>, last: int)
    ensures forall i :: 0 <= i < |HapticRun(trace, last)| ==> 0 < HapticRun(trace, last)[i] <= 10
    decreases |trace|
  {
    if |trace| > 0 {
      var step := HapticEffect(trace[0], last);
      var rest := HapticRun(trace[1..], step.lastHapticTime);
      HapticFiredInRange(trace[1..], step.lastHapticTime);
      if step.fires {
        assert HapticRun(trace, last) == [trace[0]] + rest;
      } else {
        assert HapticRun(trace, last) == rest;
      }
    }
  }

  /** On a count-down, the first warning is for a time no later than the
      first value and different from the starting `last`. */
  lemma {:induction false} HapticFirstFired(trace: seq<nat>, last: int)
    requires NonIncreasing(trace)
    ensures var fired := HapticRun(trace, last);
            |fired| > 0 ==> fired[0] <= trace[0] && fired[0] != last
    decreases |trace|
  {
    if |trace| > 0 {
      var step := HapticEffect(trace[0], last);
      var rest := HapticRun(trace[1..], step.lastHapticTime);
      if !step.fires {
        assert HapticRun(trace, last) == rest;
        NonIncreasingTail(trace);
        HapticFirstFired(trace[1..], last);
        if |rest| > 0 {
          assert rest[0] <= trace[1] <= trace[0];
        }
      }
    }
  }

  /** On a count-down, the warnings are for strictly decreasing times. */
  lemma {:induction false} HapticFiredDecreasing(trace: seq<nat>, last: int)
    requires NonIncreasing(trace)
    ensures StrictlyDecreasing(HapticRun(trace, last))
    decreases |trace|
  {
    if |trace| > 0 {
      var step := HapticEffect(trace[0], last);
      var rest := HapticRun(trace[1..], step.lastHapticTime);
      NonIncreasingTail(trace);
      HapticFiredDecreasing(trace[1..], step.lastHapticTime);
      if step.fires {
        HapticFirstFired(trace[1..], step.lastHapticTime);
        if |rest| > 0 {
          assert rest[0] <= trace[1] <= trace[0];
        }
        PrependLarger(trace[0], rest);
        assert HapticRun(trace, last) == [trace[0]] + rest;
      } else {
        assert HapticRun(trace, last) == rest;
      }
    }
  }

  lemma NonIncreasingTail(trace: seq<nat>)
    requires |trace| > 0 && NonIncreasing(trace)
    ensures NonIncreasing(trace[1..])
  {
  }

  /** A larger value in front of a strictly decreasing sequence keeps it
      strictly decreasing. */
  lemma PrependLarger(x: nat, rest: seq<nat>)
    requires StrictlyDecreasing(rest) && (|rest| > 0 ==> rest[0] < x)
    ensures StrictlyDecreasing([x] + rest)
  {
    var s := [x] + rest;
    forall i, j | 0 <= i < j < |s|
      ensures s[i] > s[j]
    {
      if i == 0 && j > 1 {
        assert rest[0] > rest[j - 1];
      }
    }
  }
}
