/** The victory modal's view model
    (src/viewModels/game/components/VictoryModal/VictoryModal.viewmodel.ts):
    the elapsed-time clock and the ordinal suffix for the ranking
    position. */
module VictoryModal {
  import opened Text
  import History
  import TimeFormat

  /** `timeString`: the `MM:SS` clock of the elapsed time. It is the
      history screen's text, and its seconds field is always exactly two
      digits worth less than 60. */
  function TimeString(timeElapsed: nat): (r: string)
    ensures r == History.FormatTime(timeElapsed)
    ensures |r| >= 5 && r[|r| - 3] == ':'
    ensures AllDigits(r[|r| - 2..]) && ParseDecimal(r[|r| - 2..]) < 60
  {
    PadStart2(NatToString(timeElapsed / 60)) + ":" + PadStart2(NatToString(timeElapsed % 60))
  }

  /** `getPositionSuffix(position)`: the two characters U+0E22 U+0E1A,
      whatever the position (the ordinal sign after an encoding slip, kept
      as the code has it). */
  function PositionSuffix(position: int): (r: string)
    ensures |r| == 2
  {
    "\U{0E22}\U{0E1A}"
  }

  /** The suffix does not depend on the position. */
  lemma PositionSuffixConstant(a: int, b: int)
    ensures PositionSuffix(a) == PositionSuffix(b)
  {
  }
}
