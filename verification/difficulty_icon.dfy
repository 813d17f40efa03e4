/** The difficulty icon's view model
    (src/components/DifficultyIcon/DifficultyIcon.viewmodel.ts): how many
    of the three bars a difficulty lights, and each bar's height, colour
    and opacity. The press animation is not modelled; opacity is kept in
    tenths (10 for 1, 3 for 0.3). */
module DifficultyIcon {
  import opened Options
  import opened Seqs
  import opened Challenges
  import History

  /** `barCount`. */
  function BarCount(d: Difficulty): (n: nat)
    ensures 1 <= n <= 3
  {
    if d == Easy then 1 else if d == Medium then 2 else 3
  }

  /** The bars lit grow with the difficulty, and match the history
      screen's weight for the same difficulty. */
  lemma BarCountOrder(d: Difficulty)
    ensures BarCount(Easy) < BarCount(Medium) < BarCount(Hard)
    ensures BarCount(d) == History.DifficultyWeight(d)
  {
  }

  const BarHeights: seq<nat> := [6, 10, 14]

  datatype BarStyle = BarStyle(height: Option<nat>, backgroundColor: string, opacityTenths: nat)

  /** `getBarStyle(index)`: `barHeights[index - 1]` is undefined outside
      1..3; the bar takes the active colour only when it is lit and the icon
      is selected; it is opaque exactly when it is lit. */
  function GetBarStyle(d: Difficulty, isSelected: bool, color: string, inactiveColor: string,
                       index: int): (r: BarStyle)
    ensures r.height.Some? <==> 1 <= index <= 3
    ensures r.height.Some? ==> r.height.value == 4 * index + 2
    ensures index <= BarCount(d) && isSelected ==> r.backgroundColor == color
    ensures !(index <= BarCount(d) && isSelected) ==> r.backgroundColor == inactiveColor
    ensures r.opacityTenths == 10 <==> index <= BarCount(d)
    ensures r.opacityTenths == 3 <==> index > BarCount(d)
  {
    var count := BarCount(d);
    var height := if 1 <= index <= |BarHeights| then Some(BarHeights[index - 1]) else None;
    BarStyle(height,
             if index <= count && isSelected then color else inactiveColor,
             if index <= count then 10 else 3)
  }

  /** The three bars of the icon. */
  function Bars(d: Difficulty, isSelected: bool, color: string, inactiveColor: string): seq<BarStyle> {
    [GetBarStyle(d, isSelected, color, inactiveColor, 1),
     GetBarStyle(d, isSelected, color, inactiveColor, 2),
     GetBarStyle(d, isSelected, color, inactiveColor, 3)]
  }

  predicate IsOpaque(b: BarStyle) {
    b.opacityTenths == 10
  }

  /** Exactly `barCount` of the three bars are opaque, selected or not, and
      the bars get taller from left to right. */
  lemma OpaqueBarsAreBarCount(d: Difficulty, isSelected: bool, color: string, inactiveColor: string)
    ensures Count(IsOpaque, Bars(d, isSelected, color, inactiveColor)) == BarCount(d)
    ensures var b := Bars(d, isSelected, color, inactiveColor);
            b[0].height.value < b[1].height.value < b[2].height.value
  {
    var b := Bars(d, isSelected, color, inactiveColor);
    assert b[1..] == [b[1], b[2]] && b[1..][1..] == [b[2]] && b[1..][1..][1..] == [];
    var f3 := Filter(IsOpaque, [b[2]]);
    assert f3 == if IsOpaque(b[2]) then [b[2]] else [];
    var f2 := Filter(IsOpaque, [b[1], b[2]]);
    assert f2 == (if IsOpaque(b[1]) then [b[1]] else []) + f3;
    assert Filter(IsOpaque, b) == (if IsOpaque(b[0]) then [b[0]] else []) + f2;
  }
}
