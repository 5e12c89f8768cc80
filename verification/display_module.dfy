/**
 * `cycleBrightness`: step the backlight through five fixed levels, wrapping from the
 * brightest back to the dimmest, and apply the result through the screen's ceiling check.
 */
module Display {
  import opened Screen

  const LEVELS: seq<int> := [10, 30, 50, 80, 100]

  /**
   * The level a press moves to, stated by ranges of the current brightness: the level
   * after the smallest level at or above it, or the second level when it is above them all.
   */
  function NextLevel(current: int): (r: int)
    ensures r in LEVELS
    ensures current <= 10 ==> r == 30
    ensures 10 < current <= 30 ==> r == 50
    ensures 30 < current <= 50 ==> r == 80
    ensures 50 < current <= 80 ==> r == 100
    ensures 80 < current <= 100 ==> r == 10
    ensures current > 100 ==> r == 30
  {
    if current <= 10 then 30
    else if current <= 30 then 50
    else if current <= 50 then 80
    else if current <= 80 then 100
    else if current <= 100 then 10
    else 30
  }

  /**
   * The loop of `cycleBrightness`: find the first level at or above the current setting
   * (the count of levels when there is none), then advance by one modulo the count.
   */
  method CycleLevel(current: int) returns (level: int)
    ensures level == NextLevel(current)
  {
    var idx := 0;
    while idx < |LEVELS|
      invariant 0 <= idx <= |LEVELS|
      invariant forall j :: 0 <= j < idx ==> current > LEVELS[j]
    {
      if current <= LEVELS[idx] {
        break;
      }
      idx := idx + 1;
    }
    assert idx == |LEVELS| || current <= LEVELS[idx];
    // The found position is the one the ranges of `NextLevel` describe.
    assert LEVELS[0] == 10 && LEVELS[1] == 30 && LEVELS[2] == 50 && LEVELS[3] == 80 && LEVELS[4] == 100;
    assert idx == 0 <==> current <= 10;
    assert idx == 1 <==> 10 < current <= 30;
    assert idx == 2 <==> 30 < current <= 50;
    assert idx == 3 <==> 50 < current <= 80;
    assert idx == 4 <==> 80 < current <= 100;
    idx := (idx + 1) % |LEVELS|;
    level := LEVELS[idx];
  }

  /** Cycling starting from a level visits every level and returns after five presses. */
  lemma LevelsFormOneCycle(i: nat)
    requires i < |LEVELS|
    ensures NextLevel(LEVELS[i]) == LEVELS[(i + 1) % |LEVELS|]
    ensures NextLevel(NextLevel(NextLevel(NextLevel(NextLevel(LEVELS[i]))))) == LEVELS[i]
  {
  }

  /**
   * The brightness after a press: the next level, unless the power module's ceiling is
   * below it, in which case the screen's fallback of 10.
   */
  method CycleBrightness(current: int, maxBrightness: int) returns (brightness: int)
    ensures brightness in LEVELS
    ensures NextLevel(current) <= maxBrightness ==> brightness == NextLevel(current)
    ensures NextLevel(current) > maxBrightness ==> brightness == 10
    ensures maxBrightness >= 10 ==> brightness <= maxBrightness
  {
    var level := CycleLevel(current);
    brightness := SetBrightness(level, maxBrightness);
  }
}
