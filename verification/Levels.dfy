/** The level a number of experience points stands for. */
module Levels {
  datatype LevelDef = LevelDef(level: int, nameUz: string, minXp: int)

  datatype Progress = Progress(
    currentLevel: int,
    levelName: string,
    totalXp: int,
    xpInCurrentLevel: int,
    xpNeededForNext: int,
    progressPercent: real,
    isMaxLevel: bool,
    nextLevelMinXp: int)

  /** Thresholds rise strictly from 0 and the level numbers with them. */
  predicate Ascending(levels: seq<LevelDef>) {
    && levels != [] && levels[0].minXp == 0
    && forall i, j | 0 <= i < j < |levels| :: levels[i].minXp < levels[j].minXp && levels[i].level < levels[j].level
  }

  /** `k` is the last level whose threshold is not above `xp`. */
  predicate IsCurrent(levels: seq<LevelDef>, xp: int, k: nat) {
    && k < |levels| && levels[k].minXp <= xp
    && forall j | k < j < |levels| :: xp < levels[j].minXp
  }

  /** The last level reached, looked for from the top; below every threshold it is the
      first. */
  function Current(levels: seq<LevelDef>, xp: int): (k: nat)
    requires levels != []
    ensures k < |levels|
    ensures IsCurrent(levels, xp, k) || (k == 0 && forall level <- levels :: xp < level.minXp)
  {
    var last := |levels| - 1;
    if last == 0 || levels[last].minXp <= xp then last else Current(levels[..last], xp)
  }

  lemma {:induction false} CurrentIs(levels: seq<LevelDef>, xp: int, k: nat)
    requires Ascending(levels) && (if xp < 0 then k == 0 else IsCurrent(levels, xp, k))
    ensures Current(levels, xp) == k
  {
    assert levels[0] in levels;
  }

  function Clamp(x: real): real { if x < 0.0 then 0.0 else if x > 100.0 then 100.0 else x }

  function PercentOf(earned: int, needed: int): real
    requires needed > 0
  {
    Clamp(earned as real / needed as real * 100.0)
  }

  /** What is shown for `xp` at level `k`. */
  function ProgressAt(levels: seq<LevelDef>, k: nat, xp: int): Progress
    requires Ascending(levels) && k < |levels|
  {
    var current := levels[k];
    if k + 1 == |levels| then
      Progress(current.level, current.nameUz, xp, 0, 1, 100.0, true, current.minXp)
    else
      var needed := levels[k + 1].minXp - current.minXp;
      Progress(current.level, current.nameUz, xp, xp - current.minXp, needed,
               PercentOf(xp - current.minXp, needed), false, levels[k + 1].minXp)
  }

  /** The scan stops at the first threshold above `xp`; with rising thresholds that
      leaves the last level reached, or the first if there is none. */
  method GetLevelProgress(levels: seq<LevelDef>, xp: int) returns (progress: Progress)
    requires Ascending(levels)
    ensures progress == ProgressAt(levels, Current(levels, xp), xp)
  {
    var current, next := 0, if 1 < |levels| then 1 else 0;
    var i := 0;
    while i < |levels|
      invariant 0 <= i <= |levels|
      invariant current == if i == 0 then 0 else i - 1
      invariant next == if current + 1 < |levels| then current + 1 else current
      invariant forall j | 0 <= j < i :: levels[j].minXp <= xp
    {
      if xp >= levels[i].minXp {
        current := i;
        next := if i + 1 < |levels| then i + 1 else i;
      } else {
        break;
      }
      i := i + 1;
    }
    CurrentIs(levels, xp, current);
    var isMaxLevel := current == next;
    var xpInCurrentLevel := if isMaxLevel then 0 else xp - levels[current].minXp;
    var xpNeededForNext := if isMaxLevel then 1 else levels[next].minXp - levels[current].minXp;
    var progressPercent :=
      if isMaxLevel then 100.0 else Clamp(xpInCurrentLevel as real / xpNeededForNext as real * 100.0);
    progress := Progress(levels[current].level, levels[current].nameUz, xp, xpInCurrentLevel, xpNeededForNext,
                         progressPercent, isMaxLevel, levels[next].minXp);
  }

  lemma {:induction false} QuotientGrows(a: real, b: real, n: real)
    requires a <= b && n > 0.0
    ensures a / n <= b / n && (a < b ==> a / n < b / n)
  {
  }

  lemma {:induction false} PercentGrows(a: int, b: int, n: int)
    requires a <= b && n > 0
    ensures PercentOf(a, n) <= PercentOf(b, n)
  {
    QuotientGrows(a as real, b as real, n as real);
  }

  lemma {:induction false} PercentBelowHundred(a: int, n: int)
    requires 0 <= a < n
    ensures 0.0 <= PercentOf(a, n) < 100.0
  {
    QuotientGrows(0.0, a as real, n as real);
    QuotientGrows(a as real, n as real, n as real);
  }

  lemma {:induction false} CurrentReached(levels: seq<LevelDef>, xp: int)
    requires Ascending(levels) && xp >= 0
    ensures IsCurrent(levels, xp, Current(levels, xp))
    ensures Current(levels, xp) + 1 == |levels| <==> xp >= levels[|levels| - 1].minXp
  {
    assert levels[0] in levels;
  }

  lemma {:induction false} PercentIsShare(a: int, n: int)
    requires 0 <= a < n
    ensures PercentOf(a, n) * n as real == a as real * 100.0
  {
    PercentBelowHundred(a, n);
    QuotientGrows(0.0, a as real, n as real);
    QuotientGrows(a as real, n as real, n as real);
    var share := a as real / n as real;
    assert share * n as real == a as real;
    assert PercentOf(a, n) == share * 100.0;
    assert share * 100.0 * n as real == share * n as real * 100.0;
  }

  /** The level shown is the one of the greatest threshold not above the points, with its
      name and the next threshold; the percentage is the share of the points needed that
      is earned. */
  lemma {:induction false} ProgressShows(levels: seq<LevelDef>, xp: int, k: nat)
    requires Ascending(levels) && xp >= 0 && IsCurrent(levels, xp, k)
    ensures var p := ProgressAt(levels, Current(levels, xp), xp);
            && p.currentLevel == levels[k].level && p.levelName == levels[k].nameUz && p.totalXp == xp
            && p.nextLevelMinXp == levels[if p.isMaxLevel then k else k + 1].minXp
            && (!p.isMaxLevel ==> p.progressPercent * p.xpNeededForNext as real == p.xpInCurrentLevel as real * 100.0
                                  && p.xpInCurrentLevel == xp - levels[k].minXp)
  {
    CurrentIs(levels, xp, k);
    CurrentReached(levels, xp);
    if k + 1 < |levels| {
      PercentIsShare(xp - levels[k].minXp, levels[k + 1].minXp - levels[k].minXp);
    }
  }

  /** Before the first threshold the first level is shown, with nothing earned. */
  lemma {:induction false} NothingBelowZero(levels: seq<LevelDef>, xp: int)
    requires Ascending(levels) && xp < 0
    ensures var p := ProgressAt(levels, Current(levels, xp), xp);
            p.currentLevel == levels[0].level && (|levels| > 1 ==> p.progressPercent == 0.0)
  {
    CurrentIs(levels, xp, 0);
    if |levels| > 1 {
      QuotientGrows(xp as real, 0.0, (levels[1].minXp - levels[0].minXp) as real);
    }
  }

  /** What is shown adds up: the level is left exactly when the rest is earned, and 100%
      is shown on the last level only. */
  lemma {:induction false} ProgressAddsUp(levels: seq<LevelDef>, xp: int)
    requires Ascending(levels) && xp >= 0
    ensures var p := ProgressAt(levels, Current(levels, xp), xp);
            && (p.isMaxLevel <==> xp >= levels[|levels| - 1].minXp)
            && 0.0 <= p.progressPercent <= 100.0 && (p.progressPercent == 100.0 <==> p.isMaxLevel)
            && (!p.isMaxLevel ==> 0 <= p.xpInCurrentLevel < p.xpNeededForNext
                                  && p.nextLevelMinXp - xp == p.xpNeededForNext - p.xpInCurrentLevel)
  {
    var k := Current(levels, xp);
    CurrentReached(levels, xp);
    if k + 1 < |levels| {
      PercentBelowHundred(xp - levels[k].minXp, levels[k + 1].minXp - levels[k].minXp);
    }
  }

  lemma {:induction false} CurrentGrows(levels: seq<LevelDef>, xp: int, more: int)
    requires Ascending(levels) && xp <= more
    ensures Current(levels, xp) <= Current(levels, more)
  {
    var j, k := Current(levels, xp), Current(levels, more);
    assert levels[j] in levels && levels[k] in levels;
  }

  /** More points never mean a lower level, nor less progress within one. */
  lemma {:induction false} MorePointsMoreProgress(levels: seq<LevelDef>, xp: int, more: int)
    requires Ascending(levels) && xp <= more
    ensures var p, q := ProgressAt(levels, Current(levels, xp), xp), ProgressAt(levels, Current(levels, more), more);
            p.currentLevel < q.currentLevel
            || (p.currentLevel == q.currentLevel && p.progressPercent <= q.progressPercent)
  {
    var j, k := Current(levels, xp), Current(levels, more);
    CurrentGrows(levels, xp, more);
    if j == k && k + 1 < |levels| {
      PercentGrows(xp - levels[k].minXp, more - levels[k].minXp, levels[k + 1].minXp - levels[k].minXp);
    }
  }
}
