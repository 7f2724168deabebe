/**
 * The game-state hook: the initial state, the record updates behind addScore,
 * loseLife, triggerHack, setLevel and the timer tick, and nextChallenge, which
 * also completes and unlocks entries of the shared catalogue in place.
 */
module GameStateHook {
  import opened Wrappers
  import opened GameTypes
  import opened Levels

  /** initialGameState. */
  const InitialGameState := GameState(0, 0, [], 0, 3, [], "", false, false, true, [], None)

  /** A state the game can be in over a catalogue: the current level is an
      entry, the current challenge is one of its challenges, lives are not
      negative. */
  ghost predicate ValidState(st: GameState, levels: seq<GameLevel>) {
    WellFormed(levels)
    && 0 <= st.currentLevel < |levels|
    && 0 <= st.currentChallenge < |levels[st.currentLevel].challenges|
    && st.lives >= 0
  }

  /** The rules in force at a level: the rules carried over from earlier
      levels followed by the rules the level introduces. */
  ghost predicate RulesInForce(st: GameState, levels: seq<GameLevel>)
    requires 0 <= st.currentLevel < |levels|
  {
    st.activeRules == levels[st.currentLevel].rules + levels[st.currentLevel].newRules
  }

  /** Each level carries over exactly the rules in force at the level before. */
  ghost predicate RulesCarryOver(levels: seq<GameLevel>) {
    forall i :: 0 <= i < |levels| - 1 ==> levels[i + 1].rules == levels[i].rules + levels[i].newRules
  }

  /** The initial state is a valid state of the shipped catalogue with the
      rules of level 0 in force. */
  lemma InitialStateValid()
    ensures ValidState(InitialGameState, InitialLevels)
    ensures RulesInForce(InitialGameState, InitialLevels)
    ensures RulesCarryOver(InitialLevels)
  {
    InitialLevelsWellFormed();
    InitialRulesAccumulate();
  }

  function Max(a: int, b: int): int {
    if a < b then b else a
  }

  // ---------------------------------------------------------------------------
  // addScore, loseLife, triggerHack

  /** addScore(points). */
  function AddScore(st: GameState, points: int): (r: GameState)
    ensures r.score == st.score + points
    ensures r.(score := st.score) == st
  {
    st.(score := st.score + points)
  }

  /** Two awards add up. */
  lemma AddScoreTwice(st: GameState, a: int, b: int)
    ensures AddScore(AddScore(st, a), b) == AddScore(st, a + b)
  {
  }

  /** loseLife(): one life fewer but never below zero, and the perfect score
      is gone. */
  function LoseLife(st: GameState): (r: GameState)
    ensures r.lives == Max(0, st.lives - 1) && r.lives >= 0
    ensures !r.perfectScore
    ensures r.(lives := st.lives, perfectScore := st.perfectScore) == st
  {
    st.(lives := Max(0, st.lives - 1), perfectScore := false)
  }

  /** n lives lost in a row. */
  function LoseLives(st: GameState, n: nat): GameState {
    if n == 0 then st else LoseLife(LoseLives(st, n - 1))
  }

  /** After n losses a non-negative count has dropped by n, down to zero. */
  lemma {:induction false} LivesAfterLosses(st: GameState, n: nat)
    requires st.lives >= 0
    ensures LoseLives(st, n).lives == Max(0, st.lives - n)
    ensures n > 0 ==> !LoseLives(st, n).perfectScore
  {
    if n > 0 {
      LivesAfterLosses(st, n - 1);
    }
  }

  /** triggerHack(): hacked and glitching at once. Switching the glitch off
      three seconds later is a timer and is not part of this update. */
  function TriggerHack(st: GameState): (r: GameState)
    ensures r.isHacked && r.glitchMode
    ensures r.(isHacked := st.isHacked, glitchMode := st.glitchMode) == st
  {
    st.(isHacked := true, glitchMode := true)
  }

  // ---------------------------------------------------------------------------
  // the timer

  /** The first update of startTimer(seconds). */
  function StartTimer(st: GameState, seconds: int): (r: GameState)
    ensures r.timeRemaining == Some(seconds)
    ensures r.(timeRemaining := st.timeRemaining) == st
  {
    st.(timeRemaining := Some(seconds))
  }

  /** One tick of the interval: a positive time goes down by one; reaching
      zero queues triggerHack and loseLife, which apply after the tick in that
      order; zero, a negative time or no time is left as it is. */
  function Tick(st: GameState): (r: GameState)
    ensures (st.timeRemaining.None? || st.timeRemaining.value <= 0) ==> r == st
    ensures st.timeRemaining.Some? && st.timeRemaining.value > 1 ==>
      r == st.(timeRemaining := Some(st.timeRemaining.value - 1))
    ensures st.timeRemaining == Some(1) ==>
      r.timeRemaining == Some(0) && r.isHacked && r.glitchMode && !r.perfectScore
      && r.lives == Max(0, st.lives - 1) && r.score == st.score && r.currentLevel == st.currentLevel
  {
    match st.timeRemaining
    case None => st
    case Some(t) =>
      if t > 0 then
        var next := st.(timeRemaining := Some(t - 1));
        if t - 1 == 0 then LoseLife(TriggerHack(next)) else next
      else st
  }

  /** n ticks in a row. */
  function Ticks(st: GameState, n: nat): GameState {
    if n == 0 then st else Tick(Ticks(st, n - 1))
  }

  lemma {:induction false} TicksBeforeZero(st: GameState, t: int, k: nat)
    requires st.timeRemaining == Some(t) && k < t
    ensures Ticks(st, k) == st.(timeRemaining := Some(t - k))
  {
    if k > 0 {
      TicksBeforeZero(st, t, k - 1);
    }
  }

  /** A countdown of n seconds ends after n ticks at zero with the player
      hacked and one life lost, and later ticks change nothing. */
  lemma {:induction false} CountdownExpires(st: GameState, n: nat, extra: nat)
    requires n > 0 && st.timeRemaining == Some(n)
    ensures Ticks(st, n).timeRemaining == Some(0)
    ensures Ticks(st, n).isHacked && !Ticks(st, n).perfectScore
    ensures Ticks(st, n).lives == Max(0, st.lives - 1)
    ensures Ticks(st, n + extra) == Ticks(st, n)
    decreases extra
  {
    TicksBeforeZero(st, n, n - 1);
    if extra > 0 {
      CountdownExpires(st, n, extra - 1);
    }
  }

  // ---------------------------------------------------------------------------
  // setLevel

  /** The time limit of a level's first challenge, if it has one. */
  function FirstTimeLimit(level: GameLevel): Option<int> {
    if |level.challenges| > 0 then level.challenges[0].timeLimit else None
  }

  /** The levels setLevel lets the player into: an existing, unlocked level,
      and the secret level 11 only once the first eleven are completed. */
  predicate MayEnter(levels: seq<GameLevel>, levelId: int) {
    GetLevel(levels, levelId).Some? && GetLevel(levels, levelId).value.unlocked
    && (levelId == 11 ==> IsSecretLevelUnlocked(levels))
  }

  /** setLevel(levelId) as written: the level's carried-over rules become
      the active rules. */
  function SetLevelState(st: GameState, levels: seq<GameLevel>, levelId: int): (r: GameState)
    ensures !MayEnter(levels, levelId) ==> r == st
    ensures MayEnter(levels, levelId) ==>
      var level := GetLevel(levels, levelId).value;
      r.currentLevel == levelId && r.currentChallenge == 0 && r.activeRules == level.rules
      && r.isHacked == level.cyberAttack && r.glitchMode == level.cyberAttack
      && r.timeRemaining == FirstTimeLimit(level)
    ensures r.score == st.score && r.lives == st.lives && r.perfectScore == st.perfectScore
      && r.completedLevels == st.completedLevels
      && r.achievements == st.achievements && r.playerCode == st.playerCode
  {
    if !MayEnter(levels, levelId) then st
    else
      var level := GetLevel(levels, levelId).value;
      st.(currentLevel := levelId, currentChallenge := 0, activeRules := level.rules,
          isHacked := level.cyberAttack, glitchMode := level.cyberAttack,
          timeRemaining := FirstTimeLimit(level))
  }

  /** Entering level 1 through setLevel, once it is unlocked, leaves its own
      rule (use variables) inactive, although nextChallenge activates it when
      the player arrives from level 0. */
  lemma SetLevelDropsNewRules()
    ensures var levels := Unlock(InitialLevels, 1);
      MayEnter(levels, 1)
      && SetLevelState(InitialGameState, levels, 1).activeRules == []
      && levels[1].newRules == [VariablesRule]
      && !RulesInForce(SetLevelState(InitialGameState, levels, 1), levels)
  {
    var levels := Unlock(InitialLevels, 1);
    InitialLevelsWellFormed();
    GetLevelAtIndex(InitialLevels, 1);
    GetLevelAtIndex(levels, 1);
    assert levels[1].newRules == [VariablesRule];
    assert levels[1].rules + levels[1].newRules == [VariablesRule];
  }

  /** setLevel with the level's own rules added to the carried-over ones, as
      nextChallenge does on arrival. */
  function SetLevelWithNewRules(st: GameState, levels: seq<GameLevel>, levelId: int): (r: GameState)
    ensures !MayEnter(levels, levelId) ==> r == st
    ensures MayEnter(levels, levelId) ==>
      var level := GetLevel(levels, levelId).value;
      r.currentLevel == levelId && r.currentChallenge == 0
      && r.activeRules == level.rules + level.newRules
      && r == SetLevelState(st, levels, levelId).(activeRules := r.activeRules)
  {
    var r := SetLevelState(st, levels, levelId);
    if !MayEnter(levels, levelId) then r
    else r.(activeRules := GetLevel(levels, levelId).value.rules + GetLevel(levels, levelId).value.newRules)
  }

  /** Entering a level through setLevel as written keeps the state valid; the
      rules in force then hold only for a level that introduces no rule. */
  lemma SetLevelValid(st: GameState, levels: seq<GameLevel>, levelId: int)
    requires ValidState(st, levels)
    ensures ValidState(SetLevelState(st, levels, levelId), levels)
    ensures MayEnter(levels, levelId) ==>
      (RulesInForce(SetLevelState(st, levels, levelId), levels)
       <==> GetLevel(levels, levelId).value.newRules == [])
  {
    if MayEnter(levels, levelId) {
      var k := IndexOfLevel(levels, levelId).value;
      GetLevelAtIndex(levels, k);
      var level := levels[k];
      assert level.rules + level.newRules == level.rules <==> level.newRules == [] by {
        if level.rules + level.newRules == level.rules {
          assert |level.newRules| == 0;
        }
      }
    }
  }

  /** Entering a level through the corrected setLevel keeps the state valid
      and puts exactly that level's rules in force. */
  lemma SetLevelWithNewRulesValid(st: GameState, levels: seq<GameLevel>, levelId: int)
    requires ValidState(st, levels) && RulesInForce(st, levels)
    ensures ValidState(SetLevelWithNewRules(st, levels, levelId), levels)
    ensures RulesInForce(SetLevelWithNewRules(st, levels, levelId), levels)
  {
    if MayEnter(levels, levelId) {
      var k := IndexOfLevel(levels, levelId).value;
      GetLevelAtIndex(levels, k);
    }
  }

  // ---------------------------------------------------------------------------
  // the hook's state and nextChallenge

  /** The hook's state over the shared catalogue. */
  class Game {
    var state: GameState
    const levels: array<GameLevel>

    /** The state is one the game can be in, over a catalogue whose rules
        carry over from level to level. Whether the active rules are those of
        the current level is not part of it: setLevel as written breaks that
        (see SetLevelDropsNewRules). */
    ghost predicate Valid()
      reads this, levels
    {
      ValidState(state, levels[..]) && RulesCarryOver(levels[..])
    }

    /** The hook starts from the initial state over the shared catalogue,
        whose flags may already differ from the shipped ones (the app unlocks
        level 1 before the hook exists). */
    constructor(catalogue: array<GameLevel>)
      requires FlagsOnly(InitialLevels, catalogue[..])
      ensures levels == catalogue && state == InitialGameState
      ensures Valid() && RulesInForce(state, levels[..])
    {
      levels := catalogue;
      state := InitialGameState;
      InitialStateValid();
      FlagsOnlyKeepShape(InitialLevels, catalogue[..]);
      FlagsOnlyKeepsLevel(InitialLevels, catalogue[..], 0);
    }

    /** setLevel(levelId) as written: the level's carried-over rules become
        the active rules, without its own new rules. */
    method SetLevel(levelId: int)
      requires Valid()
      modifies this
      ensures Valid()
      ensures state == SetLevelState(old(state), levels[..], levelId)
    {
      SetLevelValid(state, levels[..], levelId);
      state := SetLevelState(state, levels[..], levelId);
    }

    /** nextChallenge(): the next challenge of the level, or, after its last
        one, the level is completed (see CompleteLevel). */
    method NextChallenge()
      requires Valid()
      modifies this, levels
      ensures Valid()
      ensures old(RulesInForce(state, levels[..])) ==> RulesInForce(state, levels[..])
      ensures OnLastChallenge(old(state), old(levels[..])) ==>
        levels[..] == CompletedCatalogue(old(levels[..]), old(state.currentLevel))
        && state == AfterLevel(old(state), old(levels[..]))
      ensures !OnLastChallenge(old(state), old(levels[..])) ==>
        var s, ls := old(state), old(levels[..]);
        levels[..] == ls
        && state == s.(currentChallenge := s.currentChallenge + 1,
                       timeRemaining := ls[s.currentLevel].challenges[s.currentChallenge + 1].timeLimit)
    {
      var found := Catalogue.Find(levels, state.currentLevel);
      GetLevelAtIndex(levels[..], state.currentLevel);
      var level := levels[found.value];
      if state.currentChallenge < |level.challenges| - 1 {
        var nextIndex := state.currentChallenge + 1;
        state := state.(currentChallenge := nextIndex, timeRemaining := level.challenges[nextIndex].timeLimit);
      } else {
        CompleteLevel();
      }
    }

    /** The else branch of nextChallenge: the current level is marked
        completed; the next level, when there is one, is unlocked (level 11
        with no secret check) and entered with a 1000-point bonus and its
        rules added; after the last level a 5000-point bonus is added. */
    method CompleteLevel()
      requires Valid() && OnLastChallenge(state, levels[..])
      modifies this, levels
      ensures Valid()
      ensures old(RulesInForce(state, levels[..])) ==> RulesInForce(state, levels[..])
      ensures levels[..] == CompletedCatalogue(old(levels[..]), old(state.currentLevel))
      ensures state == AfterLevel(old(state), old(levels[..]))
    {
      var cur := state.currentLevel;
      var nextLevelId := state.currentLevel + 1;
      var completedLevels := state.completedLevels + [state.currentLevel];
      ghost var ls, s := levels[..], state;
      AfterLevelValid(s, ls);
      levels[cur] := levels[cur].(completed := true);
      if nextLevelId < levels.Length {
        levels[nextLevelId] := levels[nextLevelId].(unlocked := true);
        if nextLevelId == 11 {
          var open := SecretOpen(levels);
          if open {
            levels[11] := levels[11].(unlocked := true);
          }
        }
        var nextLevel := levels[nextLevelId];
        state := state.(score := state.score + 1000, currentLevel := nextLevelId, currentChallenge := 0,
                        activeRules := state.activeRules + nextLevel.newRules,
                        isHacked := nextLevel.cyberAttack, glitchMode := nextLevel.cyberAttack,
                        completedLevels := completedLevels, timeRemaining := FirstTimeLimit(nextLevel));
      } else {
        state := state.(completedLevels := completedLevels, score := state.score + 5000);
      }
      assert levels[..] == CompletedCatalogue(ls, cur);
    }
  }

  /** The player is on the last challenge of the current level. */
  ghost predicate OnLastChallenge(st: GameState, levels: seq<GameLevel>)
    requires 0 <= st.currentLevel < |levels|
  {
    st.currentChallenge >= |levels[st.currentLevel].challenges| - 1
  }

  /** The catalogue after level cur is completed: that level is marked
      completed and the next one, when there is one, unlocked. */
  function CompletedCatalogue(ls: seq<GameLevel>, cur: int): (r: seq<GameLevel>)
    requires 0 <= cur < |ls|
    ensures FlagsOnly(ls, r)
    ensures r[cur] == ls[cur].(completed := true)
    ensures cur + 1 < |ls| ==> r[cur + 1] == ls[cur + 1].(unlocked := true)
    ensures forall i :: 0 <= i < |ls| && i != cur && i != cur + 1 ==> r[i] == ls[i]
  {
    var a := ls[cur := ls[cur].(completed := true)];
    if cur + 1 < |ls| then a[cur + 1 := a[cur + 1].(unlocked := true)] else a
  }

  /** The player's state after the current level is completed: the next
      level is entered with a 1000-point bonus, its new rules added to those
      in force, its first challenge's time limit and its attack flags; after
      the last level only a 5000-point bonus is added. */
  function AfterLevel(s: GameState, ls: seq<GameLevel>): (r: GameState)
    requires 0 <= s.currentLevel < |ls|
    ensures r.completedLevels == s.completedLevels + [s.currentLevel]
    ensures r.lives == s.lives && r.perfectScore == s.perfectScore
      && r.achievements == s.achievements && r.playerCode == s.playerCode
    ensures s.currentLevel + 1 < |ls| ==>
      var next := ls[s.currentLevel + 1];
      r.score == s.score + 1000 && r.currentLevel == s.currentLevel + 1 && r.currentChallenge == 0
      && r.activeRules == s.activeRules + next.newRules
      && r.isHacked == next.cyberAttack && r.glitchMode == next.cyberAttack
      && r.timeRemaining == FirstTimeLimit(next)
    ensures s.currentLevel + 1 == |ls| ==>
      r == s.(completedLevels := r.completedLevels, score := s.score + 5000)
  {
    var cur := s.currentLevel;
    if cur + 1 < |ls| then
      s.(score := s.score + 1000, currentLevel := cur + 1, currentChallenge := 0,
         activeRules := s.activeRules + ls[cur + 1].newRules,
         isHacked := ls[cur + 1].cyberAttack, glitchMode := ls[cur + 1].cyberAttack,
         completedLevels := s.completedLevels + [cur],
         timeRemaining := FirstTimeLimit(ls[cur + 1]))
    else
      s.(completedLevels := s.completedLevels + [cur], score := s.score + 5000)
  }

  /** Completing a level keeps the state valid and, when the rules chain
      carries over and the current level's rules were in force, puts exactly
      the next level's rules in force. */
  lemma AfterLevelValid(s: GameState, ls: seq<GameLevel>)
    requires ValidState(s, ls) && RulesCarryOver(ls)
    ensures ValidState(AfterLevel(s, ls), CompletedCatalogue(ls, s.currentLevel))
    ensures RulesInForce(s, ls) ==> RulesInForce(AfterLevel(s, ls), CompletedCatalogue(ls, s.currentLevel))
    ensures RulesCarryOver(CompletedCatalogue(ls, s.currentLevel))
  {
    var ls1 := CompletedCatalogue(ls, s.currentLevel);
    FlagsOnlyKeepShape(ls, ls1);
    FlagsOnlyKeepsLevel(ls, ls1, s.currentLevel);
    if s.currentLevel + 1 < |ls| {
      FlagsOnlyKeepsLevel(ls, ls1, s.currentLevel + 1);
    }
  }

  /** Two catalogues that differ at most in their unlocked and completed flags. */
  ghost predicate FlagsOnly(a: seq<GameLevel>, b: seq<GameLevel>) {
    |a| == |b|
    && forall i :: 0 <= i < |a| ==>
      a[i].(unlocked := b[i].unlocked, completed := b[i].completed) == b[i]
  }

  /** Unlocking a level changes only flags, so the catalogue the app has at
      load time, with level 1 unlocked, is one the hook can start from. */
  lemma UnlockOnlyFlags(levels: seq<GameLevel>, id: int)
    ensures FlagsOnly(levels, Unlock(levels, id))
  {
    var r := Unlock(levels, id);
    forall i | 0 <= i < |levels|
      ensures levels[i].(unlocked := r[i].unlocked, completed := r[i].completed) == r[i]
    {
      if IndexOfLevel(levels, id).Some? && i == IndexOfLevel(levels, id).value {
        assert r[i].(unlocked := levels[i].unlocked) == levels[i];
      }
    }
  }

  /** Flags aside, each level is the same. */
  lemma FlagsOnlyKeepsLevel(a: seq<GameLevel>, b: seq<GameLevel>, i: int)
    requires FlagsOnly(a, b) && 0 <= i < |a|
    ensures a[i].id == b[i].id && a[i].rules == b[i].rules && a[i].newRules == b[i].newRules
    ensures a[i].challenges == b[i].challenges && a[i].cyberAttack == b[i].cyberAttack
  {
    assert a[i].(unlocked := b[i].unlocked, completed := b[i].completed) == b[i];
  }

  /** Changing flags keeps the catalogue's shape and its rule chain. */
  lemma FlagsOnlyKeepShape(a: seq<GameLevel>, b: seq<GameLevel>)
    requires FlagsOnly(a, b)
    ensures WellFormed(a) ==> WellFormed(b)
    ensures RulesCarryOver(a) ==> RulesCarryOver(b)
  {
    forall i | 0 <= i < |a|
      ensures a[i].id == b[i].id && a[i].rules == b[i].rules
      ensures a[i].newRules == b[i].newRules && a[i].challenges == b[i].challenges
    {
      FlagsOnlyKeepsLevel(a, b, i);
    }
  }

  /** isSecretLevelUnlocked() on the catalogue array. */
  method SecretOpen(levels: array<GameLevel>) returns (b: bool)
    ensures b == IsSecretLevelUnlocked(levels[..])
  {
    var i := 0;
    while i < levels.Length && i < 11
      invariant 0 <= i <= levels.Length
      invariant forall j :: 0 <= j < i && j < 11 ==> levels[j].completed
    {
      if !levels[i].completed {
        return false;
      }
      i := i + 1;
    }
    return true;
  }
}
