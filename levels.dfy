/**
 * The level catalogue and its helpers: look a level up by id, count the
 * challenges, unlock the level after a given one, and decide whether the
 * secret level is open. The catalogue is an array whose entries are updated
 * in place.
 */
module Levels {
  import opened Wrappers
  import opened GameTypes

  // ---------------------------------------------------------------------------
  // the catalogue

  const VariablesRule := "All answers must use variables (no hardcoding values)"
  const TerminateRule := "Every loop must terminate (or face the infinite loop animation)"
  const DocstringRule := "Every function must include a docstring and no global variables allowed"
  const TimedRule := "Timed challenges: Fix corrupted code before the system crashes"
  const SortRule := "No built-in sort functions allowed - implement your own"
  const OverrideRule := "Each class must override at least one method"
  const ForLoopsRule := "No for-loops allowed - use functional programming only"
  const ThreadSafeRule := "All operations must be thread-safe"
  const ScratchRule := "Implement algorithms from scratch - no library functions"
  const EncryptedRule := "All data must be encrypted/decrypted using custom algorithms"
  const BiasRule := "AI/ML challenges: Detect bias and adversarial inputs"

  /** A challenge judged by its expected output alone. */
  function Expect(id: string, expected: string): Challenge {
    Challenge(id, Some(expected), None, None)
  }

  /** A level as the catalogue declares it: locked and not completed. */
  function Locked(id: int, challenges: seq<Challenge>, rules: seq<string>, newRules: seq<string>, cyberAttack: bool): GameLevel {
    GameLevel(id, challenges, rules, newRules, false, false, cyberAttack)
  }

  /** The shipped catalogue. */
  const InitialLevels: seq<GameLevel> := [
    GameLevel(0,
      [Expect("practice-1", "Hello, World!"), Expect("practice-2", "42"), Expect("practice-3", "Python is fun!")],
      [], [], true, false, false),
    Locked(1,
      [Expect("noob-1", "25"), Expect("noob-2", "Hello Python"), Expect("noob-3", "Smith, Alice")],
      [], [VariablesRule], false),
    Locked(2,
      [Expect("easy-1", "Too low!"), Expect("easy-2", "1\n2\n3\n4\n5\n6\n7\n8\n9\n10"),
       Expect("easy-3", "2\n4\n6\n8\n10\n12\n14\n16\n18\n20")],
      [VariablesRule], [TerminateRule], false),
    Locked(3,
      [Expect("normal-1", "Weak"), Expect("normal-2", "Number must be positive")],
      [VariablesRule, TerminateRule], [DocstringRule], false),
    Locked(4,
      [Expect("hard-1", "alert()"), Expect("hard-2", "khoor")],
      [VariablesRule, TerminateRule, DocstringRule], [TimedRule], true),
    Locked(5,
      [Expect("veryhard-1", "['racecar', 'level', 'deed']"), Expect("veryhard-2", "[11, 12, 22, 25, 34, 64, 90]")],
      [VariablesRule, TerminateRule, DocstringRule, TimedRule], [SortRule], false),
    Locked(6,
      [Expect("extreme-1", "Withdrawal: 30, Balance: 120")],
      [VariablesRule, TerminateRule, DocstringRule, TimedRule, SortRule], [OverrideRule], false),
    Locked(7,
      [Expect("pro-1", "[4, 16, 36]")],
      [VariablesRule, TerminateRule, DocstringRule, TimedRule, SortRule, OverrideRule], [ForLoopsRule], false),
    Locked(8,
      [Expect("ultrapro-1", "Task manager created")],
      [VariablesRule, TerminateRule, DocstringRule, TimedRule, SortRule, OverrideRule, ForLoopsRule],
      [ThreadSafeRule], false),
    Locked(9,
      [Expect("max-1", "11")],
      [VariablesRule, TerminateRule, DocstringRule, TimedRule, SortRule, OverrideRule, ForLoopsRule,
       ThreadSafeRule],
      [ScratchRule], false),
    Locked(10,
      [Expect("legendary-1", "TOP SECRET")],
      [VariablesRule, TerminateRule, DocstringRule, TimedRule, SortRule, OverrideRule, ForLoopsRule,
       ThreadSafeRule, ScratchRule],
      [EncryptedRule], false),
    Locked(11,
      [Expect("godmode-1", "Bias detected: 0.50\nCorrected decisions: [1, 1, 1, 1, 0, 0, 0, 0]")],
      [VariablesRule, TerminateRule, DocstringRule, TimedRule, SortRule, OverrideRule, ForLoopsRule,
       ThreadSafeRule, ScratchRule, EncryptedRule],
      [BiasRule], false)
  ]

  /** The shape the game relies on: at least one level, the entry at index i
      has id i, and every level has a challenge. */
  ghost predicate WellFormed(levels: seq<GameLevel>) {
    |levels| > 0 && forall i :: 0 <= i < |levels| ==> levels[i].id == i && |levels[i].challenges| > 0
  }

  lemma InitialLevelsWellFormed()
    ensures WellFormed(InitialLevels) && |InitialLevels| == 12
  {
  }

  /** Each level's rules are the previous level's rules followed by the
      previous level's new rules, and level 0 starts with none. */
  lemma InitialRulesAccumulate()
    ensures InitialLevels[0].rules == []
    ensures forall i :: 0 <= i < 11 ==> InitialLevels[i + 1].rules == InitialLevels[i].rules + InitialLevels[i].newRules
  {
    forall i | 0 <= i < 11
      ensures InitialLevels[i + 1].rules == InitialLevels[i].rules + InitialLevels[i].newRules
    {
      var ls := InitialLevels;
      if i == 0 { assert ls[1].rules == [] + []; }
      else if i == 1 { assert ls[2].rules == [] + [VariablesRule]; }
      else if i == 2 { assert ls[3].rules == [VariablesRule] + [TerminateRule]; }
      else if i == 3 { assert ls[4].rules == [VariablesRule, TerminateRule] + [DocstringRule]; }
      else if i == 4 { assert ls[5].rules == [VariablesRule, TerminateRule, DocstringRule] + [TimedRule]; }
      else if i == 5 { assert ls[6].rules == ls[5].rules + [SortRule]; }
      else if i == 6 { assert ls[7].rules == ls[6].rules + [OverrideRule]; }
      else if i == 7 { assert ls[8].rules == ls[7].rules + [ForLoopsRule]; }
      else if i == 8 { assert ls[9].rules == ls[8].rules + [ThreadSafeRule]; }
      else if i == 9 { assert ls[10].rules == ls[9].rules + [ScratchRule]; }
      else { assert ls[11].rules == ls[10].rules + [EncryptedRule]; }
    }
  }

  /** Initially only level 0 is unlocked, no level is completed, and only
      level 4 carries a cyber attack. */
  lemma InitialFlags()
    ensures forall i :: 0 <= i < |InitialLevels| ==> (InitialLevels[i].unlocked <==> i == 0)
    ensures forall i :: 0 <= i < |InitialLevels| ==> !InitialLevels[i].completed
    ensures forall i :: 0 <= i < |InitialLevels| ==> (InitialLevels[i].cyberAttack <==> i == 4)
  {
  }

  // ---------------------------------------------------------------------------
  // getLevel

  /** The index of the first level with the given id. */
  function IndexOfLevel(levels: seq<GameLevel>, id: int): (r: Option<nat>)
    ensures r.Some? ==> r.value < |levels| && levels[r.value].id == id
    ensures r.Some? ==> forall j :: 0 <= j < r.value ==> levels[j].id != id
    ensures r.None? ==> forall j :: 0 <= j < |levels| ==> levels[j].id != id
  {
    if levels == [] then None
    else if levels[0].id == id then Some(0)
    else
      match IndexOfLevel(levels[1..], id)
      case None => None
      case Some(k) => Some(k + 1)
  }

  /** getLevel(levelId): gameLevels.find(level => level.id === levelId). */
  function GetLevel(levels: seq<GameLevel>, id: int): (r: Option<GameLevel>)
    ensures r.Some? <==> exists j :: 0 <= j < |levels| && levels[j].id == id
    ensures r.Some? ==> r.value.id == id && r.value == levels[IndexOfLevel(levels, id).value]
  {
    match IndexOfLevel(levels, id)
    case None => None
    case Some(k) => Some(levels[k])
  }

  /** With ids equal to indices, the level with id i is the entry at i. */
  lemma GetLevelAtIndex(levels: seq<GameLevel>, i: int)
    requires WellFormed(levels) && 0 <= i < |levels|
    ensures IndexOfLevel(levels, i) == Some(i as nat) && GetLevel(levels, i) == Some(levels[i])
  {
    FirstMatch(levels, i, i);
  }

  // ---------------------------------------------------------------------------
  // getTotalChallenges

  /** The sum of the challenge counts. */
  function TotalChallenges(levels: seq<GameLevel>): (n: nat)
    ensures levels != [] ==> n >= |levels[0].challenges|
  {
    if levels == [] then 0 else |levels[0].challenges| + TotalChallenges(levels[1..])
  }

  /** The count of a catalogue is the sum of the counts of its two halves. */
  lemma {:induction false} TotalChallengesAppend(a: seq<GameLevel>, b: seq<GameLevel>)
    ensures TotalChallenges(a + b) == TotalChallenges(a) + TotalChallenges(b)
  {
    if a == [] {
      assert a + b == b;
    } else {
      assert (a + b)[1..] == a[1..] + b;
      TotalChallengesAppend(a[1..], b);
    }
  }

  /** Flags do not change the count. */
  lemma {:induction false} TotalChallengesIgnoresFlags(a: seq<GameLevel>, b: seq<GameLevel>)
    requires |a| == |b| && forall i :: 0 <= i < |a| ==> a[i].challenges == b[i].challenges
    ensures TotalChallenges(a) == TotalChallenges(b)
  {
    if a != [] {
      TotalChallengesIgnoresFlags(a[1..], b[1..]);
    }
  }

  /** The shipped catalogue has 21 challenges. */
  lemma InitialTotal()
    ensures TotalChallenges(InitialLevels) == 21
  {
    var ls := InitialLevels;
    InitialTotalMiddle();
    TotalChallengesStep(ls, 2);
    TotalChallengesStep(ls, 1);
    TotalChallengesStep(ls, 0);
    assert ls[0..] == ls;
  }

  /** Levels 3 to 5 hold two challenges each. */
  lemma InitialTotalMiddle()
    ensures TotalChallenges(InitialLevels[3..]) == 12
  {
    var ls := InitialLevels;
    InitialTotalTail();
    TotalChallengesStep(ls, 5);
    TotalChallengesStep(ls, 4);
    TotalChallengesStep(ls, 3);
  }

  /** Levels 6 to 11 hold one challenge each. */
  lemma InitialTotalTail()
    ensures TotalChallenges(InitialLevels[6..]) == 6
  {
    var ls := InitialLevels;
    assert ls[12..] == [];
    TotalChallengesStep(ls, 11);
    TotalChallengesStep(ls, 10);
    TotalChallengesStep(ls, 9);
    TotalChallengesStep(ls, 8);
    TotalChallengesStep(ls, 7);
    TotalChallengesStep(ls, 6);
  }

  lemma TotalChallengesStep(levels: seq<GameLevel>, k: nat)
    requires k < |levels|
    ensures TotalChallenges(levels[k..]) == |levels[k].challenges| + TotalChallenges(levels[k + 1..])
  {
    assert levels[k..][1..] == levels[k + 1..];
  }

  // ---------------------------------------------------------------------------
  // isSecretLevelUnlocked

  /** isSecretLevelUnlocked: every entry of gameLevels.slice(0, 11) is completed. */
  predicate IsSecretLevelUnlocked(levels: seq<GameLevel>) {
    forall i :: 0 <= i < |levels| && i < 11 ==> levels[i].completed
  }

  /** The secret level's own entry, and every entry after it, has no say. */
  lemma SecretIgnoresLaterLevels(levels: seq<GameLevel>, k: nat, level: GameLevel)
    requires 11 <= k < |levels|
    ensures IsSecretLevelUnlocked(levels[k := level]) == IsSecretLevelUnlocked(levels)
  {
    assert forall i :: 0 <= i < 11 ==> levels[k := level][i] == levels[i];
  }

  /** Completing one more of the first eleven entries can only open the
      secret level, never close it. */
  lemma SecretMonotone(levels: seq<GameLevel>, k: nat)
    requires k < |levels| && IsSecretLevelUnlocked(levels)
    ensures IsSecretLevelUnlocked(levels[k := levels[k].(completed := true)])
  {
  }

  /** The shipped catalogue keeps the secret level shut. */
  lemma InitialSecretLocked()
    ensures !IsSecretLevelUnlocked(InitialLevels)
  {
    assert !InitialLevels[0].completed;
  }

  // ---------------------------------------------------------------------------
  // unlockNextLevel

  /** The catalogue after the first level with the given id is unlocked. */
  function Unlock(levels: seq<GameLevel>, id: int): (r: seq<GameLevel>)
    ensures |r| == |levels|
    ensures IndexOfLevel(levels, id).None? ==> r == levels
    ensures IndexOfLevel(levels, id).Some? ==>
      var k := IndexOfLevel(levels, id).value;
      r[k].unlocked && r[k].(unlocked := levels[k].unlocked) == levels[k]
      && forall j :: 0 <= j < |levels| && j != k ==> r[j] == levels[j]
  {
    match IndexOfLevel(levels, id)
    case None => levels
    case Some(k) => levels[k := levels[k].(unlocked := true)]
  }

  /** Unlocking never locks, completes or reorders anything. */
  lemma UnlockKeepsShape(levels: seq<GameLevel>, id: int)
    ensures WellFormed(levels) ==> WellFormed(Unlock(levels, id))
    ensures IsSecretLevelUnlocked(Unlock(levels, id)) == IsSecretLevelUnlocked(levels)
    ensures TotalChallenges(Unlock(levels, id)) == TotalChallenges(levels)
  {
    var r := Unlock(levels, id);
    TotalChallengesIgnoresFlags(r, levels);
    if IndexOfLevel(levels, id).Some? {
      var k := IndexOfLevel(levels, id).value;
      assert forall j :: 0 <= j < |levels| ==> r[j].completed == levels[j].completed && r[j].id == levels[j].id;
    }
  }

  /** gameLevels: the shared catalogue whose entries are updated in place. */
  class Catalogue {
    const levels: array<GameLevel>

    constructor()
      ensures levels[..] == InitialLevels
      ensures fresh(levels)
    {
      levels := new GameLevel[12](i requires 0 <= i < 12 => InitialLevels[i]);
    }

    /** The index of the first level with the given id, found by a linear search. */
    static method Find(levels: array<GameLevel>, id: int) returns (r: Option<nat>)
      ensures r == IndexOfLevel(levels[..], id)
    {
      var i := 0;
      while i < levels.Length
        invariant 0 <= i <= levels.Length
        invariant forall j :: 0 <= j < i ==> levels[j].id != id
      {
        if levels[i].id == id {
          FirstMatch(levels[..], id, i);
          return Some(i);
        }
        i := i + 1;
      }
      NoMatch(levels[..], id);
      return None;
    }

    /** unlockNextLevel(currentLevelId): the level with id currentLevelId + 1,
        if any, becomes unlocked; nothing else changes. */
    method UnlockNextLevel(currentLevelId: int)
      modifies levels
      ensures levels[..] == Unlock(old(levels[..]), currentLevelId + 1)
    {
      var k := Find(levels, currentLevelId + 1);
      if k.Some? {
        levels[k.value] := levels[k.value].(unlocked := true);
      }
    }
  }

  lemma FirstMatch(levels: seq<GameLevel>, id: int, i: nat)
    requires i < |levels| && levels[i].id == id
    requires forall j :: 0 <= j < i ==> levels[j].id != id
    ensures IndexOfLevel(levels, id) == Some(i)
  {
  }

  lemma NoMatch(levels: seq<GameLevel>, id: int)
    requires forall j :: 0 <= j < |levels| ==> levels[j].id != id
    ensures IndexOfLevel(levels, id) == None
  {
  }
}
