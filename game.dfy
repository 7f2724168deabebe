/**
 * The records the game is built from, keeping the fields that the evaluator,
 * the catalogue helpers and the state updates read. Display texts (names,
 * titles, descriptions, starter code, solutions, hints) are not kept.
 */
module GameTypes {
  import opened Wrappers

  /** One input/expected-output pair of a challenge. */
  datatype TestCase = TestCase(input: string, expectedOutput: string, description: string)

  /** A challenge: an optional expected output, optional test cases and an
      optional time limit in seconds. */
  datatype Challenge = Challenge(id: string, expectedOutput: Option<string>, testCases: Option<seq<TestCase>>, timeLimit: Option<int>)

  /** A level of the catalogue. A missing cyberAttack flag reads as false. */
  datatype GameLevel = GameLevel(
    id: int,
    challenges: seq<Challenge>,
    rules: seq<string>,
    newRules: seq<string>,
    unlocked: bool,
    completed: bool,
    cyberAttack: bool)

  /** The player's progress. A missing timeRemaining is None. */
  datatype GameState = GameState(
    currentLevel: int,
    currentChallenge: int,
    activeRules: seq<string>,
    score: int,
    lives: int,
    achievements: seq<string>,
    playerCode: string,
    isHacked: bool,
    glitchMode: bool,
    perfectScore: bool,
    completedLevels: seq<int>,
    timeRemaining: Option<int>)
}
