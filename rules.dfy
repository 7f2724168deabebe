/**
 * The rule linter: each active rule string is tested against ten keyword
 * conditions, and each condition that holds runs one predicate on the raw
 * program text; every predicate that holds adds its violation message.
 * Nothing here parses the program: the predicates are substring searches and
 * two hand-written regular expressions.
 */
module RuleLinter {
  import opened JsText
  import opened Headers
  import Levels

  // ---------------------------------------------------------------------------
  // the hardcoding regular expressions
  //
  //   /print\(\s*\d+\s*\)/           a number printed directly
  //   /print\(\s*["'][^"']*["']\s*\)/  a quoted string printed directly
  //
  // Each greedy class is followed by a character outside it, so the leftmost
  // match is found by skipping runs.

  /** The end of the run of \d characters starting at j. */
  function SkipDigits(s: string, j: nat): (r: nat)
    requires j <= |s|
    ensures j <= r <= |s|
    ensures forall k :: j <= k < r ==> IsDigit(s[k])
    ensures r == |s| || !IsDigit(s[r])
    decreases |s| - j
  {
    if j < |s| && IsDigit(s[j]) then SkipDigits(s, j + 1) else j
  }

  predicate IsQuote(c: char) {
    c == '"' || c == '\''
  }

  /** The end of the run of [^"'] characters starting at j. */
  function SkipNonQuotes(s: string, j: nat): (r: nat)
    requires j <= |s|
    ensures j <= r <= |s|
    ensures forall k :: j <= k < r ==> !IsQuote(s[k])
    ensures r == |s| || IsQuote(s[r])
    decreases |s| - j
  {
    if j < |s| && !IsQuote(s[j]) then SkipNonQuotes(s, j + 1) else j
  }

  /** \s*\) matches at j. */
  predicate ClosesAt(s: string, j: nat)
    requires j <= |s|
  {
    SkipSpaces(s, j) < |s| && s[SkipSpaces(s, j)] == ')'
  }

  /** The number pattern matches at i. */
  predicate PrintNumberAt(s: string, i: nat) {
    OccursAt(s, "print(", i)
    && var a := SkipSpaces(s, i + 6);
       var b := SkipDigits(s, a);
       a < b && ClosesAt(s, b)
  }

  /** The string pattern matches at i. */
  predicate PrintStringAt(s: string, i: nat) {
    OccursAt(s, "print(", i)
    && var a := SkipSpaces(s, i + 6);
       a < |s| && IsQuote(s[a])
       && var b := SkipNonQuotes(s, a + 1);
          b < |s| && ClosesAt(s, b + 1)
  }

  predicate AllIn(s: string, lo: int, hi: int, p: char -> bool)
    requires 0 <= lo <= hi <= |s|
  {
    forall k :: lo <= k < hi ==> p(s[k])
  }

  /** One way the number pattern can match at i: spaces up to a, digits
      up to b, spaces up to c and ")" at c. */
  predicate NumberSplit(s: string, i: nat, a: int, b: int, c: int) {
    i + 6 <= a < b <= c < |s|
    && AllIn(s, i + 6, a, IsSpace) && AllIn(s, a, b, IsDigit) && AllIn(s, b, c, IsSpace) && s[c] == ')'
  }

  /** One way the string pattern can match at i: spaces up to a, a quote at
      a, non-quotes up to b, a quote at b, spaces up to c and ")" at c. The
      two quotes need not be the same character. */
  predicate StringSplit(s: string, i: nat, a: int, b: int, c: int) {
    i + 6 <= a < b < c < |s|
    && AllIn(s, i + 6, a, IsSpace) && IsQuote(s[a]) && AllIn(s, a + 1, b, NotQuote) && IsQuote(s[b])
    && AllIn(s, b + 1, c, IsSpace) && s[c] == ')'
  }

  /** The number pattern matches at i exactly when the regular expression,
      trying every split, finds one. */
  lemma PrintNumberRegex(s: string, i: nat)
    ensures PrintNumberAt(s, i) <==> OccursAt(s, "print(", i) && exists a, b, c :: NumberSplit(s, i, a, b, c)
  {
    if PrintNumberAt(s, i) {
      var a := SkipSpaces(s, i + 6);
      var b := SkipDigits(s, a);
      assert NumberSplit(s, i, a, b, SkipSpaces(s, b));
    }
    if OccursAt(s, "print(", i) && exists a, b, c :: NumberSplit(s, i, a, b, c) {
      var a, b, c :| NumberSplit(s, i, a, b, c);
      SpacesEnd(s, i + 6, a);
      DigitsEnd(s, a, b);
      SpacesEnd(s, b, c);
    }
  }

  /** The string pattern matches at i exactly when the regular expression,
      trying every split, finds one. */
  lemma PrintStringRegex(s: string, i: nat)
    ensures PrintStringAt(s, i) <==> OccursAt(s, "print(", i) && exists a, b, c :: StringSplit(s, i, a, b, c)
  {
    if PrintStringAt(s, i) {
      PrintStringSplits(s, i);
    }
    if OccursAt(s, "print(", i) && exists a, b, c :: StringSplit(s, i, a, b, c) {
      var a, b, c :| StringSplit(s, i, a, b, c);
      StringSplitMatches(s, i, a, b, c);
    }
  }

  /** A match of the string pattern is one of its splits. */
  lemma PrintStringSplits(s: string, i: nat)
    requires PrintStringAt(s, i)
    ensures exists a, b, c :: StringSplit(s, i, a, b, c)
  {
    var a := SkipSpaces(s, i + 6);
    var b := SkipNonQuotes(s, a + 1);
    assert StringSplit(s, i, a, b, SkipSpaces(s, b + 1));
  }

  /** Any split of the string pattern after "print(" is a match. */
  lemma StringSplitMatches(s: string, i: nat, a: int, b: int, c: int)
    requires OccursAt(s, "print(", i) && StringSplit(s, i, a, b, c)
    ensures PrintStringAt(s, i)
  {
    SpacesEnd(s, i + 6, a);
    NonQuotesEnd(s, a + 1, b);
    SpacesEnd(s, b + 1, c);
  }

  predicate NotQuote(c: char) {
    !IsQuote(c)
  }

  lemma SpacesEnd(s: string, j: nat, a: nat)
    requires j <= a < |s| && AllIn(s, j, a, IsSpace) && !IsSpace(s[a])
    ensures SkipSpaces(s, j) == a
  {
  }

  lemma DigitsEnd(s: string, j: nat, a: nat)
    requires j <= a < |s| && AllIn(s, j, a, IsDigit) && !IsDigit(s[a])
    ensures SkipDigits(s, j) == a
  {
  }

  lemma NonQuotesEnd(s: string, j: nat, a: nat)
    requires j <= a < |s| && AllIn(s, j, a, NotQuote) && IsQuote(s[a])
    ensures SkipNonQuotes(s, j) == a
  {
  }

  /** RegExp.prototype.test with either pattern, searching from position k. */
  function HardcodedFrom(code: string, k: nat): (b: bool)
    ensures b <==> exists i: nat :: k <= i && (PrintNumberAt(code, i) || PrintStringAt(code, i))
    decreases |code| - k
  {
    if k + 6 > |code| then
      assert forall i: nat :: k <= i ==> !OccursAt(code, "print(", i);
      false
    else PrintNumberAt(code, k) || PrintStringAt(code, k) || HardcodedFrom(code, k + 1)
  }

  /** hasHardcodedValues: a number or a quoted string printed directly. */
  predicate HasHardcodedValues(code: string) {
    HardcodedFrom(code, 0)
  }

  // ---------------------------------------------------------------------------
  // the substring predicates

  /** hasGlobalVariables: `global `, or an `=` in a program with no def and
      no class at all. */
  predicate HasGlobalVariables(code: string) {
    Contains(code, "global ") || (Contains(code, "=") && !Contains(code, "def ") && !Contains(code, "class "))
  }

  predicate HasInfiniteLoop(code: string) {
    Contains(code, "while True") || Contains(code, "while 1")
  }

  predicate UsesBuiltinSort(code: string) {
    Contains(code, ".sort(") || Contains(code, "sorted(")
  }

  predicate HasMethodOverride(code: string) {
    Contains(code, "def __") || Contains(code, "def toString") || Contains(code, "def __str__")
  }

  predicate HasForLoops(code: string) {
    Contains(code, "for ") && Contains(code, " in ")
  }

  /** The number of matches of a global search for p from k: each match
      resumes the search right after itself. */
  function CountMatches(s: string, p: string, k: nat): nat
    requires |p| > 0
    decreases |s| - k
  {
    var f := IndexOfFrom(s, p, k);
    if f < 0 then 0 else 1 + CountMatches(s, p, f + |p|)
  }

  /** hasThreadSafetyIssues: /Lock\(\)/g matches more than once. */
  predicate HasThreadSafetyIssues(code: string) {
    CountMatches(code, "Lock()", 0) > 1
  }

  predicate UsesLibraryFunctions(code: string) {
    Contains(code, "math.") || Contains(code, "random.") || Contains(code, "os.")
    || Contains(code, "sys.") || Contains(code, "collections.")
  }

  predicate NeedsCustomEncryption(code: string) {
    Contains(code, "password") || Contains(code, "secret") || Contains(code, "key")
  }

  // ---------------------------------------------------------------------------
  // the ten checks of one rule

  const Messages: seq<string> := [
    "Rule violation: No hardcoding values allowed! Use variables instead.",
    "Rule violation: Functions must have docstrings! Add \"\"\"documentation\"\"\" to your functions.",
    "Rule violation: No global variables allowed! Keep variables local to functions.",
    "Rule violation: Loops must terminate! Avoid while True or missing loop conditions.",
    "Rule violation: No built-in sort functions allowed! Implement your own sorting algorithm.",
    "Rule violation: Each class must override at least one method! Override __str__, __repr__, or another method.",
    "Rule violation: No for-loops allowed! Use functional programming with map(), filter(), and lambda.",
    "Rule violation: All operations must be thread-safe! Use proper locking mechanisms.",
    "Rule violation: Implement algorithms from scratch! No library functions allowed.",
    "Rule violation: All data must be encrypted/decrypted using custom algorithms!"
  ]

  /** Check k, in source order, fires for this rule on this program: its
      keyword condition holds on the rule and its predicate on the code. */
  predicate Fires(k: int, rule: string, code: string) {
    if k == 0 then (Contains(rule, "variables") || Contains(rule, "hardcoding")) && HasHardcodedValues(code)
    else if k == 1 then Contains(rule, "docstring") && Contains(code, "def ") && !Contains(code, "\"\"\"")
    else if k == 2 then Contains(rule, "global") && HasGlobalVariables(code)
    else if k == 3 then Contains(rule, "terminate") && HasInfiniteLoop(code)
    else if k == 4 then Contains(rule, "sort") && Contains(rule, "built-in") && UsesBuiltinSort(code)
    else if k == 5 then Contains(rule, "override") && Contains(code, "class ") && !HasMethodOverride(code)
    else if k == 6 then Contains(rule, "for-loops") && Contains(rule, "functional") && HasForLoops(code)
    else if k == 7 then Contains(rule, "thread-safe") && HasThreadSafetyIssues(code)
    else if k == 8 then Contains(rule, "library functions") && Contains(rule, "scratch") && UsesLibraryFunctions(code)
    else if k == 9 then (Contains(rule, "encrypted") || Contains(rule, "custom algorithms")) && NeedsCustomEncryption(code)
    else false
  }

  /** The indices below n where p holds, in increasing order. */
  function IndicesBelow(p: nat -> bool, n: nat): (r: seq<nat>)
    ensures forall j: nat :: j in r <==> j < n && p(j)
    ensures forall i :: 0 <= i < |r| ==> r[i] < n
    ensures forall i, i' :: 0 <= i < i' < |r| ==> r[i] < r[i']
  {
    if n == 0 then []
    else
      var m: nat := n - 1;
      var front := IndicesBelow(p, m);
      front + (if p(m) then [m] else [])
  }

  /** The checks that fire for one rule, in check order. */
  function Fired(rule: string, code: string): seq<nat> {
    IndicesBelow(FiresFor(rule, code), |Messages|)
  }

  /** Fires for one rule and one program, as a predicate on check indices. */
  function FiresFor(rule: string, code: string): nat -> bool {
    j => Fires(j, rule, code)
  }

  /** The entry of a table at each index of ks, in order. */
  function MessagesOf(table: seq<string>, ks: seq<nat>): (r: seq<string>)
    requires forall i :: 0 <= i < |ks| ==> ks[i] < |table|
    ensures |r| == |ks| && forall i :: 0 <= i < |r| ==> r[i] == table[ks[i]]
  {
    if ks == [] then [] else MessagesOf(table, ks[..|ks| - 1]) + [table[ks[|ks| - 1]]]
  }

  /** The violations one rule adds: the message of each check that fires,
      in check order. */
  function RuleViolations(rule: string, code: string): seq<string> {
    var ks := Fired(rule, code);
    assert forall i :: 0 <= i < |ks| ==> ks[i] in ks;
    MessagesOf(Messages, ks)
  }

  /** A rule reports, in check order, the message of exactly the checks that
      fire for it. */
  lemma RuleViolationsExact(rule: string, code: string)
    ensures var ks := Fired(rule, code);
      |RuleViolations(rule, code)| == |ks|
      && (forall i :: 0 <= i < |ks| ==> ks[i] < |Messages| && RuleViolations(rule, code)[i] == Messages[ks[i]])
      && (forall k :: k in ks <==> 0 <= k < |Messages| && Fires(k, rule, code))
      && (forall i, i' :: 0 <= i < i' < |ks| ==> ks[i] < ks[i'])
  {
    var ks := Fired(rule, code);
    assert forall i :: 0 <= i < |ks| ==> ks[i] in ks;
  }

  /** The violations of a list of rules: rule by rule, in list order. */
  function Violations(rules: seq<string>, code: string): seq<string> {
    if rules == [] then [] else RuleViolations(rules[0], code) + Violations(rules[1..], code)
  }

  /** The entries of a table at the indices below k that satisfy p, in
      index order: the loop over one rule after k checks. */
  function MessagesWhere(table: seq<string>, p: nat -> bool, k: nat): (r: seq<string>)
    requires k <= |table|
    ensures |r| <= k
  {
    if k == 0 then []
    else MessagesWhere(table, p, k - 1) + (if p(k - 1) then [table[k - 1]] else [])
  }

  /** After all ten checks, one rule has reported exactly its violations. */
  lemma RuleViolationsWhere(rule: string, code: string)
    ensures RuleViolations(rule, code) == MessagesWhere(Messages, FiresFor(rule, code), |Messages|)
  {
    MessagesWhereIndices(Messages, FiresFor(rule, code), |Messages|);
  }

  lemma {:induction false} MessagesWhereIndices(table: seq<string>, p: nat -> bool, k: nat)
    requires k <= |table|
    ensures MessagesWhere(table, p, k) == MessagesOf(table, IndicesBelow(p, k))
  {
    if k > 0 {
      MessagesWhereIndices(table, p, k - 1);
      MessagesWhereStep(table, p, k);
    }
  }

  lemma MessagesWhereStep(table: seq<string>, p: nat -> bool, k: nat)
    requires 0 < k <= |table|
    requires MessagesWhere(table, p, k - 1) == MessagesOf(table, IndicesBelow(p, k - 1))
    ensures MessagesWhere(table, p, k) == MessagesOf(table, IndicesBelow(p, k))
  {
    var front := IndicesBelow(p, k - 1);
    if p(k - 1) {
      MessagesOfSnoc(table, front, k - 1);
    } else {
      assert IndicesBelow(p, k) == front;
    }
  }

  lemma MessagesOfSnoc(table: seq<string>, ks: seq<nat>, m: nat)
    requires forall i :: 0 <= i < |ks| ==> ks[i] < |table|
    requires m < |table|
    ensures MessagesOf(table, ks + [m]) == MessagesOf(table, ks) + [table[m]]
  {
    assert (ks + [m])[..|ks|] == ks;
  }

  /** One more rule of a list adds its own violations at the end. */
  lemma ViolationsPrefix(rules: seq<string>, i: nat, code: string)
    requires i < |rules|
    ensures Violations(rules[..i + 1], code) == Violations(rules[..i], code) + RuleViolations(rules[i], code)
  {
    assert rules[..i + 1] == rules[..i] + [rules[i]];
    ViolationsAppend(rules[..i], [rules[i]], code);
    assert Violations([rules[i]], code) == RuleViolations(rules[i], code) + Violations([], code);
  }

  // ---------------------------------------------------------------------------
  // properties

  /** Linting a concatenation of rule lists lints each in turn. */
  lemma {:induction false} ViolationsAppend(a: seq<string>, b: seq<string>, code: string)
    ensures Violations(a + b, code) == Violations(a, code) + Violations(b, code)
  {
    if a == [] {
      assert a + b == b;
    } else {
      calc {
        Violations(a + b, code);
        { assert (a + b)[0] == a[0] && (a + b)[1..] == a[1..] + b; }
        RuleViolations(a[0], code) + Violations(a[1..] + b, code);
        { ViolationsAppend(a[1..], b, code); }
        RuleViolations(a[0], code) + (Violations(a[1..], code) + Violations(b, code));
        Violations(a, code) + Violations(b, code);
      }
    }
  }

  /** Reordering the rules only permutes the violations. */
  lemma {:induction false} ViolationsPermute(a: seq<string>, b: seq<string>, code: string)
    requires multiset(a) == multiset(b)
    ensures multiset(Violations(a, code)) == multiset(Violations(b, code))
    decreases |a|
  {
    if a != [] {
      assert a[0] in multiset(b);
      var k :| 0 <= k < |b| && b[k] == a[0];
      var rest := b[..k] + b[k + 1..];
      RemoveFirstAndAt(a, b, k);
      ViolationsPermute(a[1..], rest, code);
      ViolationsRemoveAt(b, k, code);
    }
  }

  /** Taking the first element off one sequence and the same element off a
      permutation of it leaves permutations. */
  lemma RemoveFirstAndAt(a: seq<string>, b: seq<string>, k: nat)
    requires multiset(a) == multiset(b) && a != [] && k < |b| && b[k] == a[0]
    ensures multiset(a[1..]) == multiset(b[..k] + b[k + 1..])
  {
    assert a == [a[0]] + a[1..];
    assert b == b[..k] + [b[k]] + b[k + 1..];
    assert multiset(b) == multiset(b[..k]) + multiset{b[k]} + multiset(b[k + 1..]);
    assert multiset(a) == multiset{a[0]} + multiset(a[1..]);
    var rest := b[..k] + b[k + 1..];
    assert multiset(rest) == multiset(b[..k]) + multiset(b[k + 1..]);
    forall y
      ensures multiset(a[1..])[y] == multiset(rest)[y]
    {
      assert multiset(a)[y] == multiset(b)[y];
    }
  }

  /** The violations of b are those of b[k] together with those of the other rules. */
  lemma ViolationsRemoveAt(b: seq<string>, k: nat, code: string)
    requires k < |b|
    ensures multiset(Violations(b, code))
         == multiset(RuleViolations(b[k], code)) + multiset(Violations(b[..k] + b[k + 1..], code))
  {
    assert b == b[..k] + ([b[k]] + b[k + 1..]);
    ViolationsAppend(b[..k], [b[k]] + b[k + 1..], code);
    ViolationsAppend([b[k]], b[k + 1..], code);
    ViolationsAppend(b[..k], b[k + 1..], code);
    assert Violations([b[k]], code) == RuleViolations(b[k], code) + Violations([], code);
  }

  /** Each occurrence of p starts a match of the global search. */
  lemma OccursContains(s: string, p: string, i: nat)
    requires OccursAt(s, p, i)
    ensures Contains(s, p)
  {
    IndexOfFromFirst(s, p, 0);
  }

  /** `def __str__` already contains `def __`: the third override test is
      subsumed by the first. */
  lemma StrOverrideSubsumed(code: string)
    ensures Contains(code, "def __str__") ==> Contains(code, "def __")
  {
    if Contains(code, "def __str__") {
      var i := IndexOf(code, "def __str__");
      assert code[i..i + 6] == code[i..i + 11][..6];
      OccursContains(code, "def __", i);
    }
  }

  /** p occurs at i when its characters match one by one. */
  lemma OccursByChars(s: string, p: string, i: nat)
    requires i + |p| <= |s| && forall j :: 0 <= j < |p| ==> s[i + j] == p[j]
    ensures Contains(s, p)
  {
    assert forall j :: 0 <= j < |p| ==> s[i..i + |p|][j] == p[j];
    OccursContains(s, p, i);
  }

  /** One rule can fire several checks: a rule that names variables, a
      docstring and globals runs the hardcoding, docstring and global checks. */
  lemma SeveralChecks(rule: string, code: string)
    requires Contains(rule, "variables") && Contains(rule, "docstring") && Contains(rule, "global")
    ensures Fires(0, rule, code) <==> HasHardcodedValues(code)
    ensures Fires(1, rule, code) <==> Contains(code, "def ") && !Contains(code, "\"\"\"")
    ensures Fires(2, rule, code) <==> HasGlobalVariables(code)
  {
  }

  /** The docstring rule of level 3 is such a rule. */
  lemma DocstringRuleNames()
    ensures Contains(Levels.DocstringRule, "variables")
    ensures Contains(Levels.DocstringRule, "docstring")
    ensures Contains(Levels.DocstringRule, "global")
  {
    DocstringRuleNamesDocstring();
    DocstringRuleNamesGlobal();
    DocstringRuleNamesVariables();
  }

  lemma DocstringRuleNamesDocstring()
    ensures Contains(Levels.DocstringRule, "docstring")
  {
    DocstringCharsHead();
    DocstringCharsTail();
    OccursByChars(Levels.DocstringRule, "docstring", 30);
  }

  lemma DocstringCharsHead()
    ensures var r := Levels.DocstringRule; r[30] == 'd' && r[31] == 'o' && r[32] == 'c' && r[33] == 's'
  {
  }

  lemma DocstringCharsTail()
    ensures var r := Levels.DocstringRule; r[34] == 't' && r[35] == 'r' && r[36] == 'i' && r[37] == 'n' && r[38] == 'g'
  {
  }

  lemma DocstringRuleNamesGlobal()
    ensures Contains(Levels.DocstringRule, "global")
  {
    var r, w := Levels.DocstringRule, "global";
    assert r[47] == w[0] && r[48] == w[1] && r[49] == w[2] && r[50] == w[3] && r[51] == w[4] && r[52] == w[5];
    OccursByChars(r, w, 47);
  }

  lemma DocstringRuleNamesVariables()
    ensures Contains(Levels.DocstringRule, "variables")
  {
    var r, w := Levels.DocstringRule, "variables";
    assert r[54] == w[0] && r[55] == w[1] && r[56] == w[2] && r[57] == w[3] && r[58] == w[4] && r[59] == w[5] && r[60] == w[6] && r[61] == w[7] && r[62] == w[8];
    OccursByChars(r, w, 54);
  }

  /** A pattern with a character the text lacks does not occur in it. */
  lemma AbsentChar(s: string, p: string, c: char)
    requires c in p && c !in s
    ensures !Contains(s, p)
  {
    var j :| 0 <= j < |p| && p[j] == c;
    forall i: int | 0 <= i < |s|
      ensures !OccursAt(s, p, i)
    {
      if i + |p| <= |s| {
        assert s[i..i + |p|][j] == s[i + j];
      }
    }
  }

  /** The rule of level 1 names variables. */
  lemma VariablesRuleNamesVariables(rule: string)
    requires rule == Levels.VariablesRule
    ensures Contains(rule, "variables")
  {
    var w := "variables";
    VariablesCharsHead();
    VariablesCharsTail();
    assert rule[21] == w[0] && rule[22] == w[1] && rule[23] == w[2] && rule[24] == w[3] && rule[25] == w[4] && rule[26] == w[5] && rule[27] == w[6] && rule[28] == w[7] && rule[29] == w[8];
    OccursByChars(rule, w, 21);
  }

  lemma VariablesCharsHead()
    ensures var r := Levels.VariablesRule; r[21] == 'v' && r[22] == 'a' && r[23] == 'r' && r[24] == 'i'
  {
  }

  lemma VariablesCharsTail()
    ensures var r := Levels.VariablesRule; r[25] == 'a' && r[26] == 'b' && r[27] == 'l' && r[28] == 'e' && r[29] == 's'
  {
  }

  /** Only check 0 is in the index list when only it holds below n. */
  lemma OnlyZeroBelow(p: nat -> bool, n: nat)
    requires 0 < n && p(0) && forall k: nat :: 0 < k < n ==> !p(k)
    ensures IndicesBelow(p, n) == [0]
  {
    var r := IndicesBelow(p, n);
    assert 0 in r;
    forall i | 0 <= i < |r|
      ensures r[i] == 0
    {
      assert r[i] in r;
    }
  }

  /** print(5) matches the number pattern at its start. */
  lemma PrintFiveHardcoded(code: string)
    requires code == "print(5)"
    ensures HasHardcodedValues(code)
  {
    assert code[..6] == "print(";
    assert PrintNumberAt(code, 0);
  }

  /** The characters print(5) lacks. */
  lemma PrintFiveChars(code: string)
    requires code == "print(5)"
    ensures forall c :: c in code ==> c in {'p', 'r', 'i', 'n', 't', '(', '5', ')'}
  {
  }

  /** None of the other nine predicates holds on print(5): each needs a
      character print(5) lacks. */
  lemma PrintFiveNothingElse(code: string)
    requires code == "print(5)"
    ensures !Contains(code, "def ") && !HasGlobalVariables(code) && !HasInfiniteLoop(code) && !UsesBuiltinSort(code)
    ensures !Contains(code, "class ") && !HasForLoops(code) && !HasThreadSafetyIssues(code)
    ensures !UsesLibraryFunctions(code) && !NeedsCustomEncryption(code)
  {
    PrintFiveChars(code);
    PrintFiveNoLoops(code);
    PrintFiveNoNames(code);
  }

  /** Neither def, global, =, while, sort nor class occurs in print(5). */
  lemma PrintFiveNoLoops(code: string)
    requires forall c :: c in code ==> c in {'p', 'r', 'i', 'n', 't', '(', '5', ')'}
    ensures !Contains(code, "def ") && !HasGlobalVariables(code) && !HasInfiniteLoop(code) && !UsesBuiltinSort(code)
    ensures !Contains(code, "class ")
  {
    AbsentChar(code, "def ", 'd');
    AbsentChar(code, "global ", 'g');
    AbsentChar(code, "=", '=');
    AbsentChar(code, "while True", 'w');
    AbsentChar(code, "while 1", 'w');
    AbsentChar(code, ".sort(", 's');
    AbsentChar(code, "sorted(", 's');
    AbsentChar(code, "class ", 'c');
  }

  /** Neither for, Lock(), a library prefix nor a sensitive word occurs in
      print(5). */
  lemma PrintFiveNoNames(code: string)
    requires forall c :: c in code ==> c in {'p', 'r', 'i', 'n', 't', '(', '5', ')'}
    ensures !HasForLoops(code) && !HasThreadSafetyIssues(code)
    ensures !UsesLibraryFunctions(code) && !NeedsCustomEncryption(code)
  {
    AbsentChar(code, "for ", 'f');
    AbsentChar(code, "Lock()", 'L');
    AbsentChar(code, "math.", 'm');
    AbsentChar(code, "random.", 'a');
    AbsentChar(code, "os.", 'o');
    AbsentChar(code, "sys.", 's');
    AbsentChar(code, "collections.", 'c');
    AbsentChar(code, "password", 'a');
    AbsentChar(code, "secret", 's');
    AbsentChar(code, "key", 'k');
  }

  /** print(5) under the rule of level 1 ("All answers must use variables
      (no hardcoding values)") yields exactly one violation, the hardcoding
      message. */
  lemma PrintFiveViolatesHardcoding(rule: string, code: string)
    requires rule == Levels.VariablesRule && code == "print(5)"
    ensures Violations([rule], code) == [Messages[0]]
  {
    VariablesRuleNamesVariables(rule);
    PrintFiveHardcoded(code);
    PrintFiveNothingElse(code);
    OnlyFirstFires(rule, code);
  }

  /** A rule for which only the first check fires reports the hardcoding
      message alone. */
  lemma OnlyFirstFires(rule: string, code: string)
    requires Fires(0, rule, code) && forall k: nat :: 0 < k ==> !Fires(k, rule, code)
    ensures Violations([rule], code) == [Messages[0]]
  {
    var p := FiresFor(rule, code);
    assert p(0);
    forall k: nat | 0 < k < |Messages|
      ensures !p(k)
    {
    }
    OnlyZeroBelow(p, |Messages|);
    assert Fired(rule, code) == [0];
    assert Violations([rule], code) == RuleViolations(rule, code) + Violations([], code);
  }

  /** Two occurrences of "Lock()" never overlap. */
  lemma LocksApart(code: string, f: nat, j: nat)
    requires f < j && OccursAt(code, "Lock()", f) && OccursAt(code, "Lock()", j)
    ensures f + 6 <= j
  {
    assert forall k :: f < k < f + 6 ==> code[k] == code[f..f + 6][k - f] != 'L';
    assert code[j] == code[j..j + 6][0] == 'L';
  }

  /** More than one match of the global search means two occurrences. */
  lemma TwoLocksFound(code: string)
    requires HasThreadSafetyIssues(code)
    ensures exists i: nat, j: nat :: i < j && OccursAt(code, "Lock()", i) && OccursAt(code, "Lock()", j)
  {
    var p := "Lock()";
    var f := IndexOfFrom(code, p, 0);
    assert f >= 0;
    assert CountMatches(code, p, 0) == 1 + CountMatches(code, p, f + |p|);
    var g := IndexOfFrom(code, p, f + |p|);
    assert g >= 0;
    assert f < g && OccursAt(code, p, f) && OccursAt(code, p, g);
  }

  /** Two occurrences mean the global search matches more than once. */
  lemma TwoLocksCounted(code: string, i: nat, j: nat)
    requires i < j && OccursAt(code, "Lock()", i) && OccursAt(code, "Lock()", j)
    ensures HasThreadSafetyIssues(code)
  {
    var p := "Lock()";
    var f := IndexOfFrom(code, p, 0);
    IndexOfFromFirst(code, p, 0);
    assert 0 <= f <= i;
    LocksApart(code, f, j);
    assert OccursAt(code, p, j) && f + |p| <= j;
    var g := IndexOfFrom(code, p, f + |p|);
    IndexOfFromFirst(code, p, f + |p|);
    assert g >= 0;
    assert CountMatches(code, p, f + |p|) >= 1;
  }

  /** "Lock()" cannot overlap itself, so the count exceeds one exactly when
      two occurrences exist. */
  lemma ThreadSafetyTwoLocks(code: string)
    ensures HasThreadSafetyIssues(code) <==>
      exists i: nat, j: nat :: i < j && OccursAt(code, "Lock()", i) && OccursAt(code, "Lock()", j)
  {
    if HasThreadSafetyIssues(code) {
      TwoLocksFound(code);
    }
    if exists i: nat, j: nat :: i < j && OccursAt(code, "Lock()", i) && OccursAt(code, "Lock()", j) {
      var i: nat, j: nat :| i < j && OccursAt(code, "Lock()", i) && OccursAt(code, "Lock()", j);
      TwoLocksCounted(code, i, j);
    }
  }
}
