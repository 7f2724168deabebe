/**
 * The JavaScript string operations the evaluator is built from: trim and
 * trimStart, startsWith/endsWith, includes/indexOf/lastIndexOf, substring,
 * split and join, replace of the first occurrence (with its `$` patterns), and
 * the text-to-number conversion that Number() applies to a string.
 * A string is a sequence of characters.
 */
module JsText {
  import opened Wrappers

  /** ECMAScript WhiteSpace and LineTerminator: what trim() removes and what
      the regular-expression class \s matches. */
  predicate IsSpace(c: char) {
    c == ' ' || c == '\t' || c == '\n' || c == '\r' || c == '\U{000B}' || c == '\U{000C}'
    || c == '\U{00A0}' || c == '\U{1680}' || ('\U{2000}' <= c <= '\U{200A}')
    || c == '\U{2028}' || c == '\U{2029}' || c == '\U{202F}' || c == '\U{205F}'
    || c == '\U{3000}' || c == '\U{FEFF}'
  }

  /** The characters a regular-expression `.` does not match. */
  predicate IsLineTerminator(c: char) {
    c == '\n' || c == '\r' || c == '\U{2028}' || c == '\U{2029}'
  }

  /** The regular-expression class \w. */
  predicate IsWordChar(c: char) {
    ('a' <= c <= 'z') || ('A' <= c <= 'Z') || ('0' <= c <= '9') || c == '_'
  }

  /** The regular-expression class \d. */
  predicate IsDigit(c: char) {
    '0' <= c <= '9'
  }

  predicate AllDigits(s: string) {
    forall i :: 0 <= i < |s| ==> IsDigit(s[i])
  }

  // ---------------------------------------------------------------------------
  // trim

  /** String.prototype.trimStart. */
  function TrimStart(s: string): (r: string)
    ensures |r| <= |s|
    ensures r == [] || !IsSpace(r[0])
    ensures forall i :: 0 <= i < |s| - |r| ==> IsSpace(s[i])
  {
    if s != [] && IsSpace(s[0]) then TrimStart(s[1..]) else s
  }

  /** trimStart removes a prefix: what is left is a suffix of the input. */
  lemma {:induction false} TrimStartSuffix(s: string)
    ensures TrimStart(s) == s[|s| - |TrimStart(s)|..]
  {
    if s != [] && IsSpace(s[0]) {
      TrimStartSuffix(s[1..]);
      assert s[1..][|s| - 1 - |TrimStart(s)|..] == s[|s| - |TrimStart(s)|..];
    }
  }

  /** String.prototype.trimEnd. */
  function TrimEnd(s: string): (r: string)
    ensures |r| <= |s| && r == s[..|r|]
    ensures r == [] || !IsSpace(r[|r| - 1])
    ensures forall i :: |r| <= i < |s| ==> IsSpace(s[i])
  {
    if s != [] && IsSpace(s[|s| - 1]) then TrimEnd(s[..|s| - 1]) else s
  }

  /** String.prototype.trim. */
  function Trim(s: string): (r: string)
    ensures |r| <= |s|
  {
    TrimEnd(TrimStart(s))
  }

  /** Trimming that removes nothing leaves the text as it is. */
  lemma TrimSameLength(s: string)
    requires |Trim(s)| >= |s|
    ensures Trim(s) == s
  {
    TrimStartSuffix(s);
  }

  /** Text that begins with a non-space character is not blank. */
  lemma LeadingCharNotBlank(s: string)
    requires s != [] && !IsSpace(s[0])
    ensures Trim(s) != ""
  {
    var t := TrimStart(s);
    assert |s| - |t| == 0;
    TrimStartSuffix(s);
    assert t == s;
  }

  /** Text that neither begins nor ends with whitespace is its own trim. */
  lemma TrimUntouched(s: string)
    requires s != [] && !IsSpace(s[0]) && !IsSpace(s[|s| - 1])
    ensures Trim(s) == s
  {
  }

  /** Trimmed text is left alone by a second trim. */
  lemma TrimTwice(s: string)
    ensures Trim(Trim(s)) == Trim(s)
  {
    var t, u := Trim(s), TrimStart(s);
    if t != [] {
      assert t[0] == u[0];
    }
  }

  /** The indentation width the block scanner measures: line.length - line.trimStart().length. */
  function Indent(s: string): nat {
    |s| - |TrimStart(s)|
  }

  // ---------------------------------------------------------------------------
  // searching

  predicate StartsWith(s: string, p: string) {
    |p| <= |s| && s[..|p|] == p
  }

  predicate EndsWith(s: string, p: string) {
    |p| <= |s| && s[|s| - |p|..] == p
  }

  /** p occurs in s at position i. */
  predicate OccursAt(s: string, p: string, i: int) {
    0 <= i && i + |p| <= |s| && s[i..i + |p|] == p
  }

  /** String.prototype.indexOf(p, k): the first occurrence at or after k, or -1. */
  function IndexOfFrom(s: string, p: string, k: nat): (r: int)
    ensures r == -1 || (k <= r && OccursAt(s, p, r))
    decreases |s| - k
  {
    if k + |p| > |s| then -1
    else if s[k..k + |p|] == p then k
    else IndexOfFrom(s, p, k + 1)
  }

  /** The occurrence found is the first one at or after k, and -1 means there
      is none. */
  lemma {:induction false} IndexOfFromFirst(s: string, p: string, k: nat)
    ensures IndexOfFrom(s, p, k) == -1 ==> forall i :: k <= i ==> !OccursAt(s, p, i)
    ensures IndexOfFrom(s, p, k) >= 0 ==> forall i :: k <= i < IndexOfFrom(s, p, k) ==> !OccursAt(s, p, i)
    decreases |s| - k
  {
    if k + |p| <= |s| && s[k..k + |p|] != p {
      IndexOfFromFirst(s, p, k + 1);
    }
  }

  /** One step of the search for a one-character pattern. */
  lemma IndexOfCharStep(s: string, c: char, k: nat)
    requires k < |s|
    ensures IndexOfFrom(s, [c], k) == if s[k] == c then k else IndexOfFrom(s, [c], k + 1)
  {
    assert s[k..k + 1] == [s[k]];
  }

  function IndexOf(s: string, p: string): int {
    IndexOfFrom(s, p, 0)
  }

  /** String.prototype.includes. */
  predicate Contains(s: string, p: string) {
    IndexOf(s, p) >= 0
  }

  /** A one-character pattern occurs exactly when its character does. */
  lemma ContainsChar(s: string, c: char)
    ensures Contains(s, [c]) ==> c in s
  {
    if Contains(s, [c]) {
      assert s[IndexOf(s, [c])] == s[IndexOf(s, [c])..IndexOf(s, [c]) + 1][0];
    }
  }

  /** String.prototype.lastIndexOf for a one-character pattern. */
  function LastIndexOfChar(s: string, c: char): (r: int)
    ensures -1 <= r < |s|
    ensures r >= 0 ==> s[r] == c && forall i :: r < i < |s| ==> s[i] != c
    ensures r == -1 ==> forall i :: 0 <= i < |s| ==> s[i] != c
  {
    if s == [] then -1
    else if s[|s| - 1] == c then |s| - 1
    else LastIndexOfChar(s[..|s| - 1], c)
  }

  function Clamp(a: int, n: nat): (r: nat)
    ensures r <= n
  {
    if a < 0 then 0 else if a > n then n else a
  }

  /** String.prototype.substring: both ends are clamped to the string and
      swapped when the first exceeds the second. */
  function Substring(s: string, a: int, b: int): (r: string)
    ensures |r| <= |s|
  {
    var x, y := Clamp(a, |s|), Clamp(b, |s|);
    if x <= y then s[x..y] else s[y..x]
  }

  /** A substring as long as the text is the whole text. */
  lemma SubstringWhole(s: string, a: int, b: int)
    requires |Substring(s, a, b)| >= |s|
    ensures Substring(s, a, b) == s
  {
  }

  // ---------------------------------------------------------------------------
  // split and join

  /** The pieces of s[start..] between occurrences of a non-empty separator. */
  function SplitFrom(s: string, sep: string, start: nat): (r: seq<string>)
    requires |sep| > 0 && start <= |s|
    ensures |r| >= 1
    ensures forall k :: 0 <= k < |r| ==> |r[k]| <= |s| - start
    ensures |r| > 1 ==> forall k :: 0 <= k < |r| ==> |r[k]| < |s| - start
    decreases |s| - start
  {
    var i := IndexOfFrom(s, sep, start);
    if i < 0 then [s[start..]]
    else [s[start..i]] + SplitFrom(s, sep, i + |sep|)
  }

  /** String.prototype.split(sep) with a string separator: an empty separator
      splits into single characters. */
  function Split(s: string, sep: string): (r: seq<string>)
    ensures forall k :: 0 <= k < |r| ==> |r[k]| <= |s|
    ensures |r| > 1 ==> forall k :: 0 <= k < |r| ==> |r[k]| < |s|
  {
    if sep == [] then seq(|s|, i requires 0 <= i < |s| => [s[i]])
    else SplitFrom(s, sep, 0)
  }

  /** Array.prototype.join of strings. */
  function Join(parts: seq<string>, sep: string): string {
    if parts == [] then ""
    else if |parts| == 1 then parts[0]
    else parts[0] + sep + Join(parts[1..], sep)
  }

  /** Joining the pieces of a split with its separator gives back the text. */
  lemma {:induction false} JoinSplitFrom(s: string, sep: string, start: nat)
    requires |sep| > 0 && start <= |s|
    ensures Join(SplitFrom(s, sep, start), sep) == s[start..]
    decreases |s| - start
  {
    var i := IndexOfFrom(s, sep, start);
    if i >= 0 {
      assert start <= i && i + |sep| <= |s|;
      JoinSplitFrom(s, sep, i + |sep|);
    }
    JoinSplitCombine(s, sep, start);
  }

  /** The induction step: when the rest after the first occurrence joins
      back, so does the whole text from start. */
  lemma JoinSplitCombine(s: string, sep: string, start: nat)
    requires |sep| > 0 && start <= |s|
    requires var i := IndexOfFrom(s, sep, start);
      i >= 0 ==> Join(SplitFrom(s, sep, i + |sep|), sep) == s[i + |sep|..]
    ensures Join(SplitFrom(s, sep, start), sep) == s[start..]
  {
    var i := IndexOfFrom(s, sep, start);
    if i >= 0 {
      var rest := SplitFrom(s, sep, i + |sep|);
      JoinSplitStep(s, sep, start, i, rest);
      SplitFromStep(s, sep, start);
    }
  }

  /** The first piece ends at the first occurrence of sep from start. */
  lemma SplitFromStep(s: string, sep: string, start: nat)
    requires |sep| > 0 && start <= |s|
    ensures var i := IndexOfFrom(s, sep, start);
      i >= 0 ==> SplitFrom(s, sep, start) == [s[start..i]] + SplitFrom(s, sep, i + |sep|)
  {
  }

  /** Putting the piece before an occurrence of sep back in front of the
      joined rest gives the text from start. */
  lemma JoinSplitStep(s: string, sep: string, start: nat, i: nat, rest: seq<string>)
    requires start <= i && OccursAt(s, sep, i) && rest != [] && Join(rest, sep) == s[i + |sep|..]
    ensures Join([s[start..i]] + rest, sep) == s[start..]
  {
    var j := i + |sep|;
    calc {
      Join([s[start..i]] + rest, sep);
      { JoinCons(s[start..i], rest, sep); }
      s[start..i] + sep + Join(rest, sep);
      s[start..i] + s[i..j] + s[j..];
      { SlicesMeet(s, start, i, j); }
      s[start..j] + s[j..];
      { SlicesMeetEnd(s, start, j); }
      s[start..];
    }
  }

  lemma SlicesMeet(s: string, a: nat, b: nat, c: nat)
    requires a <= b <= c <= |s|
    ensures s[a..b] + s[b..c] == s[a..c]
  {
  }

  lemma SlicesMeetEnd(s: string, a: nat, b: nat)
    requires a <= b <= |s|
    ensures s[a..b] + s[b..] == s[a..]
  {
  }

  lemma JoinCons(first: string, rest: seq<string>, sep: string)
    requires rest != []
    ensures Join([first] + rest, sep) == first + sep + Join(rest, sep)
  {
    assert ([first] + rest)[1..] == rest;
  }

  lemma JoinSplit(s: string, sep: string)
    requires |sep| > 0
    ensures Join(Split(s, sep), sep) == s
  {
    JoinSplitFrom(s, sep, 0);
  }

  /** Searching for c from k finds what searching from j finds when no c
      lies between them. */
  lemma {:induction false} CharSearchFrom(s: string, c: char, k: nat, j: nat)
    requires k <= j <= |s| && forall i :: k <= i < j ==> s[i] != c
    ensures IndexOfFrom(s, [c], k) == IndexOfFrom(s, [c], j)
    decreases j - k
  {
    if k < j {
      IndexOfCharStep(s, c, k);
      CharSearchFrom(s, c, k + 1, j);
    }
  }

  /** Searching for p from k finds what searching from j finds when no
      position between them holds p's first character. */
  lemma {:induction false} SearchSkip(s: string, p: string, k: nat, j: nat)
    requires p != [] && k <= j && forall i :: k <= i < j && i < |s| ==> s[i] != p[0]
    ensures IndexOfFrom(s, p, k) == IndexOfFrom(s, p, j)
    decreases j - k
  {
    if k < j {
      if k + |p| <= |s| {
        assert s[k..k + |p|][0] == s[k];
      }
      SearchSkip(s, p, k + 1, j);
    }
  }

  /** Splitting at a one-character separator undoes joining pieces that do
      not contain it. */
  lemma SplitJoin(parts: seq<string>, c: char)
    requires parts != [] && forall k :: 0 <= k < |parts| ==> c !in parts[k]
    ensures Split(Join(parts, [c]), [c]) == parts
  {
    SplitJoinFrom([], parts, c);
    assert [] + Join(parts, [c]) == Join(parts, [c]);
  }

  lemma {:induction false} SplitJoinFrom(pre: string, parts: seq<string>, c: char)
    requires parts != [] && forall k :: 0 <= k < |parts| ==> c !in parts[k]
    ensures SplitFrom(pre + Join(parts, [c]), [c], |pre|) == parts
    decreases |parts|
  {
    var p := parts[0];
    if |parts| == 1 {
      assert Join(parts, [c]) == p && parts == [p];
      SplitLastPiece(pre, p, c);
    } else {
      var s := pre + Join(parts, [c]);
      var pre1 := pre + p + [c];
      var rest := Join(parts[1..], [c]);
      assert parts == [p] + parts[1..];
      JoinCons(p, parts[1..], [c]);
      assert s == pre1 + rest;
      SplitNextPiece(s, pre, p, c, |pre1|);
      SplitJoinFrom(pre1, parts[1..], c);
      var tail := SplitFrom(s, [c], |pre1|);
      assert tail == parts[1..];
      assert SplitFrom(s, [c], |pre|) == [p] + tail;
    }
  }

  /** From where a piece without c starts, a text ending with that piece
      splits into the piece alone. */
  lemma SplitLastPiece(pre: string, p: string, c: char)
    requires c !in p
    ensures SplitFrom(pre + p, [c], |pre|) == [p]
  {
    var s := pre + p;
    AbsentBetween(s, c, |pre|, |s|);
    CharSearchFrom(s, c, |pre|, |s|);
    assert s[|pre|..] == p;
  }

  /** From where a piece without c starts, the split yields that piece and
      goes on after the c that follows it. */
  lemma SplitNextPiece(s: string, pre: string, p: string, c: char, next: nat)
    requires c !in p && next == |pre| + |p| + 1 <= |s| && s[..next] == pre + p + [c]
    ensures SplitFrom(s, [c], |pre|) == [p] + SplitFrom(s, [c], next)
  {
    assert s[|pre|..next] == s[..next][|pre|..] == p + [c];
    SplitAtFirst(s, [c], |pre|, p);
  }

  /** From start, a text that reads a + sep, where a holds no character sep
      begins with, yields a as its next piece and goes on after that sep. */
  lemma SplitAtFirst(s: string, sep: string, start: nat, a: string)
    requires |sep| > 0 && sep[0] !in a
    requires start + |a| + |sep| <= |s| && s[start..start + |a| + |sep|] == a + sep
    ensures IndexOfFrom(s, sep, start) == start + |a|
    ensures SplitFrom(s, sep, start) == [a] + SplitFrom(s, sep, start + |a| + |sep|)
  {
    var i := start + |a|;
    SlicesOfJoined(s, start, a, sep);
    AbsentBetween(s, sep[0], start, i);
    SearchSkip(s, sep, start, i);
    assert IndexOfFrom(s, sep, i) == i;
    SplitFromStep(s, sep, start);
  }

  /** The two halves of a slice that reads a + b. */
  lemma SlicesOfJoined(s: string, start: nat, a: string, b: string)
    requires start + |a| + |b| <= |s| && s[start..start + |a| + |b|] == a + b
    ensures s[start..start + |a|] == a && s[start + |a|..start + |a| + |b|] == b
  {
    var w := s[start..start + |a| + |b|];
    assert s[start..start + |a|] == w[..|a|];
    assert s[start + |a|..start + |a| + |b|] == w[|a|..];
  }

  lemma AbsentBetween(s: string, c: char, a: nat, b: nat)
    requires a <= b <= |s| && c !in s[a..b]
    ensures forall i :: a <= i < b ==> s[i] != c
  {
    forall i | a <= i < b
      ensures s[i] != c
    {
      assert s[i] == s[a..b][i - a];
    }
  }

  /** A piece as long as the text is the only piece: the text itself. */
  lemma SplitFullPiece(s: string, sep: string, k: nat)
    requires |sep| > 0 && k < |Split(s, sep)| && |Split(s, sep)[k]| >= |s|
    ensures Split(s, sep) == [s]
  {
    JoinSplit(s, sep);
  }

  /** A separator that occurs yields at least two pieces, the first being the
      text before its first occurrence. */
  lemma SplitWhenContains(s: string, sep: string)
    requires |sep| > 0 && Contains(s, sep)
    ensures |Split(s, sep)| >= 2
    ensures Split(s, sep)[0] == s[..IndexOf(s, sep)]
  {
  }

  /** A separator that does not occur yields the whole text as the only piece. */
  lemma SplitWhenAbsent(s: string, sep: string)
    requires |sep| > 0 && !Contains(s, sep)
    ensures Split(s, sep) == [s]
  {
  }

  // ---------------------------------------------------------------------------
  // replace

  /** GetSubstitution for a string pattern (no capture groups): `$$`, `$&`,
      `` $` `` and `$'` are expanded; any other `$` stays literal. */
  function Expand(repl: string, matched: string, before: string, after: string): string
    decreases |repl|
  {
    if repl == [] then ""
    else if repl[0] == '$' && |repl| >= 2 && repl[1] == '$' then "$" + Expand(repl[2..], matched, before, after)
    else if repl[0] == '$' && |repl| >= 2 && repl[1] == '&' then matched + Expand(repl[2..], matched, before, after)
    else if repl[0] == '$' && |repl| >= 2 && repl[1] == '`' then before + Expand(repl[2..], matched, before, after)
    else if repl[0] == '$' && |repl| >= 2 && repl[1] == '\'' then after + Expand(repl[2..], matched, before, after)
    else [repl[0]] + Expand(repl[1..], matched, before, after)
  }

  /** String.prototype.replace with a string pattern and a string replacement:
      only the first occurrence is replaced. */
  function ReplaceFirst(s: string, pattern: string, repl: string): string {
    var i := IndexOf(s, pattern);
    if i < 0 then s
    else s[..i] + Expand(repl, pattern, s[..i], s[i + |pattern|..]) + s[i + |pattern|..]
  }

  /** replace with a plain replacement changes the first occurrence only:
      the text after it is kept as it is, further occurrences included. */
  lemma ReplaceFirstPlain(s: string, pattern: string, repl: string)
    requires forall i :: 0 <= i < |repl| ==> repl[i] != '$'
    ensures IndexOf(s, pattern) < 0 ==> ReplaceFirst(s, pattern, repl) == s
    ensures var i := IndexOf(s, pattern);
      i >= 0 ==> ReplaceFirst(s, pattern, repl) == s[..i] + repl + s[i + |pattern|..]
  {
    var i := IndexOf(s, pattern);
    if i >= 0 {
      ExpandPlain(repl, pattern, s[..i], s[i + |pattern|..]);
    }
  }

  /** A replacement without `$` is inserted verbatim in place of the first
      occurrence, and the text before and after it is kept. */
  lemma {:induction false} ExpandPlain(repl: string, matched: string, before: string, after: string)
    requires forall i :: 0 <= i < |repl| ==> repl[i] != '$'
    ensures Expand(repl, matched, before, after) == repl
    decreases |repl|
  {
    if repl != [] {
      ExpandPlain(repl[1..], matched, before, after);
    }
  }

  /** s.replace(/c/g, d) for single characters. */
  function ReplaceAllChar(s: string, c: char, d: char): (r: string)
    ensures |r| == |s|
    ensures forall i :: 0 <= i < |s| ==> r[i] == (if s[i] == c then d else s[i])
  {
    seq(|s|, i requires 0 <= i < |s| => if s[i] == c then d else s[i])
  }

  // ---------------------------------------------------------------------------
  // decimal text

  function DigitChar(d: nat): char
    requires d < 10
  {
    ['0', '1', '2', '3', '4', '5', '6', '7', '8', '9'][d]
  }

  /** The decimal digits of a natural number, without leading zeros. */
  function NatToDecimal(n: nat): (r: string)
    ensures |r| >= 1 && AllDigits(r)
    ensures |r| > 1 ==> r[0] != '0'
  {
    if n < 10 then [DigitChar(n)] else NatToDecimal(n / 10) + [DigitChar(n % 10)]
  }

  /** Number.prototype.toString for an integer value. */
  function IntToDecimal(n: int): string {
    if n < 0 then "-" + NatToDecimal(-n) else NatToDecimal(n)
  }

  /** The value of a digit in base 2, 8, 10 or 16 (letters for hexadecimal), or -1. */
  function DigitValue(c: char): int {
    if '0' <= c <= '9' then c as int - '0' as int
    else if 'a' <= c <= 'f' then c as int - 'a' as int + 10
    else if 'A' <= c <= 'F' then c as int - 'A' as int + 10
    else -1
  }

  predicate DigitsIn(s: string, base: nat) {
    forall i :: 0 <= i < |s| ==> 0 <= DigitValue(s[i]) < base
  }

  /** The value of a digit string in a base. */
  function ValueIn(s: string, base: nat): nat
    requires DigitsIn(s, base)
  {
    if s == [] then 0 else ValueIn(s[..|s| - 1], base) * base + DigitValue(s[|s| - 1])
  }

  /** Reading the decimal text of a number gives the number back. */
  lemma {:induction false} DecimalRoundTrip(n: nat)
    ensures DigitsIn(NatToDecimal(n), 10) && ValueIn(NatToDecimal(n), 10) == n
  {
    if n >= 10 {
      DecimalRoundTrip(n / 10);
      DecimalStep(n);
    }
  }

  /** One digit of the round trip: appending the last digit of `n` to the text of `n / 10`. */
  lemma DecimalStep(n: nat)
    requires n >= 10
    requires DigitsIn(NatToDecimal(n / 10), 10) && ValueIn(NatToDecimal(n / 10), 10) == n / 10
    ensures DigitsIn(NatToDecimal(n), 10) && ValueIn(NatToDecimal(n), 10) == n
  {
    var q := NatToDecimal(n / 10);
    var r := q + [DigitChar(n % 10)];
    assert r[..|r| - 1] == q;
    assert DigitValue(r[|r| - 1]) == n % 10;
  }

  /** A run of decimal digits, possibly empty. */
  lemma AllDigitsInTen(s: string)
    requires AllDigits(s)
    ensures DigitsIn(s, 10)
  {
  }

  /** What Number() makes of a piece of text: not a number, an integer, an
      infinity, or a decimal-point or exponent form the model does not evaluate. */
  datatype NumText = NotNumeric | IntText(i: int) | InfText(negative: bool) | DecimalForm

  /** An optional sign followed by at least one decimal digit. */
  predicate IsSignedDigits(s: string) {
    if |s| > 0 && (s[0] == '+' || s[0] == '-') then |s| > 1 && AllDigits(s[1..])
    else |s| > 0 && AllDigits(s)
  }

  /** The mantissa of a StrUnsignedDecimalLiteral: digits with at most one
      point and at least one digit. */
  predicate IsMantissa(m: string) {
    var d := IndexOf(m, ".");
    if d < 0 then |m| > 0 && AllDigits(m)
    else AllDigits(m[..d]) && AllDigits(m[d + 1..]) && |m| > 1
  }

  /** Index of the first `e` or `E`, or |s|. */
  function ExponentMark(s: string): (r: nat)
    ensures r <= |s|
  {
    if s == [] then 0
    else if s[0] == 'e' || s[0] == 'E' then 0
    else 1 + ExponentMark(s[1..])
  }

  /** StrUnsignedDecimalLiteral other than Infinity. */
  predicate IsUnsignedDecimal(t: string) {
    var e := ExponentMark(t);
    IsMantissa(t[..e]) && (e == |t| || IsSignedDigits(t[e + 1..]))
  }

  /** The base announced by a 0x, 0o or 0b prefix (followed by at least one
      more character), or 0. */
  function PrefixBase(t: string): nat {
    if |t| > 2 && t[0] == '0' && (t[1] == 'x' || t[1] == 'X') then 16
    else if |t| > 2 && t[0] == '0' && (t[1] == 'o' || t[1] == 'O') then 8
    else if |t| > 2 && t[0] == '0' && (t[1] == 'b' || t[1] == 'B') then 2
    else 0
  }

  /** The value of an optional sign followed by decimal digits. */
  function SignedValue(t: string): int
    requires IsSignedDigits(t)
  {
    if t[0] == '-' then 0 - ValueIn(t[1..], 10)
    else if t[0] == '+' then ValueIn(t[1..], 10)
    else ValueIn(t, 10)
  }

  /** A StrDecimalLiteral with a point or an exponent. */
  predicate IsDecimalForm(t: string) {
    IsUnsignedDecimal(t) || (|t| > 1 && (t[0] == '+' || t[0] == '-') && IsUnsignedDecimal(t[1..]))
  }

  /** Number() of text that has no surrounding whitespace. */
  function NumberOfTrimmed(t: string): NumText {
    if t == "" then IntText(0)
    else if t == "Infinity" || t == "+Infinity" then InfText(false)
    else if t == "-Infinity" then InfText(true)
    else if PrefixBase(t) != 0 then
      (if DigitsIn(t[2..], PrefixBase(t)) then IntText(ValueIn(t[2..], PrefixBase(t))) else NotNumeric)
    else if IsSignedDigits(t) then IntText(SignedValue(t))
    else if IsDecimalForm(t) then DecimalForm
    else NotNumeric
  }

  /** Number(text) for string text: whitespace around the text is ignored and
      empty text is 0. */
  function NumberOf(text: string): NumText {
    NumberOfTrimmed(Trim(text))
  }

  /** Text made of a sign and digits has no surrounding whitespace. */
  lemma TrimSignedDigits(t: string)
    requires IsSignedDigits(t)
    ensures Trim(t) == t
  {
    assert !IsSpace(t[0]);
    assert !IsSpace(t[|t| - 1]);
  }

  /** Number() of an optional minus sign followed by digits without a
      leading zero is the integer they spell. */
  lemma NumberOfSignedDigits(t: string)
    requires IsSignedDigits(t) && t[0] != '+'
    requires t[0] == '0' ==> |t| == 1
    ensures NumberOf(t) == IntText(SignedValue(t))
  {
    TrimSignedDigits(t);
    assert t != "Infinity" && t != "+Infinity" by { assert t[0] != 'I' && t[0] != '+'; }
    assert t != "-Infinity" by {
      if t[0] == '-' { assert IsDigit(t[1..][0]); }
    }
    assert PrefixBase(t) == 0;
  }

  /** Number(String(n)) == n for every integer n. */
  lemma NumberOfDecimal(n: int)
    ensures NumberOf(IntToDecimal(n)) == IntText(n)
  {
    var m: nat := if n < 0 then -n else n;
    var d := NatToDecimal(m);
    DecimalRoundTrip(m);
    var t := IntToDecimal(n);
    if n < 0 {
      assert t[1..] == d;
    }
    NumberOfSignedDigits(t);
  }
}
