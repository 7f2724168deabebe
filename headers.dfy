/**
 * The regular expressions the interpreter matches statement headers with,
 * written out as leftmost-match searches:
 *
 *   def     /def\s+(\w+)\s*\((.*?)\):/
 *   class   /class\s+(\w+)(?:\(([^)]*)\))?:/
 *   for     /for\s+(\w+)\s+in\s+(.+):/
 *   except  /except\s+\w+\s+as\s+(\w+):/
 *
 * `\s` is JavaScript whitespace (line terminators included), `\w` is
 * [A-Za-z0-9_], and `.` is any character but a line terminator. Wherever a
 * greedy class is followed by a character outside that class the match is
 * deterministic; the one place backtracking changes the result is the `\s+`
 * before `(.+):` of the for header, and ForTail follows it.
 */
module Headers {
  import opened Wrappers
  import opened JsText

  /** The end of the run of \s characters starting at j. */
  function SkipSpaces(s: string, j: nat): (r: nat)
    requires j <= |s|
    ensures j <= r <= |s|
    ensures forall k :: j <= k < r ==> IsSpace(s[k])
    ensures r == |s| || !IsSpace(s[r])
    decreases |s| - j
  {
    if j < |s| && IsSpace(s[j]) then SkipSpaces(s, j + 1) else j
  }

  /** The end of the run of \w characters starting at j. */
  function SkipWord(s: string, j: nat): (r: nat)
    requires j <= |s|
    ensures j <= r <= |s|
    ensures forall k :: j <= k < r ==> IsWordChar(s[k])
    ensures r == |s| || !IsWordChar(s[r])
    decreases |s| - j
  {
    if j < |s| && IsWordChar(s[j]) then SkipWord(s, j + 1) else j
  }

  predicate IsWord(w: string) {
    |w| > 0 && forall k :: 0 <= k < |w| ==> IsWordChar(w[k])
  }

  predicate NoLineTerminator(s: string) {
    forall k :: 0 <= k < |s| ==> !IsLineTerminator(s[k])
  }

  // ---------------------------------------------------------------------------
  // def

  /** The name and parameter text of a def header matched at i. The lazy
      (.*?) stops at the first "):" after the parenthesis. */
  function DefAt(s: string, i: nat): (m: Option<(string, string)>)
    requires i <= |s|
    ensures m.Some? ==> IsWord(m.value.0) && NoLineTerminator(m.value.1)
  {
    if !OccursAt(s, "def", i) then None
    else
      var a := SkipSpaces(s, i + 3);
      var b := SkipWord(s, a);
      var c := SkipSpaces(s, b);
      if a == i + 3 || b == a || c == |s| || s[c] != '(' then None
      else
        var close := IndexOfFrom(s, "):", c + 1);
        if close < 0 || !NoLineTerminator(s[c + 1..close]) then None
        else
          Some((s[a..b], s[c + 1..close]))
  }

  /** line.match(/def\s+(\w+)\s*\((.*?)\):/), searched from position i. */
  function DefFrom(s: string, i: nat): Option<(string, string)>
    requires i <= |s|
    decreases |s| - i
  {
    if DefAt(s, i).Some? then DefAt(s, i)
    else if i == |s| then None
    else DefFrom(s, i + 1)
  }

  function DefHeader(line: string): Option<(string, string)> {
    DefFrom(line, 0)
  }

  // ---------------------------------------------------------------------------
  // class

  /** The class name of a class header matched at i: the name is followed by
      ':' directly, or by a parenthesised list without ')' inside and then ':'. */
  function ClassAt(s: string, i: nat): (m: Option<string>)
    requires i <= |s|
    ensures m.Some? ==> IsWord(m.value)
  {
    if !OccursAt(s, "class", i) then None
    else
      var a := SkipSpaces(s, i + 5);
      var b := SkipWord(s, a);
      if a == i + 5 || b == a || b == |s| then None
      else if s[b] == ':' then Some(s[a..b])
      else if s[b] == '(' then
        var close := IndexOfFrom(s, ")", b + 1);
        if close >= 0 && close + 1 < |s| && s[close + 1] == ':' then Some(s[a..b]) else None
      else None
  }

  function ClassFrom(s: string, i: nat): Option<string>
    requires i <= |s|
    decreases |s| - i
  {
    if ClassAt(s, i).Some? then ClassAt(s, i)
    else if i == |s| then None
    else ClassFrom(s, i + 1)
  }

  /** line.match(/class\s+(\w+)(?:\(([^)]*)\))?:/)[1]. */
  function ClassHeader(line: string): Option<string> {
    ClassFrom(line, 0)
  }

  // ---------------------------------------------------------------------------
  // for

  /** The first line terminator at or after j, or |s|. */
  function LineEnd(s: string, j: nat): (r: nat)
    requires j <= |s|
    ensures j <= r <= |s| && NoLineTerminator(s[j..r])
    ensures r < |s| ==> IsLineTerminator(s[r])
    decreases |s| - j
  {
    if j == |s| || IsLineTerminator(s[j]) then j
    else
      var r := LineEnd(s, j + 1);
      assert s[j..r] == [s[j]] + s[j + 1..r];
      r
  }

  /** (.+): with the group starting at g: the greedy group ends at the last ':'
      after g that no line terminator precedes. */
  function GroupToColon(s: string, g: nat): (m: Option<string>)
    requires g <= |s|
    ensures m.Some? ==> |m.value| > 0 && NoLineTerminator(m.value)
  {
    var e := LineEnd(s, g);
    if g == e then None
    else
      var last := LastIndexOfChar(s[g + 1..e], ':');
      if last < 0 then None
      else
        assert s[g..g + 1 + last] == s[g..e][..1 + last];
        Some(s[g..g + 1 + last])
  }

  /** `\s+(.+):` after "in", where s[d..g] is whitespace: the greedy \s+ first
      takes all of it, and gives back one character at a time while the rest
      does not match. */
  function ForTail(s: string, d: nat, g: nat): Option<string>
    requires d <= g <= |s|
    decreases g
  {
    if g == d then None
    else if GroupToColon(s, g).Some? then GroupToColon(s, g)
    else ForTail(s, d, g - 1)
  }

  /** The loop variable and the iterable text of a for header matched at i. */
  function ForAt(s: string, i: nat): (m: Option<(string, string)>)
    requires i <= |s|
    ensures m.Some? ==> IsWord(m.value.0)
  {
    if !OccursAt(s, "for", i) then None
    else
      var a := SkipSpaces(s, i + 3);
      var b := SkipWord(s, a);
      var c := SkipSpaces(s, b);
      if a == i + 3 || b == a || c == b || !OccursAt(s, "in", c) then None
      else
        var e := SkipSpaces(s, c + 2);
        match ForTail(s, c + 2, e)
        case Some(iterable) => Some((s[a..b], iterable))
        case None => None
  }

  function ForFrom(s: string, i: nat): Option<(string, string)>
    requires i <= |s|
    decreases |s| - i
  {
    if ForAt(s, i).Some? then ForAt(s, i)
    else if i == |s| then None
    else ForFrom(s, i + 1)
  }

  /** line.match(/for\s+(\w+)\s+in\s+(.+):/). */
  function ForHeader(line: string): Option<(string, string)> {
    ForFrom(line, 0)
  }

  // ---------------------------------------------------------------------------
  // except

  /** The bound name of an except header matched at i. */
  function ExceptAt(s: string, i: nat): (m: Option<string>)
    requires i <= |s|
    ensures m.Some? ==> IsWord(m.value)
  {
    if !OccursAt(s, "except", i) then None
    else
      var a := SkipSpaces(s, i + 6);
      var b := SkipWord(s, a);
      var c := SkipSpaces(s, b);
      if a == i + 6 || b == a || c == b || !OccursAt(s, "as", c) then None
      else
        var d := SkipSpaces(s, c + 2);
        var e := SkipWord(s, d);
        if d == c + 2 || e == d || e == |s| || s[e] != ':' then None
        else Some(s[d..e])
  }

  function ExceptFrom(s: string, i: nat): Option<string>
    requires i <= |s|
    decreases |s| - i
  {
    if ExceptAt(s, i).Some? then ExceptAt(s, i)
    else if i == |s| then None
    else ExceptFrom(s, i + 1)
  }

  /** exceptLine.match(/except\s+\w+\s+as\s+(\w+):/)[1]. */
  function ExceptName(line: string): Option<string> {
    ExceptFrom(line, 0)
  }

  /** \w+ from j stops after n word characters when the next is no word
      character. */
  lemma {:induction false} SkipWordOver(s: string, j: nat, n: nat)
    requires j + n <= |s| && forall k :: j <= k < j + n ==> IsWordChar(s[k])
    requires j + n == |s| || !IsWordChar(s[j + n])
    ensures SkipWord(s, j) == j + n
    decreases n
  {
    if n > 0 {
      SkipWordOver(s, j + 1, n - 1);
    }
  }

  /** \s* from j stops after one space when the next is no space. */
  lemma SkipOneSpace(s: string, j: nat)
    requires j + 1 < |s| && IsSpace(s[j]) && !IsSpace(s[j + 1])
    ensures SkipSpaces(s, j) == j + 1
  {
  }

  /** The pattern matches at 0 when `except`, one space, a word ending at b,
      one space, `as`, one space and a word from d to e followed by `:` make
      up s. */
  lemma ExceptAtWords(s: string, b: nat, d: nat, e: nat)
    requires 7 < b && d == b + 4 && d < e && e + 1 == |s|
    requires OccursAt(s, "except", 0) && s[6] == ' ' && s[b] == ' '
    requires OccursAt(s, "as", b + 1) && s[b + 3] == ' ' && s[e] == ':'
    requires forall k :: 7 <= k < b ==> IsWordChar(s[k])
    requires forall k :: d <= k < e ==> IsWordChar(s[k])
    ensures ExceptAt(s, 0) == Some(s[d..e])
  {
    SkipOneSpace(s, 6);
    SkipWordOver(s, 7, b - 7);
    SkipOneSpace(s, b);
    SkipOneSpace(s, b + 3);
    SkipWordOver(s, d, e - d);
  }

  /** The header `except X as y:`, for words X and y, is its own trim and
      names y as the variable the error is bound to. */
  lemma ExceptHeaderName(x: string, y: string)
    requires IsWord(x) && IsWord(y)
    ensures Trim("except " + x + " as " + y + ":") == "except " + x + " as " + y + ":"
    ensures ExceptName("except " + x + " as " + y + ":") == Some(y)
  {
    var s := "except " + x + " as " + y + ":";
    var b := 7 + |x|;
    var d := b + 4;
    var e := d + |y|;
    assert s[0..6] == "except";
    assert s[b + 1..b + 3] == "as";
    forall k | 7 <= k < b
      ensures IsWordChar(s[k])
    {
      assert s[k] == x[k - 7];
    }
    forall k | d <= k < e
      ensures IsWordChar(s[k])
    {
      assert s[k] == y[k - d];
    }
    assert s[d..e] == y;
    ExceptAtWords(s, b, d, e);
    TrimUntouched(s);
  }
}
