/**
 * The statements of the Python-like language: executeLine's dispatch, the
 * block scan (findBlockEnd and its four copies), the def/class/import/try/
 * assignment/print/for/while/if handlers, and the driver of
 * executePythonLikeCode.
 *
 * A handler returns how many lines it consumed. A body (of a loop, a branch,
 * a try or a handler) is run by dispatching each of its non-blank lines with
 * the body itself as the line list and index 0, and the counts are ignored:
 * a header inside a body therefore finds its own block relative to the first
 * line of the body, and the lines of a nested block also run as lines of the
 * enclosing body. Every such nested dispatch works on a strictly shorter list,
 * which is the termination measure.
 */
module Statement {
  import opened Wrappers
  import opened JsText
  import opened JsValue
  import opened Headers
  import opened Expression

  /** An entry of the functions table that a def statement fills. */
  datatype FunctionDef = FunctionDef(params: seq<string>, body: seq<string>)

  /** The interpreter's state: the variables, the heap behind lists and
      objects, the output buffer and the functions table. */
  datatype State = State(vars: Vars, heap: Heap, out: seq<string>, functions: map<string, FunctionDef>)

  /** Output is only ever pushed and heap cells only ever added: every state
      an outcome carries keeps the lines printed before it as a prefix and
      every cell allocated before it. */
  predicate Grows<T>(st: State, r: Outcome<State, T>) {
    (r.Ok? || r.Raise?) ==> st.out <= r.st.out && |st.heap| <= |r.st.heap|
  }

  // ---------------------------------------------------------------------------
  // the block scan

  predicate Blank(line: string) {
    Trim(line) == ""
  }

  /** The scan loop: k is the line under inspection and indent the width in
      force (0 until a line with a nonzero indentation sets it). */
  function BlockScan(lines: seq<string>, k: nat, indent: nat): (r: nat)
    ensures r >= k && (k <= |lines| ==> r <= |lines|)
    decreases |lines| - k
  {
    if k >= |lines| then k
    else if Blank(lines[k]) then BlockScan(lines, k + 1, indent)
    else
      var w := Indent(lines[k]);
      var width := if indent == 0 then w else indent;
      if w < width then k else BlockScan(lines, k + 1, width)
  }

  /** findBlockEnd(lines, start): the index just past the block under the
      header at start. */
  function BlockEnd(lines: seq<string>, start: nat): (r: nat)
    ensures start + 1 <= r
    ensures start < |lines| ==> r <= |lines|
  {
    BlockScan(lines, start + 1, 0)
  }

  /** The first nonzero indentation among the non-blank lines in [from, upto), or 0. */
  function FirstWidth(lines: seq<string>, from: nat, upto: nat): nat
    requires upto <= |lines|
    decreases upto
  {
    if upto <= from then 0
    else if FirstWidth(lines, from, upto - 1) != 0 then FirstWidth(lines, from, upto - 1)
    else if Blank(lines[upto - 1]) then 0
    else Indent(lines[upto - 1])
  }

  /** Line j closes the block opened at start: it is not blank and is indented
      less than the first nonzero indentation found after the header. */
  predicate Closes(lines: seq<string>, start: nat, j: nat)
    requires start < j < |lines|
  {
    !Blank(lines[j]) && Indent(lines[j]) < FirstWidth(lines, start + 1, j)
  }

  /** The first line from j on that closes the block opened at start, or the
      end of the list. */
  function FirstClosing(lines: seq<string>, start: nat, j: nat): (r: nat)
    requires start < j <= |lines|
    ensures j <= r <= |lines|
    decreases |lines| - j
  {
    if j == |lines| || Closes(lines, start, j) then j else FirstClosing(lines, start, j + 1)
  }

  lemma {:induction false} FirstClosingIsFirst(lines: seq<string>, start: nat, k: nat)
    requires start < k <= |lines|
    ensures forall j :: k <= j < FirstClosing(lines, start, k) ==> !Closes(lines, start, j)
    ensures FirstClosing(lines, start, k) < |lines| ==> Closes(lines, start, FirstClosing(lines, start, k))
    decreases |lines| - k
  {
    if k < |lines| && !Closes(lines, start, k) {
      FirstClosingIsFirst(lines, start, k + 1);
      forall j | k <= j < FirstClosing(lines, start, k)
        ensures !Closes(lines, start, j)
      {
        if j > k {
          assert k + 1 <= j < FirstClosing(lines, start, k + 1);
        }
      }
    }
  }

  lemma {:induction false} BlockScanIsFirstClosing(lines: seq<string>, start: nat, k: nat, indent: nat)
    requires start < k <= |lines|
    requires indent == FirstWidth(lines, start + 1, k)
    ensures BlockScan(lines, k, indent) == FirstClosing(lines, start, k)
    decreases |lines| - k
  {
    if k < |lines| {
      var next := ScanStep(lines, start, k, indent);
      if BlockScan(lines, k, indent) != k {
        BlockScanIsFirstClosing(lines, start, k + 1, next);
      }
    }
  }

  /** One step of the scan: the width it carries on is the first width up to
      line k, and it stops at k exactly when line k closes the block. */
  lemma ScanStep(lines: seq<string>, start: nat, k: nat, indent: nat) returns (next: nat)
    requires start < k < |lines|
    requires indent == FirstWidth(lines, start + 1, k)
    ensures next == FirstWidth(lines, start + 1, k + 1)
    ensures BlockScan(lines, k, indent) == k <==> Closes(lines, start, k)
    ensures BlockScan(lines, k, indent) != k ==> BlockScan(lines, k, indent) == BlockScan(lines, k + 1, next)
  {
    var w := Indent(lines[k]);
    next := if Blank(lines[k]) || indent != 0 then indent else w;
  }

  /** findBlockEnd stops at the first later line that closes the block, or at
      the end of the list; zero-indented lines before the first indented one
      never close it, and the header's own indentation is never consulted. */
  lemma BlockEndIsFirstClosing(lines: seq<string>, start: nat)
    requires start < |lines|
    ensures BlockEnd(lines, start) == FirstClosing(lines, start, start + 1)
    ensures forall j :: start < j < BlockEnd(lines, start) ==> !Closes(lines, start, j)
    ensures BlockEnd(lines, start) < |lines| ==> Closes(lines, start, BlockEnd(lines, start))
  {
    BlockScanIsFirstClosing(lines, start, start + 1, 0);
    FirstClosingIsFirst(lines, start, start + 1);
  }

  lemma {:induction false} BlockScanFrom(lines: seq<string>, other: seq<string>, k: nat, indent: nat)
    requires |lines| == |other| && k <= |lines|
    requires forall j :: k <= j < |lines| ==> lines[j] == other[j]
    ensures BlockScan(lines, k, indent) == BlockScan(other, k, indent)
    decreases |lines| - k
  {
    if k < |lines| {
      BlockScanFrom(lines, other, k + 1, if Blank(lines[k]) || indent != 0 then indent else Indent(lines[k]));
    }
  }

  /** Replacing the header line does not move the end of its block. */
  lemma BlockEndIgnoresHeader(lines: seq<string>, start: nat, header: string)
    requires start < |lines|
    ensures BlockEnd(lines[start := header], start) == BlockEnd(lines, start)
  {
    BlockScanFrom(lines, lines[start := header], start + 1, 0);
  }

  // ---------------------------------------------------------------------------
  // dispatch

  /** A line executeLine treats as an assignment: it has '=' and none of
      "==", "!=", "<=", ">=". */
  predicate IsAssignment(line: string) {
    Contains(line, "=") && !Contains(line, "==") && !Contains(line, "!=")
    && !Contains(line, "<=") && !Contains(line, ">=")
  }

  /** executeLine(line, allLines, currentIndex): the cases in their order of
      precedence; a line that matches none consumes one line and does nothing. */
  function ExecLine(line: string, lines: seq<string>, idx: nat, st: State): (r: Outcome<State, nat>)
    requires idx < |lines|
    ensures Grows(st, r)
    decreases |lines|, 3, 0
  {
    if StartsWith(line, "def ") then Define(line, lines, idx, st)
    else if StartsWith(line, "class ") then DefineClass(line, lines, idx, st)
    else if StartsWith(line, "import ") || StartsWith(line, "from ") then Ok(1, Import(line, st))
    else if StartsWith(line, "try:") then TryExcept(lines, idx, st)
    else if IsAssignment(line) then Assign(line, st)
    else if StartsWith(line, "print(") then Print(line, st)
    else if StartsWith(line, "for ") then ForLoop(line, lines, idx, st)
    else if StartsWith(line, "while ") then WhileLoop(line, lines, idx, st)
    else if StartsWith(line, "if ") || StartsWith(line, "elif ") || StartsWith(line, "else:") then IfChain(lines, idx, idx, st)
    else if Contains(line, "(") && Contains(line, ")") then EvalStatement(line, st)
    else Ok(1, st)
  }

  /** A line with parentheses evaluated for its effect on the heap (a call of
      append or pop); its value is dropped. */
  function EvalStatement(line: string, st: State): (r: Outcome<State, nat>)
    ensures Grows(st, r)
    ensures r.Ok? ==> r.val == 1 && r.st.vars == st.vars && r.st.out == st.out
  {
    match Eval(line, st.vars, st.heap)
    case Ok(_, h) => Ok(1, st.(heap := h))
    case Raise(err, h) => Raise(err, st.(heap := h))
    case Hangs => Hangs
    case Unmodelled => Unmodelled
  }

  /** executeLine(line, ..., allLines, idx) as the driver and a block body
      call it. Dispatch and Route only pass the call on: the two layers keep
      the verifier from unfolding every statement handler wherever a call of
      Dispatch is mentioned, and a proof that needs the handlers unfolds
      them through ExecLine. */
  function Dispatch(line: string, lines: seq<string>, idx: nat, st: State): (r: Outcome<State, nat>)
    requires idx < |lines|
    ensures Grows(st, r)
    decreases |lines|, 3, 2
  {
    Route(line, lines, idx, st)
  }

  /** The inner layer of Dispatch. */
  function Route(line: string, lines: seq<string>, idx: nat, st: State): (r: Outcome<State, nat>)
    requires idx < |lines|
    ensures Grows(st, r)
    decreases |lines|, 3, 1
  {
    ExecLine(line, lines, idx, st)
  }

  /** Run the lines of a body from index k: each non-blank line is dispatched
      with the body as the line list and index 0. */
  function RunBody(body: seq<string>, k: nat, st: State): (r: Outcome<State, ()>)
    ensures Grows(st, r)
    decreases |body|, 4, |body| - k
  {
    if k >= |body| then Ok((), st)
    else if Blank(body[k]) then RunBody(body, k + 1, st)
    else
      match Dispatch(Trim(body[k]), body, 0, st)
      case Ok(_, st1) => RunBody(body, k + 1, st1)
      case Raise(err, st1) => Raise(err, st1)
      case Hangs => Hangs
      case Unmodelled => Unmodelled
  }

  // ---------------------------------------------------------------------------
  // def, class, import

  /** The parameter names: split at commas, trimmed, empty ones dropped. */
  function Params(text: string): (ps: seq<string>)
    ensures forall k :: 0 <= k < |ps| ==> ps[k] != ""
  {
    NonEmpty(TrimAll(Split(text, ",")))
  }

  function NonEmpty(names: seq<string>): (r: seq<string>)
    ensures forall k :: 0 <= k < |r| ==> r[k] != ""
    ensures |r| <= |names|
  {
    if names == [] then []
    else if names[0] == "" then NonEmpty(names[1..])
    else [names[0]] + NonEmpty(names[1..])
  }

  /** parseFunction: a header that matches stores the function in the
      functions table and consumes the header and its block. The table is
      never read by expression evaluation, so a def changes no binding, no
      list and no output. */
  function Define(line: string, lines: seq<string>, idx: nat, st: State): (r: Outcome<State, nat>)
    requires idx < |lines|
    ensures r.Ok? && r.val >= 1
    ensures r.st.vars == st.vars && r.st.heap == st.heap && r.st.out == st.out
    ensures DefHeader(line).None? ==> r == Ok(1, st)
    ensures DefHeader(line).Some? ==> r.val == BlockEnd(lines, idx) - idx && DefHeader(line).value.0 in r.st.functions
  {
    match DefHeader(line)
    case None => Ok(1, st)
    case Some((name, params)) =>
      var end := BlockEnd(lines, idx);
      Ok(end - idx, st.(functions := st.functions[name := FunctionDef(Params(params), lines[idx + 1..end])]))
  }

  /** parseClass: a header that matches binds the class name to a constructor
      (a fresh heap reference) and consumes the header and its block. */
  function DefineClass(line: string, lines: seq<string>, idx: nat, st: State): (r: Outcome<State, nat>)
    requires idx < |lines|
    ensures r.Ok? && r.val >= 1 && r.st.out == st.out
    ensures ClassHeader(line).None? ==> r == Ok(1, st)
    ensures ClassHeader(line).Some? ==>
      r.val == BlockEnd(lines, idx) - idx
      && r.st.vars == st.vars[ClassHeader(line).value := ClassFn(|st.heap|)]
      && r.st.heap == st.heap + [[]]
  {
    match ClassHeader(line)
    case None => Ok(1, st)
    case Some(name) =>
      var end := BlockEnd(lines, idx);
      Ok(end - idx, st.(vars := st.vars[name := ClassFn(|st.heap|)], heap := st.heap + [[]]))
  }

  /** handleImport: only the two exact lines bind anything. */
  function Import(line: string, st: State): (r: State)
    ensures r.out == st.out && |r.heap| >= |st.heap|
    ensures line != "import base64" && line != "import threading" ==> r == st
    ensures line == "import base64" ==> "base64" in r.vars && r.vars["base64"] == Host(Base64, |st.heap|)
    ensures line == "import threading" ==> "threading" in r.vars && r.vars["threading"] == Host(Threading, |st.heap|)
  {
    if line == "import base64" then st.(vars := st.vars["base64" := Host(Base64, |st.heap|)], heap := st.heap + [[]])
    else if line == "import threading" then st.(vars := st.vars["threading" := Host(Threading, |st.heap|)], heap := st.heap + [[]])
    else st
  }

  // ---------------------------------------------------------------------------
  // assignment and print

  /** The name and value texts of an assignment: line.split('=', 2), trimmed. */
  function AssignParts(line: string): (string, string)
    requires Contains(line, "=")
  {
    var pieces := Split(line, "=");
    SplitWhenContains(line, "=");
    (Trim(pieces[0]), Trim(pieces[1]))
  }

  /** split('=', 2): the name is the text before the first '=' and the value
      the text up to the next '=' (or the end), so `x += 1` binds the name
      "x +" and in `a = b = c` the text "= c" is lost. */
  lemma AssignSplitsAtFirstEquals(line: string)
    requires Contains(line, "=")
    ensures AssignParts(line).0 == Trim(line[..IndexOf(line, "=")])
    ensures var i := IndexOf(line, "="); var j := IndexOfFrom(line, "=", i + 1);
      AssignParts(line).1 == Trim(if j < 0 then line[i + 1..] else line[i + 1..j])
  {
    var i := IndexOf(line, "=");
    SplitFromStep(line, "=", 0);
    SplitFromStep(line, "=", i + 1);
  }

  /** The example of the compound operator: `x += 1` binds "x +". */
  lemma PlusEqualsBindsOddName()
    ensures AssignParts("x += 1").0 == "x +"
  {
    PlusEqualsText();
    AssignSplitsAtFirstEquals("x += 1");
  }

  lemma PlusEqualsText()
    ensures Contains("x += 1", "=") && IndexOf("x += 1", "=") == 3
    ensures Trim("x += 1"[..3]) == "x +"
  {
    var line := "x += 1";
    IndexOfCharStep(line, '=', 0);
    IndexOfCharStep(line, '=', 1);
    IndexOfCharStep(line, '=', 2);
    IndexOfCharStep(line, '=', 3);
    assert line[..3] == "x +";
    TrimUntouched("x +");
  }

  function Assign(line: string, st: State): (r: Outcome<State, nat>)
    requires Contains(line, "=")
    ensures Grows(st, r)
    ensures r.Ok? ==>
      (r.val == 1 && r.st.out == st.out && AssignParts(line).0 in r.st.vars
       && r.st.vars == st.vars[AssignParts(line).0 := r.st.vars[AssignParts(line).0]])
    ensures r.Raise? ==> r.st.vars == st.vars && r.st.out == st.out
  {
    var (name, value) := AssignParts(line);
    match Eval(value, st.vars, st.heap)
    case Ok(v, h) => Ok(1, st.(vars := st.vars[name := v], heap := h))
    case Raise(err, h) => Raise(err, st.(heap := h))
    case Hangs => Hangs
    case Unmodelled => Unmodelled
  }

  /** print(...): only the first argument is evaluated, and its String() form
      is pushed onto the output; print() raises while evaluating a missing
      argument. */
  function Print(line: string, st: State): (r: Outcome<State, nat>)
    ensures Grows(st, r)
    ensures r.Ok? ==> r.val == 1 && r.st.vars == st.vars && |r.st.out| == |st.out| + 1 && r.st.out[..|st.out|] == st.out
    ensures r.Raise? ==> r.st.vars == st.vars && r.st.out == st.out
    ensures ExtractArgs(line) == [] ==> r == Raise(MissingArgument, st)
  {
    var args := ExtractArgs(line);
    if args == [] then Raise(MissingArgument, st)
    else
      match Eval(args[0], st.vars, st.heap)
      case Ok(v, h) => Ok(1, st.(heap := h, out := st.out + [ToStr(v, h)]))
      case Raise(err, h) => Raise(err, st.(heap := h))
      case Hangs => Hangs
      case Unmodelled => Unmodelled
  }

  /** Only the text before the first comma inside the parentheses is
      evaluated, and its String() form is the line printed. */
  lemma PrintFirstArgument(line: string, st: State)
    requires ExtractArgs(line) != [] && Eval(ExtractArgs(line)[0], st.vars, st.heap).Ok?
    ensures var o := Eval(ExtractArgs(line)[0], st.vars, st.heap);
      Print(line, st) == Ok(1, st.(heap := o.st, out := st.out + [ToStr(o.val, o.st)]))
  {
  }

  // ---------------------------------------------------------------------------
  // for

  /** parseForLoop: the iterable is evaluated once; a list is walked element
      by element, a non-list runs nothing; either way the header and its block
      are consumed. */
  function ForLoop(line: string, lines: seq<string>, idx: nat, st: State): (r: Outcome<State, nat>)
    requires idx < |lines|
    ensures Grows(st, r)
    ensures r.Ok? ==> r.val == if ForHeader(line).None? then 1 else BlockEnd(lines, idx) - idx
    decreases |lines|, 2
  {
    match ForHeader(line)
    case None => Ok(1, st)
    case Some((name, iterable)) =>
      match Eval(iterable, st.vars, st.heap)
      case Ok(v, h) =>
        var end := BlockEnd(lines, idx);
        var st1 := st.(heap := h);
        if !v.List? then Ok(end - idx, st1)
        else
          (match ForEach(name, v.ref, 0, |Cell(h, v.ref)|, lines[idx + 1..end], st1)
           case Ok(_, st2) => Ok(end - idx, st2)
           case Raise(err, st2) => Raise(err, st2)
           case Hangs => Hangs
           case Unmodelled => Unmodelled)
      case Raise(err, h) => Raise(err, st.(heap := h))
      case Hangs => Hangs
      case Unmodelled => Unmodelled
  }

  /** The array iteration from element k: the length is read afresh at every
      step, as the array iterator does. The model follows a walk only while
      the list is no longer than when the loop began (n0); a list that grows
      past that is not followed. */
  function ForEach(name: string, r: nat, k: nat, n0: nat, body: seq<string>, st: State): (o: Outcome<State, ()>)
    ensures Grows(st, o)
    decreases |body|, 5, n0 - k
  {
    var items := Cell(st.heap, r);
    if k >= |items| then Ok((), st)
    else if |items| > n0 then Unmodelled
    else
      match RunBody(body, 0, st.(vars := st.vars[name := items[k]]))
      case Ok(_, st1) => ForEach(name, r, k + 1, n0, body, st1)
      case Raise(err, st1) => Raise(err, st1)
      case Hangs => Hangs
      case Unmodelled => Unmodelled
  }

  /** A for loop over a value that is not a list runs nothing and consumes
      the header and its block. */
  lemma ForOverNonList(line: string, lines: seq<string>, idx: nat, st: State)
    requires idx < |lines| && ForHeader(line).Some?
    requires Eval(ForHeader(line).value.1, st.vars, st.heap).Ok?
    requires !Eval(ForHeader(line).value.1, st.vars, st.heap).val.List?
    ensures ForLoop(line, lines, idx, st)
            == Ok(BlockEnd(lines, idx) - idx, st.(heap := Eval(ForHeader(line).value.1, st.vars, st.heap).st))
  {
  }

  /** The loop variable lives in the shared environment: after a walk over
      a non-empty list with nothing in the body it holds the last element,
      and nothing else has changed. */
  lemma {:induction false} ForEachLeavesLast(name: string, r: nat, k: nat, n0: nat, st: State)
    requires k < |Cell(st.heap, r)| <= n0
    ensures ForEach(name, r, k, n0, [], st)
            == Ok((), st.(vars := st.vars[name := Cell(st.heap, r)[|Cell(st.heap, r)| - 1]]))
    decreases |Cell(st.heap, r)| - k
  {
    var items := Cell(st.heap, r);
    var st1 := st.(vars := st.vars[name := items[k]]);
    assert RunBody([], 0, st1) == Ok((), st1);
    assert Cell(st1.heap, r) == items;
    if k + 1 < |items| {
      ForEachLeavesLast(name, r, k + 1, n0, st1);
      assert st1.(vars := st1.vars[name := items[|items| - 1]]) == st.(vars := st.vars[name := items[|items| - 1]]);
    }
  }

  /** Text that evaluates as a variable name: none of the earlier cases of
      evaluateExpression applies to it. */
  predicate PlainName(e: string) {
    Trim(e) == e && e != "None" && e != "True" && e != "False" && !IsQuoted(e) && NumberOf(e) == NotNumeric
    && !StartsWith(e, "[") && !Contains(e, "(") && !Contains(e, ".")
  }

  /** A loop whose body is the single line print(name), name being the loop
      variable, dispatches that line once per item in order: it prints the
      String() of every remaining item, leaves the heap alone, and leaves the
      variable holding the last item. */
  lemma {:induction false} ForPrintsEachItem(name: string, r: nat, items: seq<Value>, k: nat, n0: nat, b: string, st: State)
    requires !Blank(b) && StartsWith(Trim(b), "print(") && !IsAssignment(Trim(b))
    requires ExtractArgs(Trim(b)) != [] && ExtractArgs(Trim(b))[0] == name && PlainName(name)
    requires Cell(st.heap, r) == items && k < |items| <= n0
    requires forall j :: k <= j < |items| ==> items[j] != Undefined
    ensures ForEach(name, r, k, n0, [b], st)
      == Ok((), st.(vars := st.vars[name := items[|items| - 1]], out := st.out + Texts(items[k..], st.heap)))
    decreases |items| - k
  {
    var st1 := st.(vars := st.vars[name := items[k]], out := st.out + [ToStr(items[k], st.heap)]);
    if k + 1 < |items| {
      ForPrintsEachItem(name, r, items, k + 1, n0, b, st1);
    }
    ForPrintsOne(name, r, k, n0, b, st);
    ForPrintsOnward(name, r, items, k, n0, b, st);
  }

  /** One iteration of that loop followed by the rest of the loop. */
  lemma ForPrintsOnward(name: string, r: nat, items: seq<Value>, k: nat, n0: nat, b: string, st: State)
    requires Cell(st.heap, r) == items && k < |items| <= n0
    requires var st1 := st.(vars := st.vars[name := items[k]], out := st.out + [ToStr(items[k], st.heap)]);
      ForEach(name, r, k, n0, [b], st) == ForEach(name, r, k + 1, n0, [b], st1)
    requires var st1 := st.(vars := st.vars[name := items[k]], out := st.out + [ToStr(items[k], st.heap)]);
      k + 1 < |items| ==>
        ForEach(name, r, k + 1, n0, [b], st1)
        == Ok((), st1.(vars := st1.vars[name := items[|items| - 1]], out := st1.out + Texts(items[k + 1..], st1.heap)))
    ensures ForEach(name, r, k, n0, [b], st)
      == Ok((), st.(vars := st.vars[name := items[|items| - 1]], out := st.out + Texts(items[k..], st.heap)))
  {
    var st1 := st.(vars := st.vars[name := items[k]], out := st.out + [ToStr(items[k], st.heap)]);
    if k + 1 == |items| {
      ForEachDone(name, r, k + 1, n0, [b], st1);
    }
    PrintedFrom(name, items, k, st);
  }

  /** Binding and printing item k, then the rest, is binding the last item
      and printing items k onwards. */
  lemma PrintedFrom(name: string, items: seq<Value>, k: nat, st: State)
    requires k < |items|
    ensures var st1 := st.(vars := st.vars[name := items[k]], out := st.out + [ToStr(items[k], st.heap)]);
      var last := items[|items| - 1];
      (k + 1 < |items| ==> st1.(vars := st1.vars[name := last], out := st1.out + Texts(items[k + 1..], st1.heap))
                           == st.(vars := st.vars[name := last], out := st.out + Texts(items[k..], st.heap)))
      && (k + 1 == |items| ==> st1 == st.(vars := st.vars[name := last], out := st.out + Texts(items[k..], st.heap)))
  {
    var last := items[|items| - 1];
    TextsFrom(items, k, st.heap);
    assert st.vars[name := items[k]][name := last] == st.vars[name := last];
    if k + 1 < |items| {
      AppendThenRest(st.out, ToStr(items[k], st.heap), Texts(items[k + 1..], st.heap), Texts(items[k..], st.heap));
    }
  }

  /** Printing x and then the rest prints the whole when the whole is x
      followed by the rest. */
  lemma AppendThenRest(out: seq<string>, x: string, rest: seq<string>, whole: seq<string>)
    requires whole == [x] + rest
    ensures (out + [x]) + rest == out + whole
  {
  }

  /** The texts of items k onwards are the text of item k, then the rest. */
  lemma TextsFrom(items: seq<Value>, k: nat, heap: Heap)
    requires k < |items|
    ensures Texts(items[k..], heap) == [ToStr(items[k], heap)] + Texts(items[k + 1..], heap)
  {
  }

  /** One iteration of that loop binds the item and prints it. */
  lemma ForPrintsOne(name: string, r: nat, k: nat, n0: nat, b: string, st: State)
    requires !Blank(b) && StartsWith(Trim(b), "print(") && !IsAssignment(Trim(b))
    requires ExtractArgs(Trim(b)) != [] && ExtractArgs(Trim(b))[0] == name && PlainName(name)
    requires k < |Cell(st.heap, r)| <= n0 && Cell(st.heap, r)[k] != Undefined
    ensures var v := Cell(st.heap, r)[k];
      ForEach(name, r, k, n0, [b], st)
      == ForEach(name, r, k + 1, n0, [b], st.(vars := st.vars[name := v], out := st.out + [ToStr(v, st.heap)]))
  {
    var v := Cell(st.heap, r)[k];
    var st0 := st.(vars := st.vars[name := v]);
    PrintNameStep(name, v, b, st0);
    ForEachOk(name, r, k, n0, [b], st, st0.(out := st0.out + [ToStr(v, st0.heap)]));
  }

  /** An iteration whose body completes goes on with the next item. */
  lemma ForEachOk(name: string, r: nat, k: nat, n0: nat, body: seq<string>, st: State, st1: State)
    requires k < |Cell(st.heap, r)| <= n0
    requires RunBody(body, 0, st.(vars := st.vars[name := Cell(st.heap, r)[k]])) == Ok((), st1)
    ensures ForEach(name, r, k, n0, body, st) == ForEach(name, r, k + 1, n0, body, st1)
  {
  }

  /** Past the last item the loop stops. */
  lemma ForEachDone(name: string, r: nat, k: nat, n0: nat, body: seq<string>, st: State)
    requires k >= |Cell(st.heap, r)|
    ensures ForEach(name, r, k, n0, body, st) == Ok((), st)
  {
  }

  /** One pass over the body print(name) with name bound to v prints
      String(v) and changes nothing else. */
  lemma PrintNameStep(name: string, v: Value, b: string, st: State)
    requires !Blank(b) && StartsWith(Trim(b), "print(") && !IsAssignment(Trim(b))
    requires ExtractArgs(Trim(b)) != [] && ExtractArgs(Trim(b))[0] == name && PlainName(name)
    requires name in st.vars && st.vars[name] == v && v != Undefined
    ensures RunBody([b], 0, st) == Ok((), st.(out := st.out + [ToStr(v, st.heap)]))
  {
    var line := Trim(b);
    var st1 := st.(out := st.out + [ToStr(v, st.heap)]);
    EvalBoundName(name, st.vars, st.heap);
    PrintFirstArgument(line, st);
    assert Print(line, st) == Ok(1, st1);
    PrintTextIsPrint(line, [b], 0, st);
    assert RunBody([b], 1, st1) == Ok((), st1);
  }

  /** A line that begins "print(" and is not an assignment goes to the print
      handler. */
  lemma PrintTextIsPrint(line: string, lines: seq<string>, i: nat, st: State)
    requires i < |lines| && StartsWith(line, "print(") && !IsAssignment(line)
    ensures Dispatch(line, lines, i, st) == Print(line, st)
  {
    assert line[..6] == "print(";
    assert line[0] == 'p' && line[1] == 'r';
    assert !StartsWith(line, "def ") && !StartsWith(line, "class ") && !StartsWith(line, "import ");
    assert !StartsWith(line, "from ") && !StartsWith(line, "try:");
    assert Dispatch(line, lines, i, st) == ExecLine(line, lines, i, st);
  }

  // ---------------------------------------------------------------------------
  // while

  /** The largest number of times a while body runs. */
  const MaxIterations := 1000

  /** parseWhileLoop: the condition is the text between "while " and the last
      character of the line. */
  function WhileLoop(line: string, lines: seq<string>, idx: nat, st: State): (r: Outcome<State, nat>)
    requires idx < |lines|
    ensures Grows(st, r)
    ensures r.Ok? ==> r.val == BlockEnd(lines, idx) - idx
    decreases |lines|, 2
  {
    var end := BlockEnd(lines, idx);
    match WhileFrom(Substring(line, 6, |line| - 1), lines[idx + 1..end], 0, st)
    case Ok(_, st1) => Ok(end - idx, st1)
    case Raise(err, st1) => Raise(err, st1)
    case Hangs => Hangs
    case Unmodelled => Unmodelled
  }

  /** The while loop after `iterations` runs of the body: the condition is
      evaluated first and the cap tested second. The result is the final
      value of `iterations`. */
  function WhileFrom(cond: string, body: seq<string>, iterations: nat, st: State): (r: Outcome<State, nat>)
    requires iterations <= MaxIterations
    ensures r.Ok? ==> iterations <= r.val <= MaxIterations
    ensures Grows(st, r)
    decreases |body|, 5, MaxIterations - iterations
  {
    match Eval(cond, st.vars, st.heap)
    case Ok(v, h) =>
      if Truthy(v) && iterations < MaxIterations then
        match RunBody(body, 0, st.(heap := h))
        case Ok(_, st1) => WhileFrom(cond, body, iterations + 1, st1)
        case Raise(err, st1) => Raise(err, st1)
        case Hangs => Hangs
        case Unmodelled => Unmodelled
      else Ok(iterations, st.(heap := h))
    case Raise(err, h) => Raise(err, st.(heap := h))
    case Hangs => Hangs
    case Unmodelled => Unmodelled
  }

  /** At the cap the loop stops without running the body again and without
      complaint, whatever the condition says. */
  lemma WhileStopsAtCap(cond: string, body: seq<string>, st: State)
    requires Eval(cond, st.vars, st.heap).Ok?
    ensures WhileFrom(cond, body, MaxIterations, st) == Ok(MaxIterations, st.(heap := Eval(cond, st.vars, st.heap).st))
  {
  }

  lemma EvalTrue(vars: Vars, heap: Heap)
    ensures Eval("True", vars, heap) == Ok(Bool(true), heap)
  {
  }

  /** `while True:` over an empty body runs to the cap: the body 1000 times
      and the condition 1001 times, and the loop then ends silently. */
  lemma {:induction false} WhileTrueRunsToCap(body: seq<string>, iterations: nat, st: State)
    requires iterations <= MaxIterations && body == []
    ensures WhileFrom("True", body, iterations, st) == Ok(MaxIterations, st)
    decreases MaxIterations - iterations
  {
    EvalTrue(st.vars, st.heap);
    if iterations < MaxIterations {
      assert RunBody(body, 0, st.(heap := st.heap)) == Ok((), st);
      WhileTrueRunsToCap(body, iterations + 1, st);
    }
  }

  // ---------------------------------------------------------------------------
  // if / elif / else

  /** parseIfStatement from the chain line cur: the first if/elif whose
      condition is truthy runs its body and the chain returns right after that
      body (later elif/else lines are left to the caller); a false condition
      skips to the end of its block; an exact `else:` runs its body; any other
      line ends the chain. The `executed` flag of the source is never true
      when it is read, so it has no counterpart here. */
  function IfChain(lines: seq<string>, idx: nat, cur: nat, st: State): (r: Outcome<State, nat>)
    requires idx <= cur
    ensures Grows(st, r)
    ensures r.Ok? ==> r.val >= cur - idx
    decreases |lines|, 2, |lines| - cur
  {
    if cur >= |lines| then Ok(cur - idx, st)
    else
      var cl := Trim(lines[cur]);
      if StartsWith(cl, "if ") || StartsWith(cl, "elif ") then
        match Eval(Condition(cl), st.vars, st.heap)
        case Ok(v, h) =>
          if Truthy(v) then RunBlock(lines, idx, cur, st.(heap := h))
          else IfChain(lines, idx, BlockEnd(lines, cur), st.(heap := h))
        case Raise(err, h) => Raise(err, st.(heap := h))
        case Hangs => Hangs
        case Unmodelled => Unmodelled
      else if cl == "else:" then RunBlock(lines, idx, cur, st)
      else Ok(cur - idx, st)
  }

  /** A line the chain handler treats as a branch: an if, an elif or a bare else. */
  predicate IsChainHeader(cl: string) {
    StartsWith(cl, "if ") || StartsWith(cl, "elif ") || cl == "else:"
  }

  /** A chain started at a header consumes at least that header: a taken
      branch reaches to the end of its body, a false one goes on from the
      end of its block. */
  lemma ChainHeaderConsumes(lines: seq<string>, idx: nat, cur: nat, st: State)
    requires idx <= cur < |lines| && IsChainHeader(Trim(lines[cur]))
    ensures var r := IfChain(lines, idx, cur, st); r.Ok? ==> r.val > cur - idx
  {
    var cl := Trim(lines[cur]);
    if StartsWith(cl, "if ") || StartsWith(cl, "elif ") {
      var e := Eval(Condition(cl), st.vars, st.heap);
      if e.Ok? && !Truthy(e.val) {
        var r := IfChain(lines, idx, BlockEnd(lines, cur), st.(heap := e.st));
        assert r.Ok? ==> r.val >= BlockEnd(lines, cur) - idx;
      }
    }
  }

  /** The condition of an if/elif header: from after the first space to
      before the last character. */
  function Condition(header: string): string {
    Substring(header, IndexOf(header, " ") + 1, |header| - 1)
  }

  /** The first truthy branch ends the call: what is consumed reaches exactly
      to the end of that branch's body, so a later elif or else line is left
      for the caller to dispatch. */
  lemma TakenBranchEndsChain(lines: seq<string>, idx: nat, cur: nat, st: State)
    requires idx <= cur < |lines|
    requires StartsWith(Trim(lines[cur]), "if ") || StartsWith(Trim(lines[cur]), "elif ")
    requires Eval(Condition(Trim(lines[cur])), st.vars, st.heap).Ok?
    requires Truthy(Eval(Condition(Trim(lines[cur])), st.vars, st.heap).val)
    ensures IfChain(lines, idx, cur, st).Ok? ==> idx + IfChain(lines, idx, cur, st).val == BlockEnd(lines, cur)
  {
  }

  /** A false condition skips its block (as findBlockEnd measures it) and goes
      on with the line after it. */
  lemma FalseBranchSkips(lines: seq<string>, idx: nat, cur: nat, st: State)
    requires idx <= cur < |lines|
    requires StartsWith(Trim(lines[cur]), "if ") || StartsWith(Trim(lines[cur]), "elif ")
    requires Eval(Condition(Trim(lines[cur])), st.vars, st.heap).Ok?
    requires !Truthy(Eval(Condition(Trim(lines[cur])), st.vars, st.heap).val)
    ensures IfChain(lines, idx, cur, st)
            == IfChain(lines, idx, BlockEnd(lines, cur), st.(heap := Eval(Condition(Trim(lines[cur])), st.vars, st.heap).st))
  {
  }

  /** A bare else line dispatched on its own (as it is after a branch was
      taken) runs its block unconditionally. */
  lemma BareElseRuns(lines: seq<string>, i: nat, st: State)
    requires i < |lines| && Trim(lines[i]) == "else:"
    ensures Dispatch(Trim(lines[i]), lines, i, st) == RunBlock(lines, i, i, st)
  {
    TrimTwice(lines[i]);
    BareElseText(Trim(lines[i]));
    ElseTextIsChain(Trim(lines[i]), lines, i, st);
  }

  /** After a taken if branch the driver goes on at the else line that
      follows the branch, and runs the else block as well: both blocks of an
      if/else run when the condition is truthy. */
  lemma ElseRunsAfterTakenIf(lines: seq<string>, i: nat, st: State)
    requires i < |lines| && StartsWith(Trim(lines[i]), "if ") && !IsAssignment(Trim(lines[i]))
    requires Eval(Condition(Trim(lines[i])), st.vars, st.heap).Ok?
    requires Truthy(Eval(Condition(Trim(lines[i])), st.vars, st.heap).val)
    requires IfChain(lines, i, i, st).Ok?
    requires BlockEnd(lines, i) < |lines| && Trim(lines[BlockEnd(lines, i)]) == "else:"
    ensures var j, st1 := BlockEnd(lines, i), IfChain(lines, i, i, st).st;
      Run(lines, i, st) == Run(lines, j, st1)
      && (RunBlock(lines, j, j, st1).Ok? ==>
            Run(lines, i, st) == Run(lines, BlockEnd(lines, j), RunBlock(lines, j, j, st1).st))
  {
    var j := BlockEnd(lines, i);
    var r := IfChain(lines, i, i, st);
    TakenIfRunsOnAtBlockEnd(lines, i, st);
    var e := RunBlock(lines, j, j, r.st);
    if e.Ok? {
      BareElseRuns(lines, j, r.st);
      DriverAdvancesTo(lines, j, r.st, e.val, e.st, BlockEnd(lines, j));
    }
  }

  /** After a taken if branch the driver goes on at the end of its block. */
  lemma TakenIfRunsOnAtBlockEnd(lines: seq<string>, i: nat, st: State)
    requires i < |lines| && StartsWith(Trim(lines[i]), "if ") && !IsAssignment(Trim(lines[i]))
    requires Eval(Condition(Trim(lines[i])), st.vars, st.heap).Ok?
    requires Truthy(Eval(Condition(Trim(lines[i])), st.vars, st.heap).val)
    requires IfChain(lines, i, i, st).Ok?
    requires BlockEnd(lines, i) < |lines|
    ensures Run(lines, i, st) == Run(lines, BlockEnd(lines, i), IfChain(lines, i, i, st).st)
  {
    TakenBranchEndsChain(lines, i, i, st);
    IfTextIsChain(Trim(lines[i]), lines, i, st);
    DriverAdvancesTo(lines, i, st, IfChain(lines, i, i, st).val, IfChain(lines, i, i, st).st, BlockEnd(lines, i));
  }

  /** DriverAdvances, with the index the driver goes on at named e. */
  lemma DriverAdvancesTo(lines: seq<string>, i: nat, st: State, n: nat, st1: State, e: nat)
    requires i < |lines| && Dispatch(Trim(lines[i]), lines, i, st) == Ok(n, st1) && n != 0
    requires e == i + n
    ensures Run(lines, e, st1) == Run(lines, i, st)
  {
    DriverAdvances(lines, i, st, n, st1);
    SameRun(lines, i + n, e, st1);
  }

  /** Runs from equal indices are equal; stated on its own so that an index
      equality the arithmetic gives reaches Run. */
  lemma SameRun(lines: seq<string>, a: nat, b: nat, st: State)
    requires a == b
    ensures Run(lines, a, st) == Run(lines, b, st)
  {
  }

  /** A line that begins "if " and is not an assignment goes to the chain
      handler. */
  lemma IfTextIsChain(line: string, lines: seq<string>, i: nat, st: State)
    requires i < |lines| && StartsWith(line, "if ") && !IsAssignment(line)
    ensures Dispatch(line, lines, i, st) == IfChain(lines, i, i, st)
  {
    IfTextKeywords(line);
    assert Dispatch(line, lines, i, st) == ExecLine(line, lines, i, st);
  }

  /** Text that begins "if " begins with none of the keywords tested before it. */
  lemma IfTextKeywords(line: string)
    requires StartsWith(line, "if ")
    ensures !StartsWith(line, "def ") && !StartsWith(line, "class ") && !StartsWith(line, "import ")
    ensures !StartsWith(line, "from ") && !StartsWith(line, "try:") && !StartsWith(line, "print(")
    ensures !StartsWith(line, "for ") && !StartsWith(line, "while ")
  {
    assert line[..3] == "if ";
    assert line[0] == 'i' && line[1] == 'f';
  }

  /** "else:" begins with "else:" and has no '='. */
  lemma BareElseText(line: string)
    requires line == "else:"
    ensures StartsWith(line, "else:") && !IsAssignment(line)
    ensures !StartsWith(line, "if ") && !StartsWith(line, "elif ")
  {
    ContainsChar(line, '=');
  }

  /** Run the block under the header at cur; when it completes, everything
      from idx through the block is consumed. */
  function RunBlock(lines: seq<string>, idx: nat, cur: nat, st: State): (r: Outcome<State, nat>)
    requires idx <= cur < |lines|
    ensures Grows(st, r)
    ensures r.Ok? ==> r.val == BlockEnd(lines, cur) - idx
    decreases |lines|, 0
  {
    var bodyEnd := BlockEnd(lines, cur);
    match RunBody(lines[cur + 1..bodyEnd], 0, st)
    case Ok(_, st1) => Ok(bodyEnd - idx, st1)
    case Raise(err, st1) => Raise(err, st1)
    case Hangs => Hangs
    case Unmodelled => Unmodelled
  }

  // ---------------------------------------------------------------------------
  // try / except

  /** The first line at or after k whose trimmed text starts with "except". */
  function FindExcept(lines: seq<string>, k: nat): (r: Option<nat>)
    ensures r.Some? ==> k <= r.value < |lines| && StartsWith(Trim(lines[r.value]), "except")
    ensures forall j :: k <= j < |lines| && (r.None? || j < r.value) ==> !StartsWith(Trim(lines[j]), "except")
    decreases |lines| - k
  {
    if k >= |lines| then None
    else if StartsWith(Trim(lines[k]), "except") then Some(k)
    else FindExcept(lines, k + 1)
  }

  /** parseTryExcept: a try body that completes consumes only the try block.
      On a throw, the first later line starting with "except" is the handler:
      its header binds the error when it reads `except X as y:`, its body runs,
      and everything through its block is consumed. Without such a line the
      error is swallowed. */
  function TryExcept(lines: seq<string>, idx: nat, st: State): (r: Outcome<State, nat>)
    requires idx < |lines|
    ensures Grows(st, r)
    ensures r.Ok? ==>
      (r.val == BlockEnd(lines, idx) - idx
       || (FindExcept(lines, BlockEnd(lines, idx)).Some?
           && r.val == BlockEnd(lines, FindExcept(lines, BlockEnd(lines, idx)).value) - idx))
    ensures r.Ok? && FindExcept(lines, BlockEnd(lines, idx)).None? ==> r.val == BlockEnd(lines, idx) - idx
    decreases |lines|, 2, 1
  {
    match RunBlock(lines, idx, idx, st)
    case Raise(err, st1) => Caught(lines, idx, BlockEnd(lines, idx), err, st1)
    case other => other
  }

  /** A try block that completes consumes only itself: an except line after
      it is left to the caller, where it is no branch and its body runs as
      ordinary lines. */
  lemma TryCompletes(lines: seq<string>, idx: nat, st: State)
    requires idx < |lines| && RunBlock(lines, idx, idx, st).Ok?
    ensures TryExcept(lines, idx, st) == RunBlock(lines, idx, idx, st)
    ensures TryExcept(lines, idx, st).val == BlockEnd(lines, idx) - idx
  {
  }

  /** A throw with no except line anywhere after the try block is swallowed:
      the lines printed before it stay and only the try block is consumed. */
  lemma TryWithoutExceptSwallows(lines: seq<string>, idx: nat, st: State)
    requires idx < |lines| && RunBlock(lines, idx, idx, st).Raise?
    requires FindExcept(lines, BlockEnd(lines, idx)).None?
    ensures TryExcept(lines, idx, st) == Ok(BlockEnd(lines, idx) - idx, RunBlock(lines, idx, idx, st).st)
  {
  }

  /** After the try block ending at tryEnd threw err: the first later except
      line handles it, and without one the error is swallowed. */
  function Caught(lines: seq<string>, idx: nat, tryEnd: nat, err: JsError, st: State): (r: Outcome<State, nat>)
    requires idx < tryEnd <= |lines|
    ensures Grows(st, r)
    ensures FindExcept(lines, tryEnd).None? ==> r == Ok(tryEnd - idx, st)
    ensures r.Ok? && FindExcept(lines, tryEnd).Some? ==> r.val == BlockEnd(lines, FindExcept(lines, tryEnd).value) - idx
    decreases |lines|, 2, 0
  {
    match FindExcept(lines, tryEnd)
    case None => Ok(tryEnd - idx, st)
    case Some(x) => Handler(lines, idx, x, err, st)
  }

  /** The except handler at line x after a throw of err: its body runs with
      the error bound when the header names it, and everything through its
      block is consumed. */
  function Handler(lines: seq<string>, idx: nat, x: nat, err: JsError, st: State): (r: Outcome<State, nat>)
    requires idx < x < |lines|
    ensures Grows(st, r)
    ensures r.Ok? ==> r.val == BlockEnd(lines, x) - idx
    decreases |lines|, 1
  {
    RunBlock(lines, idx, x, ExceptState(lines[x], err, st))
  }

  /** The state an except body runs in: when the header reads `except X as y:`
      the name y is bound to the caught error, a new object at the next heap
      cell, and nothing else changes; any other header binds nothing. */
  function ExceptState(header: string, err: JsError, st: State): (r: State)
    ensures ExceptName(Trim(header)).None? ==> r == st
    ensures ExceptName(Trim(header)).Some? ==>
      var y := ExceptName(Trim(header)).value;
      Lookup(r.vars, y) == ErrorObj(err, |st.heap|)
      && (forall n :: n != y ==> Lookup(r.vars, n) == Lookup(st.vars, n))
      && r.heap == st.heap + [[]] && r.out == st.out && r.functions == st.functions
  {
    match ExceptName(Trim(header))
    case Some(y) => st.(vars := st.vars[y := ErrorObj(err, |st.heap|)], heap := st.heap + [[]])
    case None => st
  }

  /** A throw in the try block that an except line after it catches: the
      handler's body runs in the state at the throw with the error bound as
      the header says, and the try ends as that body ends, through the
      handler's block; a throw from the handler's body is not caught. */
  lemma TryCaughtRunsHandler(lines: seq<string>, idx: nat, st: State, x: nat)
    requires idx < |lines| && RunBlock(lines, idx, idx, st).Raise?
    requires FindExcept(lines, BlockEnd(lines, idx)) == Some(x)
    ensures idx < x
    ensures var t := RunBlock(lines, idx, idx, st);
      TryExcept(lines, idx, st) == RunBlock(lines, idx, x, ExceptState(lines[x], t.err, t.st))
  {
    var t := RunBlock(lines, idx, idx, st);
    var tryEnd := BlockEnd(lines, idx);
    assert TryExcept(lines, idx, st) == Caught(lines, idx, tryEnd, t.err, t.st);
    assert Caught(lines, idx, tryEnd, t.err, t.st) == Handler(lines, idx, x, t.err, t.st);
  }

  // ---------------------------------------------------------------------------
  // the driver

  predicate IsComment(line: string) {
    StartsWith(Trim(line), "#")
  }

  /** code.split('\n') without its blank lines and its comment lines. */
  function ProgramLines(code: string): seq<string> {
    Kept(Split(code, "\n"))
  }

  function Kept(lines: seq<string>): (r: seq<string>)
    ensures forall k :: 0 <= k < |r| ==> !Blank(r[k]) && !IsComment(r[k])
    ensures |r| <= |lines|
  {
    if lines == [] then []
    else if Blank(lines[0]) || IsComment(lines[0]) then Kept(lines[1..])
    else [lines[0]] + Kept(lines[1..])
  }

  /** Kept is a filter: it keeps exactly the lines that are neither blank
      nor comments, in their order. */
  lemma {:induction false} KeptAppend(a: seq<string>, b: seq<string>)
    ensures Kept(a + b) == Kept(a) + Kept(b)
    ensures |a| == 1 ==> Kept(a) == if Blank(a[0]) || IsComment(a[0]) then [] else a
  {
    if a == [] {
      assert a + b == b;
    } else {
      assert (a + b)[1..] == a[1..] + b;
      KeptAppend(a[1..], b);
      assert Kept(a[1..] + b) == Kept(a[1..]) + Kept(b);
    }
    if |a| == 1 {
      assert a[1..] == [] && Kept(a[1..]) == [];
      assert [a[0]] == a;
    }
  }

  /** The environment every program starts from: only `range` is bound. */
  const InitialState := State(map["range" := RangeFn], [], [], map[])

  /** The driver loop from line i: each trimmed line is dispatched and the
      index advances by the count returned; a count of 0 never advances. */
  function Run(lines: seq<string>, i: nat, st: State): (r: Outcome<State, ()>)
    ensures Grows(st, r)
    decreases |lines| - i, 1
  {
    if i >= |lines| then Ok((), st)
    else Advance(lines, i, st, Dispatch(Trim(lines[i]), lines, i, st))
  }

  /** What the driver does with the outcome `step` of the line at i: move on
      by the count it returned, or stop with its throw. */
  function Advance(lines: seq<string>, i: nat, st: State, step: Outcome<State, nat>): (r: Outcome<State, ()>)
    requires i < |lines| && Grows(st, step)
    ensures Grows(st, r)
    decreases |lines| - i, 0
  {
    match step
    case Ok(n, st1) => if n == 0 then Hangs else Run(lines, i + n, st1)
    case Raise(err, st1) => Raise(err, st1)
    case Hangs => Hangs
    case Unmodelled => Unmodelled
  }

  /** Every line the driver dispatches consumes at least one line, except a
      line that begins "else:" and goes on with more text: it is sent to the
      chain handler, which finds no branch there and consumes nothing. */
  lemma DispatchZeroOnlyForElseText(lines: seq<string>, i: nat, st: State)
    requires i < |lines|
    ensures var r := Dispatch(Trim(lines[i]), lines, i, st);
      r.Ok? && r.val == 0 ==> StartsWith(Trim(lines[i]), "else:") && Trim(lines[i]) != "else:"
  {
    TrimTwice(lines[i]);
    ExecLineZero(Trim(lines[i]), lines, i, st);
  }

  /** Only the chain handler can consume nothing, and only when the line at
      idx is no chain header. */
  lemma ExecLineZero(line: string, lines: seq<string>, idx: nat, st: State)
    requires idx < |lines|
    ensures var r := ExecLine(line, lines, idx, st);
      r.Ok? && r.val == 0 ==>
        (StartsWith(line, "if ") || StartsWith(line, "elif ") || StartsWith(line, "else:")) && !IsChainHeader(Trim(lines[idx]))
  {
    if StartsWith(line, "def ") {
      assert ExecLine(line, lines, idx, st) == Define(line, lines, idx, st);
    } else if StartsWith(line, "class ") {
      assert ExecLine(line, lines, idx, st) == DefineClass(line, lines, idx, st);
    } else if StartsWith(line, "import ") || StartsWith(line, "from ") {
      assert ExecLine(line, lines, idx, st) == Ok(1, Import(line, st));
    } else if StartsWith(line, "try:") {
      assert ExecLine(line, lines, idx, st) == TryExcept(lines, idx, st);
    } else if IsAssignment(line) {
      assert ExecLine(line, lines, idx, st) == Assign(line, st);
    } else if StartsWith(line, "print(") {
      assert ExecLine(line, lines, idx, st) == Print(line, st);
    } else if StartsWith(line, "for ") {
      assert ExecLine(line, lines, idx, st) == ForLoop(line, lines, idx, st);
    } else if StartsWith(line, "while ") {
      assert ExecLine(line, lines, idx, st) == WhileLoop(line, lines, idx, st);
    } else if StartsWith(line, "if ") || StartsWith(line, "elif ") || StartsWith(line, "else:") {
      assert ExecLine(line, lines, idx, st) == IfChain(lines, idx, idx, st);
      if IsChainHeader(Trim(lines[idx])) {
        ChainHeaderConsumes(lines, idx, idx, st);
      }
    } else if Contains(line, "(") && Contains(line, ")") {
      assert ExecLine(line, lines, idx, st) == EvalStatement(line, st);
    }
  }

  /** Conversely such a line, unless it is also an assignment, consumes
      nothing, and the driver never gets past it. */
  lemma ElseTextHangs(lines: seq<string>, i: nat, st: State)
    requires i < |lines|
    requires StartsWith(Trim(lines[i]), "else:") && Trim(lines[i]) != "else:" && !IsAssignment(Trim(lines[i]))
    ensures Dispatch(Trim(lines[i]), lines, i, st) == Ok(0, st)
    ensures Run(lines, i, st) == Hangs
  {
    var line := Trim(lines[i]);
    TrimTwice(lines[i]);
    ElseTextIsChain(line, lines, i, st);
    ElseTextKeywords(line);
    assert IfChain(lines, i, i, st) == Ok(0, st);
    RunDispatches(lines, i, st);
    AdvanceCases(lines, i, st, Ok(0, st));
  }

  /** A line that begins "else:" and is not an assignment goes to the chain
      handler: it begins with none of the keywords tested before. */
  lemma ElseTextIsChain(line: string, lines: seq<string>, i: nat, st: State)
    requires i < |lines| && StartsWith(line, "else:") && !IsAssignment(line)
    ensures Dispatch(line, lines, i, st) == IfChain(lines, i, i, st)
  {
    ElseTextKeywords(line);
    assert Dispatch(line, lines, i, st) == ExecLine(line, lines, i, st);
  }

  /** Text that begins "else:" begins with none of the other keywords. */
  lemma ElseTextKeywords(line: string)
    requires StartsWith(line, "else:")
    ensures !StartsWith(line, "def ") && !StartsWith(line, "class ") && !StartsWith(line, "import ")
    ensures !StartsWith(line, "from ") && !StartsWith(line, "try:") && !StartsWith(line, "print(")
    ensures !StartsWith(line, "for ") && !StartsWith(line, "while ")
    ensures !StartsWith(line, "if ") && !StartsWith(line, "elif ")
  {
    assert line[..5] == "else:";
    assert line[0] == 'e' && line[2] == 's';
  }

  /** The driver dispatches the line at i and goes on from its outcome. */
  lemma RunDispatches(lines: seq<string>, i: nat, st: State)
    requires i < |lines|
    ensures Run(lines, i, st) == Advance(lines, i, st, Dispatch(Trim(lines[i]), lines, i, st))
  {
  }

  /** One turn of the driver loop, by the outcome of the line at i. */
  lemma AdvanceCases(lines: seq<string>, i: nat, st: State, step: Outcome<State, nat>)
    requires i < |lines| && Grows(st, step)
    ensures step.Ok? && step.val != 0 ==> Advance(lines, i, st, step) == Run(lines, i + step.val, step.st)
    ensures step.Ok? && step.val == 0 ==> Advance(lines, i, st, step) == Hangs
    ensures step.Raise? ==> Advance(lines, i, st, step) == Raise(step.err, step.st)
    ensures step.Hangs? ==> Advance(lines, i, st, step) == Hangs
    ensures step.Unmodelled? ==> Advance(lines, i, st, step) == Unmodelled
  {
  }

  /** One turn of the driver loop stated on the run itself: the run from i
      goes on from i + n after a line that consumed n > 0 lines, and ends as
      the line did otherwise. */
  lemma DriverStep(lines: seq<string>, i: nat, st: State)
    requires i < |lines|
    ensures var step := Dispatch(Trim(lines[i]), lines, i, st);
      (step.Ok? && step.val != 0 ==> Run(lines, i, st) == Run(lines, i + step.val, step.st))
      && (step.Ok? && step.val == 0 ==> Run(lines, i, st) == Hangs)
      && (step.Raise? ==> Run(lines, i, st) == Raise(step.err, step.st))
      && (step.Hangs? ==> Run(lines, i, st) == Hangs)
      && (step.Unmodelled? ==> Run(lines, i, st) == Unmodelled)
  {
    RunDispatches(lines, i, st);
    AdvanceCases(lines, i, st, Dispatch(Trim(lines[i]), lines, i, st));
  }

  /** The advancing case of a driver turn on its own. */
  lemma DriverAdvances(lines: seq<string>, i: nat, st: State, n: nat, st1: State)
    requires i < |lines| && Dispatch(Trim(lines[i]), lines, i, st) == Ok(n, st1) && n != 0
    ensures Run(lines, i + n, st1) == Run(lines, i, st)
  {
    RunDispatches(lines, i, st);
    AdvanceCases(lines, i, st, Ok(n, st1));
  }

  /** executePythonLikeCode: run a program from the initial state. */
  function Execute(code: string): Outcome<State, ()> {
    Run(ProgramLines(code), 0, InitialState)
  }

  // ---------------------------------------------------------------------------
  // a program of one print

  /** The one-line program print("s"). */
  function PrintStringLine(s: string): string {
    "print(\"" + s + "\")"
  }

  /** Text with no line break, no comma and no '='. */
  predicate PlainText(s: string) {
    forall i :: 0 <= i < |s| ==> s[i] != '\n' && s[i] != ',' && s[i] != '='
  }

  /** A program consisting of print("s") alone, where s has no line break,
      no comma and no '=', prints exactly s and changes nothing else. */
  lemma PrintStringProgram(s: string)
    requires PlainText(s)
    ensures Execute(PrintStringLine(s)) == Ok((), InitialState.(out := [s]))
  {
    var line := PrintStringLine(s);
    var st0 := InitialState;
    var st1 := st0.(out := [s]);
    PrintStringLineText(s);
    assert ProgramLines(line) == [line];
    PrintStringPrints(s, st0);
    PrintTextIsPrint(line, [line], 0, st0);
    DriverAdvances([line], 0, st0, 1, st1);
  }

  /** print("s") evaluates the literal and pushes s. */
  lemma PrintStringPrints(s: string, st: State)
    requires PlainText(s)
    ensures Print(PrintStringLine(s), st) == Ok(1, st.(out := st.out + [s]))
  {
    var line := PrintStringLine(s);
    var lit := "\"" + s + "\"";
    PrintStringLineText(s);
    TrimUntouched(lit);
    EvalQuoted(lit, st.vars, st.heap);
    assert Unquote(lit) == s;
    PrintFirstArgument(line, st);
  }

  /** The text facts about print("s") the dispatch and the driver rely on. */
  lemma PrintStringLineText(s: string)
    requires PlainText(s)
    ensures var line := PrintStringLine(s);
      Split(line, "\n") == [line] && Trim(line) == line && !Blank(line) && !IsComment(line)
      && StartsWith(line, "print(") && !IsAssignment(line) && ExtractArgs(line) == ["\"" + s + "\""]
  {
    var line := PrintStringLine(s);
    PrintStringLineChars(s);
    ContainsChar(line, '\n');
    ContainsChar(line, '=');
    SplitWhenAbsent(line, "\n");
    TrimUntouched(line);
    assert line[..6] == "print(";
    assert line[0] == 'p';
    PrintStringArgs(s);
  }

  /** The line, and the literal inside it, hold no line break, comma or '='
      outside s. */
  lemma PrintStringLineChars(s: string)
    requires PlainText(s)
    ensures PlainText(PrintStringLine(s)) && PlainText("\"" + s + "\"")
  {
    var line := PrintStringLine(s);
    var lit := "\"" + s + "\"";
    forall i | 0 <= i < |line|
      ensures line[i] != '\n' && line[i] != ',' && line[i] != '='
    {
      if 7 <= i < 7 + |s| {
        assert line[i] == s[i - 7];
      }
    }
    forall i | 0 <= i < |lit|
      ensures lit[i] != '\n' && lit[i] != ',' && lit[i] != '='
    {
      if 1 <= i < 1 + |s| {
        assert lit[i] == s[i - 1];
      }
    }
  }

  /** extractFunctionArgs of print("s") is the one literal "s". */
  lemma PrintStringArgs(s: string)
    requires PlainText(s)
    ensures ExtractArgs(PrintStringLine(s)) == ["\"" + s + "\""]
  {
    var line := PrintStringLine(s);
    var lit := "\"" + s + "\"";
    PrintStringLineChars(s);
    assert line == "print(" + lit + ")";
    PrintStringParen(line);
    assert LastIndexOfChar(line, ')') == |line| - 1;
    assert Substring(line, 6, |line| - 1) == lit;
    TrimUntouched(lit);
    ContainsChar(lit, ',');
    SplitWhenAbsent(lit, ",");
  }

  /** The first '(' of a line that begins "print(" is at index 5. */
  lemma PrintStringParen(line: string)
    requires StartsWith(line, "print(")
    ensures IndexOf(line, "(") == 5
  {
    assert line[..6] == "print(";
    assert line[0] == 'p' && line[1] == 'r' && line[2] == 'i' && line[3] == 'n' && line[4] == 't' && line[5] == '(';
    IndexOfCharStep(line, '(', 0);
    IndexOfCharStep(line, '(', 1);
    IndexOfCharStep(line, '(', 2);
    IndexOfCharStep(line, '(', 3);
    IndexOfCharStep(line, '(', 4);
    IndexOfCharStep(line, '(', 5);
  }

  /** The assignment case comes before the print case, so a print line with
      a lone '=' in its argument is an assignment: it prints nothing and binds
      the text before the '='. */
  lemma PrintWithEqualsAssigns(line: string, lines: seq<string>, i: nat, st: State)
    requires i < |lines| && StartsWith(line, "print(") && IsAssignment(line)
    ensures Dispatch(line, lines, i, st) == Assign(line, st)
    ensures Dispatch(line, lines, i, st).Ok? ==>
      Dispatch(line, lines, i, st).st.out == st.out && AssignParts(line).0 in Dispatch(line, lines, i, st).st.vars
  {
    assert line[..6] == "print(";
    assert line[0] == 'p' && line[1] == 'r';
    assert !StartsWith(line, "def ") && !StartsWith(line, "class ") && !StartsWith(line, "import ");
    assert !StartsWith(line, "from ") && !StartsWith(line, "try:");
    assert Dispatch(line, lines, i, st) == ExecLine(line, lines, i, st);
  }

  /** print("a=b") is such a line, and the name it binds is print("a. */
  lemma PrintEqualsText(line: string)
    requires line == "print(\"a=b\")"
    ensures StartsWith(line, "print(") && IsAssignment(line) && AssignParts(line).0 == "print(\"a"
  {
    PrintEqualsIsAssignment(line);
    AssignSplitsAtFirstEquals(line);
    assert line[..8] == "print(\"a";
    TrimUntouched("print(\"a");
  }

  /** print("a=b") has an '=' and none of the comparison operators. */
  lemma PrintEqualsIsAssignment(line: string)
    requires line == "print(\"a=b\")"
    ensures IsAssignment(line) && IndexOf(line, "=") == 8
  {
    EqualsAtEight(line);
    TwoCharAbsent(line, "==");
    TwoCharAbsent(line, "!=");
    TwoCharAbsent(line, "<=");
    TwoCharAbsent(line, ">=");
  }

  /** The first '=' of print("a=b") is at index 8. */
  lemma EqualsAtEight(line: string)
    requires line == "print(\"a=b\")"
    ensures IndexOf(line, "=") == 8
  {
    IndexOfCharStep(line, '=', 0);
    IndexOfCharStep(line, '=', 1);
    IndexOfCharStep(line, '=', 2);
    IndexOfCharStep(line, '=', 3);
    IndexOfCharStep(line, '=', 4);
    IndexOfCharStep(line, '=', 5);
    IndexOfCharStep(line, '=', 6);
    IndexOfCharStep(line, '=', 7);
    IndexOfCharStep(line, '=', 8);
  }

  /** A two-character pattern whose second character is '=' is absent from
      print("a=b"): the only '=' follows 'a'. */
  lemma TwoCharAbsent(line: string, p: string)
    requires line == "print(\"a=b\")" && |p| == 2 && p[1] == '=' && p[0] != 'a'
    ensures !Contains(line, p)
  {
    forall i: int | 0 <= i < |line|
      ensures !OccursAt(line, p, i)
    {
      if i + 2 > |line| {
      } else if i == 7 {
        assert line[i] == 'a';
      } else {
        assert line[i + 1] != '=';
      }
    }
  }
}

