/**
 * evaluateExpression: the recursive case analysis that turns the text of an
 * expression into a value. The cases are tried in a fixed order and the first
 * that applies wins:
 *   None/True/False, a quoted string, Number() text, a list literal, a call,
 *   a dotted chain of properties and methods, a bound name, a binary operator
 *   (in the order + - * / % ** == != < > <= >=), and finally the text itself.
 *
 * Evaluation reads the variables and may change the heap (append, pop and
 * every new list or object); it never changes a binding or the output, which
 * its signature makes plain.
 */
module Expression {
  import opened Wrappers
  import opened JsText
  import opened JsValue

  type Vars = map<string, Value>

  /** How an evaluation ends: with a value and the state after it, with a
      thrown error and the state at the throw, in a loop that never ends, or in
      a case the model does not follow (see JsValue.Exact). */
  datatype Outcome<S, T> = Ok(val: T, st: S) | Raise(err: JsError, st: S) | Hangs | Unmodelled

  /** Cells are only ever added to the heap, never removed: every heap an
      outcome carries is at least as long as the one evaluation started from,
      so a reference held in a variable stays valid. */
  predicate HeapGrows<T>(heap: Heap, r: Outcome<Heap, T>) {
    (r.Ok? || r.Raise?) ==> |heap| <= |r.st|
  }

  /** variables[name], where a missing name reads as undefined. */
  function Lookup(vars: Vars, name: string): Value {
    if name in vars then vars[name] else Undefined
  }

  /** The error that evaluating a missing argument raises (undefined.trim()). */
  const MissingArgument := ReadProperty(false, "trim")

  function TrimAll(parts: seq<string>): (r: seq<string>)
    ensures |r| == |parts|
    ensures forall k :: 0 <= k < |r| ==> r[k] == Trim(parts[k])
  {
    seq(|parts|, k requires 0 <= k < |parts| => Trim(parts[k]))
  }

  /** Every piece .map(s => s.trim()) gives is already trimmed: trimming the
      result again changes nothing. */
  lemma TrimAllTrimmed(parts: seq<string>)
    ensures forall k :: 0 <= k < |parts| ==> Trim(TrimAll(parts)[k]) == TrimAll(parts)[k]
  {
    forall k | 0 <= k < |parts|
      ensures Trim(TrimAll(parts)[k]) == TrimAll(parts)[k]
    {
      TrimTwice(parts[k]);
    }
  }

  /** line.substring(line.indexOf('(') + 1, line.lastIndexOf(')')). */
  function ArgsText(line: string): string {
    Substring(line, IndexOf(line, "(") + 1, LastIndexOfChar(line, ')'))
  }

  /** extractFunctionArgs: the text between the first '(' and the last ')'
      (as substring takes it), split at every comma, each piece trimmed;
      blank text gives no arguments. */
  function ExtractArgs(line: string): (args: seq<string>)
    ensures forall k :: 0 <= k < |args| ==> |args[k]| <= |line|
    ensures args == [] <==> Trim(ArgsText(line)) == ""
    ensures args != [] ==>
      |args| == |Split(ArgsText(line), ",")|
      && forall k :: 0 <= k < |args| ==> args[k] == Trim(Split(ArgsText(line), ",")[k])
    ensures forall k :: 0 <= k < |args| ==> Trim(args[k]) == args[k]
  {
    var argsStr := ArgsText(line);
    if Trim(argsStr) == "" then []
    else
      TrimAllTrimmed(Split(argsStr, ","));
      TrimAll(Split(argsStr, ","))
  }

  /** Written as name(inner), with no '(' in the name and no ')' in the
      arguments, a call gives back the trimmed comma pieces of inner, and no
      argument at all when inner is blank. */
  lemma ExtractArgsOfCall(name: string, inner: string)
    requires '(' !in name && ')' !in inner
    ensures ExtractArgs(name + "(" + inner + ")")
            == if Trim(inner) == "" then [] else TrimAll(Split(inner, ","))
  {
    var line := name + "(" + inner + ")";
    assert line == name + ("(" + inner + ")");
    IndexOfAfterAbsent(name, "(" + inner + ")", '(');
    assert IndexOf(line, "(") == |name|;
    assert line[|line| - 1] == ')';
    assert forall i :: |name| + 1 <= i < |line| - 1 ==> line[i] == inner[i - |name| - 1];
    assert LastIndexOfChar(line, ')') == |line| - 1;
    assert line[|name| + 1..|line| - 1] == inner;
    assert ArgsText(line) == inner;
  }

  /** The first occurrence of a character absent from a is the first
      character of b. */
  lemma IndexOfAfterAbsent(a: string, b: string, c: char)
    requires c !in a && b != [] && b[0] == c
    ensures IndexOf(a + b, [c]) == |a|
  {
    var s := a + b;
    var k := 0;
    while k < |a|
      invariant k <= |a| && IndexOfFrom(s, [c], 0) == IndexOfFrom(s, [c], k)
    {
      IndexOfCharStep(s, c, k);
      k := k + 1;
    }
    IndexOfCharStep(s, c, |a|);
  }

  predicate ShorterThan(texts: seq<string>, n: nat) {
    forall k :: 0 <= k < |texts| ==> |texts[k]| < n
  }

  predicate IsQuoted(e: string) {
    (StartsWith(e, "\"") && EndsWith(e, "\"")) || (StartsWith(e, "'") && EndsWith(e, "'"))
  }

  /** expr.slice(1, -1). */
  function Unquote(e: string): string {
    if |e| >= 2 then e[1..|e| - 1] else ""
  }

  /** A new list cell holding the given elements. */
  function NewList(items: seq<Value>, heap: Heap): Outcome<Heap, Value> {
    Ok(List(|heap|), heap + [items])
  }

  function Strings(parts: seq<string>): (r: seq<Value>)
    ensures |r| == |parts|
    ensures forall k :: 0 <= k < |r| ==> r[k] == Str(parts[k])
  {
    seq(|parts|, k requires 0 <= k < |parts| => Str(parts[k]))
  }

  function Numbers(xs: seq<int>): (r: seq<Value>)
    ensures |r| == |xs|
    ensures forall k :: 0 <= k < |r| ==> r[k] == Num(Int(xs[k]))
  {
    seq(|xs|, k requires 0 <= k < |xs| => Num(Int(xs[k])))
  }

  // ---------------------------------------------------------------------------
  // the expression evaluator

  function Eval(expr: string, vars: Vars, heap: Heap): (r: Outcome<Heap, Value>)
    ensures (r.Ok? || r.Raise?) ==> |heap| <= |r.st|
    decreases |expr|, 3
  {
    var e := Trim(expr);
    if e == "None" then Ok(Null, heap)
    else if e == "True" then Ok(Bool(true), heap)
    else if e == "False" then Ok(Bool(false), heap)
    else if IsQuoted(e) then Ok(Str(Unquote(e)), heap)
    else if NumberOf(e) != NotNumeric then
      match NumberOf(e)
      case IntText(i) => Ok(Num(Int(i)), heap)
      case InfText(neg) => Ok(Num(Inf(neg)), heap)
      case _ => Unmodelled
    else if StartsWith(e, "[") && EndsWith(e, "]") then ListLiteral(e, vars, heap)
    else
      var call := if Contains(e, "(") && Contains(e, ")") then Call(e, vars, heap) else None;
      if call.Some? then call.value
      else if Contains(e, ".") then
        var parts := Split(e, ".");
        SplitWhenContains(e, ".");
        Chain(e, parts, 1, Lookup(vars, parts[0]), vars, heap)
      else if Lookup(vars, e) != Undefined then Ok(Lookup(vars, e), heap)
      else BinaryOperator(e, vars, heap)
  }

  /** Text that starts and ends with the same kind of quote is one string
      literal, whatever lies between: "a" + "b" is not a concatenation. */
  lemma EvalQuoted(expr: string, vars: Vars, heap: Heap)
    requires IsQuoted(Trim(expr))
    ensures Eval(expr, vars, heap) == Ok(Str(Unquote(Trim(expr))), heap)
  {
    var e := Trim(expr);
    assert e[0] == '"' || e[0] == '\'';
  }

  /** A name is looked up only after the literal, list, call and chain cases
      have not applied; a bound name evaluates to its value. */
  lemma EvalBoundName(expr: string, vars: Vars, heap: Heap)
    requires var e := Trim(expr);
      e != "None" && e != "True" && e != "False" && !IsQuoted(e) && NumberOf(e) == NotNumeric
      && !StartsWith(e, "[") && !Contains(e, "(") && !Contains(e, ".")
    requires Trim(expr) in vars && vars[Trim(expr)] != Undefined
    ensures Eval(expr, vars, heap) == Ok(vars[Trim(expr)], heap)
  {
  }

  /** None, True and False, with any whitespace around them, are null and the
      two booleans. */
  lemma EvalKeywords(expr: string, vars: Vars, heap: Heap)
    ensures Trim(expr) == "None" ==> Eval(expr, vars, heap) == Ok(Null, heap)
    ensures Trim(expr) == "True" ==> Eval(expr, vars, heap) == Ok(Bool(true), heap)
    ensures Trim(expr) == "False" ==> Eval(expr, vars, heap) == Ok(Bool(false), heap)
  {
  }

  /** The decimal text of an integer evaluates to that integer, whatever the
      variables hold: a number is never looked up as a name. */
  lemma EvalInteger(n: int, vars: Vars, heap: Heap)
    ensures Eval(IntToDecimal(n), vars, heap) == Ok(Num(Int(n)), heap)
  {
    var t := IntToDecimal(n);
    var m: nat := if n < 0 then -n else n;
    if n < 0 {
      assert t[1..] == NatToDecimal(m);
    }
    assert IsSignedDigits(t);
    TrimSignedDigits(t);
    NumberOfDecimal(n);
    assert t[0] == '-' || IsDigit(t[0]);
    assert t != "None" && t != "True" && t != "False" && !IsQuoted(t) by {
      assert "None"[0] == 'N' && "True"[0] == 'T' && "False"[0] == 'F';
    }
    EvalNumeral(t, vars, heap, n);
  }

  /** Text that is no keyword and no string literal, and that Number() reads
      as an integer, evaluates to that integer. */
  lemma EvalNumeral(expr: string, vars: Vars, heap: Heap, n: int)
    requires Trim(expr) != "None" && Trim(expr) != "True" && Trim(expr) != "False"
    requires !IsQuoted(Trim(expr)) && NumberOf(Trim(expr)) == IntText(n)
    ensures Eval(expr, vars, heap) == Ok(Num(Int(n)), heap)
  {
  }

  /** [] is a new empty list. */
  lemma EvalEmptyList(expr: string, vars: Vars, heap: Heap)
    requires Trim(expr) == "[]"
    ensures Eval(expr, vars, heap) == Ok(List(|heap|), heap + [[]])
  {
    var e := Trim(expr);
    assert e[0] == '[';
    assert NumberOf(e) == NotNumeric by {
      assert Trim(e) == e by { TrimUntouched(e); }
      assert !IsSignedDigits(e) && !IsDecimalForm(e) by {
        assert !IsDigit(e[0]) && e[0] != '+' && e[0] != '-';
        assert ExponentMark(e) == 2;
        assert IndexOf(e, ".") == -1;
      }
      assert PrefixBase(e) == 0;
    }
    assert Trim(e[1..|e| - 1]) == "";
  }

  /** The argument texts evaluated left to right; the first throw stops them. */
  function EvalArgs(args: seq<string>, vars: Vars, heap: Heap, size: nat): (r: Outcome<Heap, seq<Value>>)
    requires ShorterThan(args, size)
    ensures (r.Ok? || r.Raise?) ==> |heap| <= |r.st|
    ensures r.Ok? ==> |r.val| == |args|
    decreases size, 0, |args|
  {
    if args == [] then Ok([], heap)
    else
      match Eval(args[0], vars, heap)
      case Ok(v, h) =>
        (match EvalArgs(args[1..], vars, h, size)
         case Ok(vs, h2) => Ok([v] + vs, h2)
         case Raise(err, h2) => Raise(err, h2)
         case Hangs => Hangs
         case Unmodelled => Unmodelled)
      case Raise(err, h) => Raise(err, h)
      case Hangs => Hangs
      case Unmodelled => Unmodelled
  }

  /** A list literal: empty between the brackets, or the items between
      commas. The list is a new cell at the end of the heap, holding the
      items' values in order, evaluated left to right after any cells their
      evaluation added. */
  function ListLiteral(e: string, vars: Vars, heap: Heap): (r: Outcome<Heap, Value>)
    requires StartsWith(e, "[") && EndsWith(e, "]")
    ensures (r.Ok? || r.Raise?) ==> |heap| <= |r.st|
    ensures r.Ok? ==> |heap| < |r.st| && r.val == List(|r.st| - 1)
    ensures Trim(Unquote(e)) == "" ==> r == Ok(List(|heap|), heap + [[]])
    ensures Trim(Unquote(e)) != "" ==>
      var items := EvalArgs(Split(Unquote(e), ","), vars, heap, |e|);
      (r.Ok? <==> items.Ok?) && (items.Ok? ==> r.st == items.st + [items.val])
    decreases |e|, 2
  {
    var content := Unquote(e);
    if Trim(content) == "" then NewList([], heap)
    else
      match EvalArgs(Split(content, ","), vars, heap, |e|)
      case Ok(items, h) => NewList(items, h)
      case Raise(err, h) => Raise(err, h)
      case Hangs => Hangs
      case Unmodelled => Unmodelled
  }

  /** The decimal texts of some integers. */
  function Decimals(ns: seq<int>): (r: seq<string>)
    ensures |r| == |ns| && forall k :: 0 <= k < |r| ==> r[k] == IntToDecimal(ns[k])
  {
    seq(|ns|, k requires 0 <= k < |ns| => IntToDecimal(ns[k]))
  }

  /** Decimal texts as arguments evaluate to their integers, left to right,
      and add no cell. */
  lemma EvalArgsIntegers(ns: seq<int>, vars: Vars, heap: Heap, size: nat)
    requires ShorterThan(Decimals(ns), size)
    ensures EvalArgs(Decimals(ns), vars, heap, size) == Ok(Numbers(ns), heap)
  {
    var ds := Decimals(ns);
    forall k | 0 <= k < |ds|
      ensures Eval(ds[k], vars, heap) == Ok(Numbers(ns)[k], heap)
    {
      EvalInteger(ns[k], vars, heap);
    }
    EvalArgsPure(ds, vars, heap, size, Numbers(ns));
  }

  /** Arguments that each evaluate to a value without touching the heap give
      those values, in order. */
  lemma {:induction false} EvalArgsPure(args: seq<string>, vars: Vars, heap: Heap, size: nat, vals: seq<Value>)
    requires ShorterThan(args, size) && |vals| == |args|
    requires forall k :: 0 <= k < |args| ==> Eval(args[k], vars, heap) == Ok(vals[k], heap)
    ensures EvalArgs(args, vars, heap, size) == Ok(vals, heap)
    decreases |args|
  {
    if args != [] {
      EvalArgsPure(args[1..], vars, heap, size, vals[1..]);
      EvalArgsCons(args, vars, heap, size, vals[0], vals[1..]);
      assert vals == [vals[0]] + vals[1..];
    }
  }

  /** Arguments that each evaluate without touching the heap give their
      values in order. */
  lemma EvalArgsCons(args: seq<string>, vars: Vars, heap: Heap, size: nat, v: Value, vs: seq<Value>)
    requires args != [] && ShorterThan(args, size)
    requires Eval(args[0], vars, heap) == Ok(v, heap) && EvalArgs(args[1..], vars, heap, size) == Ok(vs, heap)
    ensures EvalArgs(args, vars, heap, size) == Ok([v] + vs, heap)
  {
  }

  /** A decimal text has no comma and does not begin with a space. */
  lemma DecimalChars(n: int)
    ensures ',' !in IntToDecimal(n)
    ensures IntToDecimal(n) != [] && !IsSpace(IntToDecimal(n)[0])
  {
    var m: nat := if n < 0 then -n else n;
    var d := NatToDecimal(m);
    assert IsDigit(d[0]);
    assert forall i :: 0 <= i < |d| ==> d[i] != ',';
  }

  /** A list literal of integers, [n0,n1,...], is a new list holding exactly
      those numbers, in order. */
  lemma ListOfIntegers(ns: seq<int>, vars: Vars, heap: Heap)
    requires ns != []
    ensures var e := "[" + Join(Decimals(ns), ",") + "]";
      StartsWith(e, "[") && EndsWith(e, "]")
      && ListLiteral(e, vars, heap) == Ok(List(|heap|), heap + [Numbers(ns)])
  {
    var e := "[" + Join(Decimals(ns), ",") + "]";
    IntegerListText(ns);
    EvalArgsIntegers(ns, vars, heap, |e|);
    var r := ListLiteral(e, vars, heap);
    assert r.Ok? && r.st == heap + [Numbers(ns)];
  }

  /** The text between the brackets of such a literal is not blank and splits
      back into the decimal texts. */
  lemma IntegerListText(ns: seq<int>)
    requires ns != []
    ensures var e := "[" + Join(Decimals(ns), ",") + "]";
      StartsWith(e, "[") && EndsWith(e, "]") && Unquote(e) == Join(Decimals(ns), ",")
      && Trim(Unquote(e)) != "" && Split(Unquote(e), ",") == Decimals(ns)
      && ShorterThan(Decimals(ns), |e|)
  {
    var ds := Decimals(ns);
    var content := Join(ds, ",");
    var e := "[" + content + "]";
    assert Unquote(e) == content;
    forall k | 0 <= k < |ds|
      ensures ',' !in ds[k]
    {
      DecimalChars(ns[k]);
    }
    SplitJoin(ds, ',');
    DecimalChars(ns[0]);
    assert content[0] == ds[0][0] by {
      if |ds| > 1 {
        JoinCons(ds[0], ds[1..], ",");
        assert ds == [ds[0]] + ds[1..];
      }
    }
    LeadingCharNotBlank(content);
  }

  /** A call `name(args)`: a function bound to the name is called with the
      evaluated arguments; otherwise len, str and list evaluate their first
      argument; any other name is not a call (None), and evaluation goes on
      with the later cases. An argument as long as the expression is the
      expression itself (WholeArgument): evaluating it repeats this very
      evaluation until the stack overflows, and JavaScript throws a
      RangeError, which is the throw here. */
  function Call(e: string, vars: Vars, heap: Heap): (r: Option<Outcome<Heap, Value>>)
    requires Contains(e, "(")
    ensures r.Some? ==> HeapGrows(heap, r.value)
    ensures r.None? <==> !IsCallable(Lookup(vars, CallName(e))) && !IsBuiltin(CallName(e))
    ensures !IsCallable(Lookup(vars, CallName(e))) && IsBuiltin(CallName(e)) && ExtractArgs(e) == [] ==>
      r == Some(Raise(MissingArgument, heap))
    ensures (IsCallable(Lookup(vars, CallName(e))) || IsBuiltin(CallName(e))) && !ShorterThan(ExtractArgs(e), |e|) ==>
      r == Some(Raise(StackOverflow, heap))
    decreases |e|, 2
  {
    var name := CallName(e);
    var args := ExtractArgs(e);
    var f := Lookup(vars, name);
    if !IsCallable(f) && !IsBuiltin(name) then None
    else if !ShorterThan(args, |e|) then Some(Raise(StackOverflow, heap))
    else if IsCallable(f) then
      Some(match EvalArgs(args, vars, heap, |e|)
           case Ok(vals, h) => Apply(f, vals, h)
           case Raise(err, h) => Raise(err, h)
           case Hangs => Hangs
           case Unmodelled => Unmodelled)
    else if args == [] then Some(Raise(MissingArgument, heap))
    else
      Some(match Eval(args[0], vars, heap)
           case Ok(v, h) =>
             if name == "len" then
               Ok(Num(Int(if v.List? then |Cell(h, v.ref)| else |ToStr(v, h)|)), h)
             else if name == "str" then Ok(Str(ToStr(v, h)), h)
             else if v.List? then Ok(v, h)
             else NewList([v], h)
           case Raise(err, h) => Raise(err, h)
           case Hangs => Hangs
           case Unmodelled => Unmodelled)
  }

  /** The only argument text as long as the expression it came from is that
      whole expression, alone. */
  lemma WholeArgument(e: string)
    requires !ShorterThan(ExtractArgs(e), |e|)
    ensures ExtractArgs(e) == [e]
  {
    var args := ExtractArgs(e);
    var k :| 0 <= k < |args| && |args[k]| >= |e|;
    WholeArgumentText(e, ArgsText(e), k);
    TrimSameLength(e);
  }

  /** The argument text can hold a piece as long as the whole expression only
      by being the whole expression, with no comma in it. */
  lemma WholeArgumentText(e: string, a: string, k: nat)
    requires a == ArgsText(e) && k < |Split(a, ",")| && |Trim(Split(a, ",")[k])| >= |e|
    ensures a == e && Split(a, ",") == [a] && |Trim(a)| >= |a|
  {
    assert |Trim(Split(a, ",")[k])| <= |Split(a, ",")[k]| <= |a| <= |e|;
    SplitFullPiece(a, ",", k);
    SubstringWhole(e, IndexOf(e, "(") + 1, LastIndexOfChar(e, ')'));
  }

  /** expr.substring(0, expr.indexOf('(')): the name being called. */
  function CallName(e: string): string
    requires Contains(e, "(")
  {
    e[..IndexOf(e, "(")]
  }

  /** The built-in functions the evaluator knows by name. */
  predicate IsBuiltin(name: string) {
    name == "len" || name == "str" || name == "list"
  }

  /** len(x) is the length of a list, or else of x's string form; str(x) is
      x's string form; list(x) is x itself when x is a list, or else a new
      list holding x. A throw while evaluating x is the call's throw. */
  lemma CallBuiltin(e: string, vars: Vars, heap: Heap)
    requires Contains(e, "(") && !IsCallable(Lookup(vars, CallName(e))) && IsBuiltin(CallName(e))
    requires ExtractArgs(e) != [] && ShorterThan(ExtractArgs(e), |e|)
    ensures var x := Eval(ExtractArgs(e)[0], vars, heap);
      x.Raise? ==> Call(e, vars, heap) == Some(Raise(x.err, x.st))
    ensures var x := Eval(ExtractArgs(e)[0], vars, heap);
      x.Ok? ==>
        var v, h := x.val, x.st;
        (CallName(e) == "len" ==>
           Call(e, vars, heap) == Some(Ok(Num(Int(if v.List? then |Cell(h, v.ref)| else |ToStr(v, h)|)), h)))
        && (CallName(e) == "str" ==> Call(e, vars, heap) == Some(Ok(Str(ToStr(v, h)), h)))
        && (CallName(e) == "list" && v.List? ==> Call(e, vars, heap) == Some(Ok(v, h)))
        && (CallName(e) == "list" && !v.List? ==> Call(e, vars, heap) == Some(Ok(List(|h|), h + [[v]])))
  {
  }

  /** len(x), for a plain name x bound to a list, is the list's length, and
      the heap is left as it is. */
  lemma LenOfBoundList(x: string, vars: Vars, heap: Heap)
    requires x != "" && Trim(x) == x && ',' !in x && '(' !in x && ')' !in x && '.' !in x
    requires x != "None" && x != "True" && x != "False" && !IsQuoted(x)
    requires NumberOf(x) == NotNumeric && !StartsWith(x, "[")
    requires x in vars && vars[x].List? && !IsCallable(Lookup(vars, "len"))
    ensures Contains("len(" + x + ")", "(")
      && Call("len(" + x + ")", vars, heap) == Some(Ok(Num(Int(|Cell(heap, vars[x].ref)|)), heap))
  {
    var e := "len(" + x + ")";
    LenCallText(x, e);
    ContainsChar(x, '(');
    ContainsChar(x, '.');
    EvalBoundName(x, vars, heap);
    CallBuiltin(e, vars, heap);
  }

  /** len(x) calls len with the one argument x. */
  lemma LenCallText(x: string, e: string)
    requires e == "len(" + x + ")"
    requires x != "" && Trim(x) == x && ',' !in x && '(' !in x && ')' !in x
    ensures Contains(e, "(") && CallName(e) == "len" && ExtractArgs(e) == [x]
  {
    assert e == "len" + "(" + x + ")";
    CallNameOf("len", x);
    SingleArgument(x);
    ExtractArgsOfCall("len", x);
  }

  /** Written as name(inner) with no '(' in the name, a call names name. */
  lemma CallNameOf(name: string, inner: string)
    requires '(' !in name
    ensures Contains(name + "(" + inner + ")", "(") && CallName(name + "(" + inner + ")") == name
  {
    var e := name + "(" + inner + ")";
    assert e == name + ("(" + inner + ")");
    IndexOfAfterAbsent(name, "(" + inner + ")", '(');
  }

  /** A trimmed, non-blank text without commas is one argument: itself. */
  lemma SingleArgument(x: string)
    requires x != "" && Trim(x) == x && ',' !in x
    ensures Trim(x) != "" && TrimAll(Split(x, ",")) == [x]
  {
    ContainsChar(x, ',');
    SplitWhenAbsent(x, ",");
  }

  /** Calling a function value: range builds a list, a class constructor
      returns a fresh empty object, and the imported host functions are not
      followed. */
  function Apply(f: Value, vals: seq<Value>, heap: Heap): (r: Outcome<Heap, Value>)
    requires IsCallable(f)
    ensures (r.Ok? || r.Raise?) ==> |heap| <= |r.st|
  {
    match f
    case RangeFn =>
      (match Range(vals, heap)
       case Items(xs) => NewList(Numbers(xs), heap)
       case Forever => Hangs
       case NotFollowed => Unmodelled)
    case ClassFn(_) => Ok(Obj(|heap|), heap + [[]])
    case HostFn(_, _) => Unmodelled
  }

  /** The parts of a dotted chain after the first, applied to obj in turn. A
      part with '(' is a method call: its arguments are evaluated, and replace
      and split on a string and append and pop on a list return at once; any
      other method leaves obj as it is. A part without '(' reads a property,
      which throws on undefined and null. */
  function Chain(e: string, parts: seq<string>, i: nat, obj: Value, vars: Vars, heap: Heap): (r: Outcome<Heap, Value>)
    requires i <= |parts| && ShorterThan(parts, |e|)
    ensures (r.Ok? || r.Raise?) ==> |heap| <= |r.st|
    decreases |e|, 1, |parts| - i
  {
    if i == |parts| then Ok(obj, heap)
    else
      var part := parts[i];
      if Contains(part, "(") then
        var methodName := part[..IndexOf(part, "(")];
        var args := ExtractArgs(part);
        match EvalArgs(args, vars, heap, |e|)
        case Ok(vals, h) =>
          if IsListOrStringMethod(methodName, obj) then Method(methodName, obj, vals, h)
          else Chain(e, parts, i + 1, obj, vars, h)
        case Raise(err, h) => Raise(err, h)
        case Hangs => Hangs
        case Unmodelled => Unmodelled
      else if obj.Undefined? || obj.Null? then Raise(ReadProperty(obj.Null?, part), heap)
      else Chain(e, parts, i + 1, GetProperty(obj, part, heap), vars, heap)
  }

  /** The methods a chain stops at: replace and split on a string, append and
      pop on a list. */
  predicate IsListOrStringMethod(methodName: string, obj: Value) {
    ((methodName == "replace" || methodName == "split") && obj.Str?)
    || ((methodName == "append" || methodName == "pop") && obj.List?)
  }

  /** One of those methods applied to evaluated arguments. */
  function Method(methodName: string, obj: Value, vals: seq<Value>, h: Heap): (r: Outcome<Heap, Value>)
    requires IsListOrStringMethod(methodName, obj)
    ensures (r.Ok? || r.Raise?) ==> |h| <= |r.st|
  {
    if methodName == "replace" then Replace(obj.s, vals, h)
    else if methodName == "split" then
      NewList(Strings(if vals == [] || vals[0].Undefined? then [obj.s] else Split(obj.s, ToStr(vals[0], h))), h)
    else if methodName == "append" then Ok(obj, SetCell(h, obj.ref, Cell(h, obj.ref) + [Arg(vals, 0)]))
    else Pop(obj.ref, vals, h)
  }

  /** append changes the list in place, adding its argument at the end, and
      returns the same list; no other cell changes. */
  lemma AppendInPlace(r: nat, vals: seq<Value>, h: Heap)
    requires r < |h|
    ensures Method("append", List(r), vals, h).Ok?
    ensures var o := Method("append", List(r), vals, h);
      o.val == List(r) && |o.st| == |h| && Cell(o.st, r) == Cell(h, r) + [Arg(vals, 0)]
      && forall q :: q != r ==> Cell(o.st, q) == Cell(h, q)
  {
  }

  /** split() without an argument gives a new list holding the whole string. */
  lemma SplitWithoutArgument(s: string, h: Heap)
    ensures Method("split", Str(s), [], h) == Ok(List(|h|), h + [[Str(s)]])
  {
    assert Strings([s]) == [Str(s)];
  }

  /** Reading a property of undefined or null throws, naming the property. */
  lemma ReadThroughNothingThrows(e: string, parts: seq<string>, i: nat, obj: Value, vars: Vars, heap: Heap)
    requires i < |parts| && ShorterThan(parts, |e|)
    requires !Contains(parts[i], "(") && (obj.Undefined? || obj.Null?)
    ensures Chain(e, parts, i, obj, vars, heap) == Raise(ReadProperty(obj.Null?, parts[i]), heap)
  {
  }

  /** s.replace(pattern, replacement) with both converted to strings; a
      function replacement is not followed. */
  function Replace(s: string, vals: seq<Value>, heap: Heap): (r: Outcome<Heap, Value>)
    ensures r.Ok? ==> r.st == heap && r.val.Str?
  {
    if IsCallable(Arg(vals, 1)) then Unmodelled
    else Ok(Str(ReplaceFirst(s, ToStr(Arg(vals, 0), heap), ToStr(Arg(vals, 1), heap))), heap)
  }

  /** list.splice(start, 1)[0] with an argument, list.pop() without one. */
  function Pop(r: nat, vals: seq<Value>, heap: Heap): (o: Outcome<Heap, Value>)
    ensures o.Ok? ==> |o.st| == |heap| && forall q :: q != r ==> Cell(o.st, q) == Cell(heap, q)
    ensures o.Ok? && o.st != heap ==> |Cell(o.st, r)| + 1 == |Cell(heap, r)| && o.val in Cell(heap, r)
    ensures vals == [] && Cell(heap, r) != [] ==> o == Ok(Cell(heap, r)[|Cell(heap, r)| - 1], SetCell(heap, r, Cell(heap, r)[..|Cell(heap, r)| - 1]))
  {
    var items := Cell(heap, r);
    if vals == [] then
      if items == [] then Ok(Undefined, heap)
      else Ok(items[|items| - 1], SetCell(heap, r, items[..|items| - 1]))
    else
      match ToNumber(vals[0], heap)
      case Inexact => Unmodelled
      case Exact(n) =>
        var start :=
          match n
          case NaN => 0
          case Inf(neg) => if neg then 0 else |items|
          case Int(x) => if x < 0 then (if |items| + x < 0 then 0 else |items| + x) else (if x > |items| then |items| else x);
        if start < |items| then Ok(items[start], SetCell(heap, r, items[..start] + items[start + 1..]))
        else Ok(Undefined, heap)
  }

  // ---------------------------------------------------------------------------
  // binary operators

  /** The operators in the order they are tried; only ** is unspaced. */
  const OperatorList := [" + ", " - ", " * ", " / ", " % ", "**", " == ", " != ", " < ", " > ", " <= ", " >= "]

  /** The index of the first operator in the list that occurs in e. */
  function FirstOperator(e: string, k: nat): (r: Option<nat>)
    requires k <= |OperatorList|
    ensures r.Some? ==> k <= r.value < |OperatorList| && Contains(e, OperatorList[r.value])
    ensures r.Some? ==> forall j :: k <= j < r.value ==> !Contains(e, OperatorList[j])
    ensures r.None? ==> forall j :: k <= j < |OperatorList| ==> !Contains(e, OperatorList[j])
    decreases |OperatorList| - k
  {
    if k == |OperatorList| then None
    else if Contains(e, OperatorList[k]) then Some(k)
    else FirstOperator(e, k + 1)
  }

  /** The operator cases: split(op, 2) keeps the text before the first
      occurrence and the text between the first and the second; no operator
      means the text is its own value. */
  function BinaryOperator(e: string, vars: Vars, heap: Heap): (r: Outcome<Heap, Value>)
    ensures (r.Ok? || r.Raise?) ==> |heap| <= |r.st|
    ensures (forall j :: 0 <= j < |OperatorList| ==> !Contains(e, OperatorList[j])) ==> r == Ok(Str(e), heap)
    decreases |e|, 2
  {
    match FirstOperator(e, 0)
    case None => Ok(Str(e), heap)
    case Some(k) =>
      var op := OperatorList[k];
      var pieces := Split(e, op);
      SplitWhenContains(e, op);
      LeftOperand(op, Trim(pieces[0]), Trim(pieces[1]), vars, heap)
  }

  /** Only the text before the first " + " and the text between it and the
      next one are used: x + y + rest evaluates to x + y whatever rest is. */
  lemma AddUsesFirstTwoTerms(x: int, y: int, rest: string, vars: Vars, heap: Heap)
    ensures BinaryOperator(IntToDecimal(x) + " + " + IntToDecimal(y) + " + " + rest, vars, heap)
            == Ok(Num(Int(x + y)), heap)
  {
    var dx, dy := IntToDecimal(x), IntToDecimal(y);
    var e := dx + " + " + dy + " + " + rest;
    AddText(dx, dy, rest);
    DecimalChars(x);
    DecimalChars(y);
    DecimalTrimmed(x);
    DecimalTrimmed(y);
    EvalInteger(x, vars, heap);
    EvalInteger(y, vars, heap);
    IntegerOperators(x, y, heap);
    assert LeftOperand(" + ", dx, dy, vars, heap) == Ok(Num(Int(x + y)), heap);
  }

  /** A decimal text is its own trim. */
  lemma DecimalTrimmed(n: int)
    ensures Trim(IntToDecimal(n)) == IntToDecimal(n)
  {
    var m: nat := if n < 0 then -n else n;
    var d := NatToDecimal(m);
    assert IsDigit(d[|d| - 1]);
    var t := IntToDecimal(n);
    assert t[|t| - 1] == d[|d| - 1];
    DecimalChars(n);
    TrimUntouched(t);
  }

  /** The text dx + " + " + dy + " + " + rest, for texts without spaces,
      tries " + " first and splits into dx, dy and the rest. */
  lemma AddText(dx: string, dy: string, rest: string)
    requires ' ' !in dx && ' ' !in dy
    ensures var e := dx + " + " + dy + " + " + rest;
      FirstOperator(e, 0) == Some(0)
      && |Split(e, " + ")| >= 2 && Split(e, " + ")[0] == dx && Split(e, " + ")[1] == dy
  {
    var e := dx + " + " + dy + " + " + rest;
    var sep := " + ";
    var i := |dx| + 3;
    assert e[0..i] == dx + sep;
    assert e[i..i + |dy| + 3] == dy + sep;
    SplitAtFirst(e, sep, 0, dx);
    SplitAtFirst(e, sep, i, dy);
    assert Contains(e, OperatorList[0]);
  }

  /** Both operands of a binary operator, the left one first. */
  function LeftOperand(op: string, left: string, right: string, vars: Vars, heap: Heap): (r: Outcome<Heap, Value>)
    ensures (r.Ok? || r.Raise?) ==> |heap| <= |r.st|
    decreases |left| + |right| + 1, 0
  {
    match Eval(left, vars, heap)
    case Ok(l, h1) => RightOperand(op, l, right, vars, h1)
    case Raise(err, h1) => Raise(err, h1)
    case Hangs => Hangs
    case Unmodelled => Unmodelled
  }

  /** The right operand of a binary operator, evaluated after the left one. */
  function RightOperand(op: string, l: Value, right: string, vars: Vars, heap: Heap): (r: Outcome<Heap, Value>)
    ensures (r.Ok? || r.Raise?) ==> |heap| <= |r.st|
    decreases |right|, 4
  {
    match Eval(right, vars, heap)
    case Ok(v, h) => ApplyOperator(op, l, v, h)
    case Raise(err, h) => Raise(err, h)
    case Hangs => Hangs
    case Unmodelled => Unmodelled
  }

  /** An arithmetic operator other than +: both operands go through Number(). */
  function Arithmetic(op: string, l: Value, r: Value, heap: Heap): (o: Outcome<Heap, Value>)
    ensures o.Ok? || o.Unmodelled?
    ensures o.Ok? ==> o.st == heap && o.val.Num?
  {
    match (ToNumber(l, heap), ToNumber(r, heap))
    case (Exact(a), Exact(b)) =>
      if op == " - " then Ok(Num(SubNum(a, b)), heap)
      else if op == " * " then Ok(Num(MulNum(a, b)), heap)
      else if op == " % " then Ok(Num(ModNum(a, b)), heap)
      else
        var q := if op == " / " then DivNum(a, b) else PowNum(a, b);
        if q.Exact? then Ok(Num(q.value), heap) else Unmodelled
    case _ => Unmodelled
  }

  /** A comparison through the abstract relational comparison: a > b is b < a,
      a <= b holds when b < a is false, a >= b when a < b is false. */
  function Compare(op: string, l: Value, r: Value, heap: Heap): (o: Outcome<Heap, Value>)
    ensures o.Ok? || o.Unmodelled?
    ensures o.Ok? ==> o.st == heap && o.val.Bool?
  {
    var swapped := op == " > " || op == " <= ";
    var want := op == " < " || op == " > ";
    match LessThan(if swapped then r else l, if swapped then l else r, heap)
    case Exact(o) => Ok(Bool(o == Some(want)), heap)
    case Inexact => Unmodelled
  }

  function ApplyOperator(op: string, l: Value, r: Value, heap: Heap): (o: Outcome<Heap, Value>)
    ensures o.Ok? || o.Unmodelled?
    ensures o.Ok? ==> o.st == heap
  {
    if op == " + " then Ok(Add(l, r, heap), heap)
    else if op == " == " then Ok(Bool(StrictEquals(l, r)), heap)
    else if op == " != " then Ok(Bool(!StrictEquals(l, r)), heap)
    else if op == " < " || op == " > " || op == " <= " || op == " >= " then Compare(op, l, r, heap)
    else Arithmetic(op, l, r, heap)
  }

  /** The operators on two integers: +, - and * compute, / computes an exact
      quotient, and the comparisons compare; nothing touches the heap. */
  lemma IntegerOperators(x: int, y: int, heap: Heap)
    ensures ApplyOperator(" + ", Num(Int(x)), Num(Int(y)), heap) == Ok(Num(Int(x + y)), heap)
    ensures ApplyOperator(" - ", Num(Int(x)), Num(Int(y)), heap) == Ok(Num(Int(x - y)), heap)
    ensures ApplyOperator(" * ", Num(Int(x)), Num(Int(y)), heap) == Ok(Num(Int(x * y)), heap)
    ensures y != 0 && x % y == 0 ==> ApplyOperator(" / ", Num(Int(x)), Num(Int(y)), heap) == Ok(Num(Int(x / y)), heap)
    ensures y != 0 && x % y != 0 ==> ApplyOperator(" / ", Num(Int(x)), Num(Int(y)), heap) == Unmodelled
    ensures ApplyOperator(" == ", Num(Int(x)), Num(Int(y)), heap) == Ok(Bool(x == y), heap)
    ensures ApplyOperator(" != ", Num(Int(x)), Num(Int(y)), heap) == Ok(Bool(x != y), heap)
    ensures ApplyOperator(" < ", Num(Int(x)), Num(Int(y)), heap) == Ok(Bool(x < y), heap)
    ensures ApplyOperator(" > ", Num(Int(x)), Num(Int(y)), heap) == Ok(Bool(x > y), heap)
    ensures ApplyOperator(" <= ", Num(Int(x)), Num(Int(y)), heap) == Ok(Bool(x <= y), heap)
    ensures ApplyOperator(" >= ", Num(Int(x)), Num(Int(y)), heap) == Ok(Bool(x >= y), heap)
  {
  }

  /** A zero divisor, or a zero base under a negative exponent: 0 / 0 is NaN,
      and otherwise the result is an infinity whose sign depends on whether the
      zero is 0 or -0 (`1 / -0` is -Infinity), which the model does not follow. */
  lemma ZeroDivisor(x: int, y: int, heap: Heap)
    ensures ApplyOperator(" / ", Num(Int(0)), Num(Int(0)), heap) == Ok(Num(NaN), heap)
    ensures x != 0 ==> ApplyOperator(" / ", Num(Int(x)), Num(Int(0)), heap) == Unmodelled
    ensures ApplyOperator(" / ", Num(Inf(x < 0)), Num(Int(0)), heap) == Unmodelled
    ensures y < 0 ==> ApplyOperator("**", Num(Int(0)), Num(Int(y)), heap) == Unmodelled
  {
  }
}
