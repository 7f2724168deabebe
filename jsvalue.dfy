/**
 * The JavaScript values the evaluator computes with, and the JavaScript
 * conversions and operators it applies to them: String(), Number(), truthiness,
 * `+`, the other arithmetic operators, `===` and the relational comparisons,
 * property reads, and the builtin `range` the environment is seeded with.
 *
 * Lists are JavaScript arrays and are shared by reference: a list value holds a
 * reference into a heap of cells, and append/pop update the cell in place.
 * Objects, class constructors, imported host objects and caught errors also
 * get a heap reference, which is their identity for `===`.
 *
 * Numbers are integers (unbounded), NaN and the two infinities; there is no
 * negative zero, so `Int(0)` stands for both 0 and -0. Results that JavaScript
 * would represent by a non-integer double, and the infinities whose sign
 * depends on the sign of a zero, are not evaluated: the operations return
 * `Inexact` for them.
 */
module JsValue {
  import opened Wrappers
  import opened JsText

  datatype JsNum = Int(i: int) | NaN | Inf(negative: bool)

  /** The host objects that `import base64` and `import threading` bind. */
  datatype HostKind = Base64 | Threading

  /** The errors evaluation throws: reading a property of undefined or null,
      a TypeError (evaluating a missing argument reads `.trim` of undefined),
      and the RangeError of a recursion that never ends. */
  datatype JsError = ReadProperty(ofNull: bool, prop: string) | StackOverflow

  datatype Value =
    | Undefined
    | Null
    | Bool(b: bool)
    | Num(n: JsNum)
    | Str(s: string)
    | List(ref: nat)                    // an array; its elements are heap cell `ref`
    | Obj(ref: nat)                     // an instance made by a class constructor
    | RangeFn                           // the builtin `range`
    | ClassFn(ref: nat)                 // the constructor a class statement binds
    | Host(kind: HostKind, ref: nat)    // the object an import binds
    | HostFn(kind: HostKind, ref: nat)  // b64decode or Lock read off a host object
    | ErrorObj(err: JsError, ref: nat)  // the Error bound by `except ... as name:`

  type Heap = seq<seq<Value>>

  /** A result that the model computes exactly, or a non-integer number it does not. */
  datatype Exact<T> = Exact(value: T) | Inexact

  /** The elements of a list cell (empty for a reference outside the heap). */
  function Cell(heap: Heap, r: nat): seq<Value> {
    if r < |heap| then heap[r] else []
  }

  /** Replace the elements of a list cell. */
  function SetCell(heap: Heap, r: nat, items: seq<Value>): (h: Heap)
    ensures |h| == |heap|
    ensures r < |heap| ==> Cell(h, r) == items
    ensures forall q :: q != r ==> Cell(h, q) == Cell(heap, q)
  {
    if r < |heap| then heap[r := items] else heap
  }

  predicate IsCallable(v: Value) {
    v.RangeFn? || v.ClassFn? || v.HostFn?
  }

  // ---------------------------------------------------------------------------
  // truthiness and String()

  /** JavaScript truthiness. */
  predicate Truthy(v: Value) {
    match v
    case Undefined => false
    case Null => false
    case Bool(b) => b
    case Num(n) => n.Inf? || (n.Int? && n.i != 0)
    case Str(s) => s != ""
    case _ => true
  }

  /** The error's name: the constructor JavaScript throws it with. */
  function ErrorName(e: JsError): string {
    match e
    case ReadProperty(_, _) => "TypeError"
    case StackOverflow => "RangeError"
  }

  function ErrorMessage(e: JsError): string {
    match e
    case ReadProperty(ofNull, prop) =>
      "Cannot read properties of " + (if ofNull then "null" else "undefined") + " (reading '" + prop + "')"
    case StackOverflow => "Maximum call stack size exceeded"
  }

  function NumToStr(n: JsNum): string {
    match n
    case Int(i) => IntToDecimal(i)
    case NaN => "NaN"
    case Inf(neg) => if neg then "-Infinity" else "Infinity"
  }

  /** What String() gives for a function value; JavaScript gives its source text,
      which the model does not reproduce. */
  const FunctionText := "function"

  /** The references below n. */
  function RefsBelow(n: nat): (refs: set<nat>)
    ensures forall r: nat :: r in refs <==> r < n
  {
    if n == 0 then {} else RefsBelow(n - 1) + {n - 1}
  }

  function AllRefs(heap: Heap): set<nat> {
    RefsBelow(|heap|)
  }

  /** String(v). A list is its elements joined with "," and no brackets, where
      undefined and null elements print as empty text and a list already being
      joined (a cycle) prints as empty text. */
  function Stringify(v: Value, heap: Heap, visited: set<nat>): string
    decreases AllRefs(heap) - visited, 0
  {
    match v
    case Undefined => "undefined"
    case Null => "null"
    case Bool(b) => if b then "true" else "false"
    case Num(n) => NumToStr(n)
    case Str(s) => s
    case List(r) =>
      if r < |heap| && r !in visited then JoinItems(heap[r], heap, visited + {r}) else ""
    case Obj(_) => "[object Object]"
    case Host(_, _) => "[object Object]"
    case RangeFn => FunctionText
    case ClassFn(_) => FunctionText
    case HostFn(_, _) => FunctionText
    case ErrorObj(e, _) => ErrorName(e) + ": " + ErrorMessage(e)
  }

  function JoinItems(items: seq<Value>, heap: Heap, visited: set<nat>): string
    decreases AllRefs(heap) - visited, 1, |items|
  {
    if items == [] then ""
    else
      var first := if items[0].Undefined? || items[0].Null? then "" else Stringify(items[0], heap, visited);
      if |items| == 1 then first else first + "," + JoinItems(items[1..], heap, visited)
  }

  function ToStr(v: Value, heap: Heap): string {
    Stringify(v, heap, {})
  }

  /** A value that prints without looking into the heap. */
  predicate Scalar(v: Value) {
    v.Bool? || v.Num? || v.Str?
  }

  /** The String() forms of the elements of a list, one per element. */
  function Texts(items: seq<Value>, heap: Heap): (r: seq<string>)
    ensures |r| == |items|
    ensures forall k :: 0 <= k < |r| ==> r[k] == ToStr(items[k], heap)
  {
    seq(|items|, k requires 0 <= k < |items| => ToStr(items[k], heap))
  }

  /** Elements that are booleans, numbers or strings are joined with a bare
      comma: no brackets, no spaces, no quotes. */
  lemma {:induction false} JoinItemsFlat(items: seq<Value>, heap: Heap, visited: set<nat>)
    requires forall k :: 0 <= k < |items| ==> Scalar(items[k])
    ensures JoinItems(items, heap, visited) == Join(Texts(items, heap), ",")
  {
    if |items| > 1 {
      JoinItemsFlat(items[1..], heap, visited);
      assert Texts(items, heap) == [ToStr(items[0], heap)] + Texts(items[1..], heap);
      JoinCons(ToStr(items[0], heap), Texts(items[1..], heap), ",");
    }
  }

  /** String() of a list of booleans, numbers and strings: their String()
      forms joined with ","; true, false and null print as words. */
  lemma ToStrList(r: nat, heap: Heap)
    requires r < |heap| && forall k :: 0 <= k < |heap[r]| ==> Scalar(heap[r][k])
    ensures ToStr(List(r), heap) == Join(Texts(heap[r], heap), ",")
    ensures ToStr(Bool(true), heap) == "true" && ToStr(Bool(false), heap) == "false" && ToStr(Null, heap) == "null"
  {
    assert ToStr(List(r), heap) == JoinItems(heap[r], heap, {} + {r});
    JoinItemsFlat(heap[r], heap, {} + {r});
  }

  // ---------------------------------------------------------------------------
  // Number()

  function FromText(t: NumText): Exact<JsNum> {
    match t
    case NotNumeric => Exact(NaN)
    case IntText(i) => Exact(Int(i))
    case InfText(neg) => Exact(Inf(neg))
    case DecimalForm => Inexact
  }

  /** Number(v). */
  function ToNumber(v: Value, heap: Heap): Exact<JsNum> {
    match v
    case Undefined => Exact(NaN)
    case Null => Exact(Int(0))
    case Bool(b) => Exact(Int(if b then 1 else 0))
    case Num(n) => Exact(n)
    case Str(s) => FromText(NumberOf(s))
    case List(_) => FromText(NumberOf(ToStr(v, heap)))
    case _ => Exact(NaN)
  }

  /** ToPrimitive: objects become their string form. */
  function ToPrimitive(v: Value, heap: Heap): (p: Value)
    ensures p.Undefined? || p.Null? || p.Bool? || p.Num? || p.Str?
  {
    if v.Undefined? || v.Null? || v.Bool? || v.Num? || v.Str? then v else Str(ToStr(v, heap))
  }

  // ---------------------------------------------------------------------------
  // arithmetic on numbers

  function AddNum(a: JsNum, b: JsNum): JsNum {
    match (a, b)
    case (Int(x), Int(y)) => Int(x + y)
    case (Inf(x), Inf(y)) => if x == y then Inf(x) else NaN
    case (Inf(x), Int(_)) => Inf(x)
    case (Int(_), Inf(y)) => Inf(y)
    case _ => NaN
  }

  function SubNum(a: JsNum, b: JsNum): JsNum {
    match b
    case Int(y) => AddNum(a, Int(-y))
    case Inf(y) => AddNum(a, Inf(!y))
    case NaN => NaN
  }

  function MulNum(a: JsNum, b: JsNum): JsNum {
    match (a, b)
    case (Int(x), Int(y)) => Int(x * y)
    case (Inf(x), Inf(y)) => Inf(x != y)
    case (Inf(x), Int(y)) => if y == 0 then NaN else Inf(x != (y < 0))
    case (Int(x), Inf(y)) => if x == 0 then NaN else Inf(y != (x < 0))
    case _ => NaN
  }

  /** `/`: an integer quotient that is not exact is a non-integer double.
      A zero divisor under a non-zero dividend gives an infinity whose sign
      depends on the sign of that zero, which the model does not keep (an
      `Int(0)` stands for both 0 and -0), so that quotient is not evaluated. */
  function DivNum(a: JsNum, b: JsNum): Exact<JsNum> {
    match (a, b)
    case (Int(x), Int(y)) =>
      if y == 0 then (if x == 0 then Exact(NaN) else Inexact)
      else if x % y == 0 then Exact(Int(x / y))
      else Inexact
    case (Inf(_), Inf(_)) => Exact(NaN)
    case (Inf(x), Int(y)) => if y == 0 then Inexact else Exact(Inf(x != (y < 0)))
    case (Int(_), Inf(_)) => Exact(Int(0))
    case _ => Exact(NaN)
  }

  function Abs(x: int): nat {
    if x < 0 then -x else x
  }

  /** `%`: the remainder of truncating division, with the sign of the dividend. */
  function ModNum(a: JsNum, b: JsNum): JsNum {
    match (a, b)
    case (Int(x), Int(y)) =>
      if y == 0 then NaN
      else if x < 0 then Int(-(Abs(x) % Abs(y)))
      else Int(Abs(x) % Abs(y))
    case (Int(x), Inf(_)) => Int(x)
    case _ => NaN
  }

  function Power(x: int, k: nat): int {
    if k == 0 then 1 else x * Power(x, k - 1)
  }

  /** Math.pow on the integers and NaN; a negative exponent of a base other than
      1 or -1, and any infinite operand, is not evaluated. A zero base under a
      negative exponent is among them: the sign of the infinity it gives depends
      on the sign of that zero, which the model does not keep. */
  function PowNum(a: JsNum, b: JsNum): Exact<JsNum> {
    if b.NaN? then Exact(NaN)
    else if b == Int(0) then Exact(Int(1))
    else if a.NaN? then Exact(NaN)
    else if a.Inf? || b.Inf? then Inexact
    else if b.i > 0 then Exact(Int(Power(a.i, b.i)))
    else if a.i == 1 then Exact(Int(1))
    else if a.i == -1 then Exact(Int(if b.i % 2 == 0 then 1 else -1))
    else Inexact
  }

  // ---------------------------------------------------------------------------
  // + and comparisons on values

  /** JavaScript `+`: concatenation when either primitive is a string,
      numeric addition otherwise. */
  function Add(l: Value, r: Value, heap: Heap): Value {
    var lp, rp := ToPrimitive(l, heap), ToPrimitive(r, heap);
    if lp.Str? || rp.Str? then Str(ToStr(lp, heap) + ToStr(rp, heap))
    else Num(AddNum(ToNumber(lp, heap).value, ToNumber(rp, heap).value))
  }

  /** `===`. */
  predicate StrictEquals(a: Value, b: Value) {
    if a.Num? && b.Num? then
      match (a.n, b.n)
      case (Int(x), Int(y)) => x == y
      case (Inf(x), Inf(y)) => x == y
      case _ => false
    else a == b
  }

  /** Code-unit order on strings. */
  predicate StrLess(a: string, b: string) {
    if a == [] then b != []
    else if b == [] then false
    else if a[0] != b[0] then a[0] < b[0]
    else StrLess(a[1..], b[1..])
  }

  /** a < b on numbers, or None when either is NaN. */
  function NumLess(a: JsNum, b: JsNum): Option<bool> {
    match (a, b)
    case (Int(x), Int(y)) => Some(x < y)
    case (Inf(x), Inf(y)) => Some(x && !y)
    case (Inf(x), Int(_)) => Some(x)
    case (Int(_), Inf(y)) => Some(!y)
    case _ => None
  }

  /** The abstract relational comparison a < b: true, false, or undefined (None). */
  function LessThan(a: Value, b: Value, heap: Heap): Exact<Option<bool>> {
    var pa, pb := ToPrimitive(a, heap), ToPrimitive(b, heap);
    if pa.Str? && pb.Str? then Exact(Some(StrLess(pa.s, pb.s)))
    else
      match (ToNumber(pa, heap), ToNumber(pb, heap))
      case (Exact(x), Exact(y)) => Exact(NumLess(x, y))
      case _ => Inexact
  }

  /** `+` adds two integers and concatenates as soon as one side is a string:
      "n" + 1 is "n1" and 1 + "n" is "1n". */
  lemma AddCases(x: int, y: int, a: string, b: string, heap: Heap)
    ensures Add(Num(Int(x)), Num(Int(y)), heap) == Num(Int(x + y))
    ensures Add(Str(a), Str(b), heap) == Str(a + b)
    ensures Add(Str(a), Num(Int(y)), heap) == Str(a + IntToDecimal(y))
    ensures Add(Num(Int(x)), Str(b), heap) == Str(IntToDecimal(x) + b)
  {
  }

  /** `%` is the remainder of division truncated toward zero: smaller than the
      divisor in magnitude, with the sign of the dividend, and the dividend is
      the truncated quotient q times the divisor plus the remainder. */
  lemma ModTruncates(x: int, y: int) returns (q: int)
    requires y != 0
    ensures ModNum(Int(x), Int(y)).Int?
    ensures var r := ModNum(Int(x), Int(y)).i;
      Abs(r) < Abs(y) && (x >= 0 ==> r >= 0) && (x < 0 ==> r <= 0) && x == q * y + r
  {
    q := TruncatedQuotient(x, y);
    assert Abs(x) == Abs(x) / Abs(y) * Abs(y) + Abs(x) % Abs(y);
  }

  /** The quotient of truncating division: its magnitude is |x| / |y| and its
      sign makes q * y carry the sign of x. */
  lemma TruncatedQuotient(x: int, y: int) returns (q: int)
    requires y != 0
    ensures q * y == (if x < 0 then -(Abs(x) / Abs(y) * Abs(y)) else Abs(x) / Abs(y) * Abs(y))
  {
    var k := Abs(x) / Abs(y);
    if y < 0 {
      assert k * y == -(k * Abs(y));
    }
    q := if (x < 0) == (y < 0) then k else -k;
  }

  /** `===` on numbers compares their values, and NaN equals nothing, itself
      included; on any other pair of values it is identity. */
  lemma StrictEqualsCases(x: int, y: int, v: Value)
    ensures StrictEquals(Num(Int(x)), Num(Int(y))) <==> x == y
    ensures !StrictEquals(Num(NaN), v) && !StrictEquals(v, Num(NaN))
    ensures !v.Num? ==> StrictEquals(v, v)
  {
  }

  /** The code-unit order on strings is irreflexive, asymmetric and total. */
  lemma {:induction false} StrLessTotal(a: string, b: string)
    ensures !(StrLess(a, b) && StrLess(b, a))
    ensures a != b ==> StrLess(a, b) || StrLess(b, a)
    ensures !StrLess(a, a)
    decreases |a|
  {
    if a != [] && b != [] && a[0] == b[0] {
      StrLessTotal(a[1..], b[1..]);
      if a != b {
        assert a == [a[0]] + a[1..] && b == [b[0]] + b[1..];
      }
    } else if a != [] && b == [] {
      StrLessTotal(a[1..], a[1..]);
    } else if a != [] {
      StrLessTotal(a[1..], a[1..]);
    }
  }

  /** The relational comparison of two integers, and of two strings by their
      code units. */
  lemma LessThanCases(x: int, y: int, a: string, b: string, heap: Heap)
    ensures LessThan(Num(Int(x)), Num(Int(y)), heap) == Exact(Some(x < y))
    ensures LessThan(Str(a), Str(b), heap) == Exact(Some(StrLess(a, b)))
    ensures LessThan(Num(NaN), Num(Int(y)), heap) == Exact(None)
  {
  }

  // ---------------------------------------------------------------------------
  // property reads

  /** A canonical array index: "0" or digits without a leading zero. */
  function ArrayIndex(name: string): Option<nat> {
    if name == "0" then Some(0)
    else if |name| > 0 && name[0] != '0' && AllDigits(name) then
      AllDigitsInTen(name);
      Some(ValueIn(name, 10))
    else None
  }

  /** obj[name] for an object that is neither undefined nor null. */
  function GetProperty(obj: Value, name: string, heap: Heap): Value {
    match obj
    case Str(s) =>
      if name == "length" then Num(Int(|s|))
      else if ArrayIndex(name).Some? && ArrayIndex(name).value < |s| then Str([s[ArrayIndex(name).value]])
      else Undefined
    case List(r) =>
      if name == "length" then Num(Int(|Cell(heap, r)|))
      else if ArrayIndex(name).Some? && ArrayIndex(name).value < |Cell(heap, r)| then Cell(heap, r)[ArrayIndex(name).value]
      else Undefined
    case Host(kind, r) =>
      if (kind == Base64 && name == "b64decode") || (kind == Threading && name == "Lock") then HostFn(kind, r)
      else Undefined
    case ErrorObj(e, _) =>
      if name == "message" then Str(ErrorMessage(e))
      else if name == "name" then Str(ErrorName(e))
      else Undefined
    case _ => Undefined
  }

  /** A caught error prints as its name, a colon and its message, which are
      what its name and message properties read: a property read of undefined
      or null is a TypeError and a runaway recursion a RangeError. */
  lemma ErrorObjectText(e: JsError, ref: nat, heap: Heap)
    ensures var v := ErrorObj(e, ref);
      GetProperty(v, "name", heap) == Str(ErrorName(e))
      && GetProperty(v, "message", heap) == Str(ErrorMessage(e))
      && ToStr(v, heap) == GetProperty(v, "name", heap).s + ": " + GetProperty(v, "message", heap).s
    ensures ErrorName(e) == if e.StackOverflow? then "RangeError" else "TypeError"
    ensures e.StackOverflow? ==> ErrorMessage(e) == "Maximum call stack size exceeded"
  {
  }

  // ---------------------------------------------------------------------------
  // range

  /** What a call of the builtin range yields: the numbers of the new list, a
      loop that never ends, or arguments the model does not follow. */
  datatype RangeOut = Items(xs: seq<int>) | Forever | NotFollowed

  /** start, start+step, ... while below end, for a positive step. */
  function Ints(start: int, end: int, step: nat): (xs: seq<int>)
    requires step > 0
    ensures xs == [] <==> start >= end
    ensures forall k :: 0 <= k < |xs| ==> xs[k] == start + k * step && xs[k] < end
    ensures xs != [] ==> xs[|xs| - 1] + step >= end
    decreases end - start
  {
    if start >= end then [] else [start] + Ints(start + step, end, step)
  }

  function Arg(args: seq<Value>, k: nat): Value {
    if k < |args| then args[k] else Undefined
  }

  /** range(start, end, step): with one argument the count starts at 0, and a
      falsy step (0 or missing) becomes 1. The loop `for (i = start; i < end;
      i += step)` is followed for an integer start and step. */
  function Range(args: seq<Value>, heap: Heap): RangeOut {
    var oneArg := Arg(args, 1).Undefined?;
    var start := if oneArg then Num(Int(0)) else Arg(args, 0);
    var end := if oneArg then Arg(args, 0) else Arg(args, 1);
    var step := if Truthy(Arg(args, 2)) then Arg(args, 2) else Num(Int(1));
    if !(start.Num? && start.n.Int? && step.Num? && step.n.Int?) then NotFollowed
    else
      var s, k := start.n.i, step.n.i;
      match ToNumber(end, heap)
      case Inexact => NotFollowed
      case Exact(NaN) => Items([])
      case Exact(Inf(neg)) => if neg then Items([]) else Forever
      case Exact(Int(e)) =>
        if k > 0 then Items(Ints(s, e, k))
        else if s < e then Forever
        else Items([])
  }

  /** range(n) counts from 0 up to n in steps of 1. */
  lemma RangeOneArgument(n: int, heap: Heap)
    ensures Range([Num(Int(n))], heap) == Items(Ints(0, n, 1))
    ensures n > 0 ==> Range([Num(Int(n))], heap).xs == seq(n, k requires 0 <= k < n => k)
  {
    if n > 0 {
      var xs := Ints(0, n, 1);
      assert |xs| == n by {
        assert xs[|xs| - 1] + 1 >= n;
      }
    }
  }

  /** A step of 0 is the same as no step at all, which is a step of 1. */
  lemma RangeZeroStep(a: int, b: int, heap: Heap)
    ensures Range([Num(Int(a)), Num(Int(b)), Num(Int(0))], heap) == Range([Num(Int(a)), Num(Int(b))], heap)
    ensures Range([Num(Int(a)), Num(Int(b))], heap) == Items(Ints(a, b, 1))
  {
  }
}
