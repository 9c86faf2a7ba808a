/** The expressions of a script: their evaluation over dynamically typed values, the fields they
    use, and the check of their types when the script is loaded. */
module Expressions {
  import Aggregates

  datatype Option<T> = None | Some(value: T)

  // ---------------------------------------------------------------- values

  /** The integer types of the host language that can turn up in an expression. */
  datatype Width = HostInt | Int8 | Int16 | Int32 | Int64

  datatype Zone = Utc | Local | Fixed(name: string, offset: int)

  /** A float is single or double; a time is in nanoseconds, and has a zone to be printed in. */
  datatype Value =
    | VNil
    | VInt(width: Width, n: int)
    | VFloat(isDouble: bool, x: real)
    | VDec(d: real)
    | VStr(s: string)
    | VBool(b: bool)
    | VTime(t: int, zone: Zone)
    | VBytes(bs: seq<nat>)
    | VMonth(month: int)
    | VZone(zone: Zone)

  datatype Kind =
    | KNil | KInt(width: Width) | KFloat(isDouble: bool) | KDec | KStr | KBool | KTime | KBytes | KMonth | KZone

  function KindOf(v: Value): Kind {
    match v
    case VNil => KNil
    case VInt(w, _) => KInt(w)
    case VFloat(p, _) => KFloat(p)
    case VDec(_) => KDec
    case VStr(_) => KStr
    case VBool(_) => KBool
    case VTime(_, _) => KTime
    case VBytes(_) => KBytes
    case VMonth(_) => KMonth
    case VZone(_) => KZone
  }

  function Int(n: int): Value {
    VInt(Int64, Aggregates.Wrap(n))
  }

  datatype Error = DivideByZero | OtherError

  datatype Result = Val(value: Value) | Err(error: Error)

  /** Arithmetic on floats and decimals, comparison of strings and bytes, and the aggregates over
      values other than integers. */
  datatype Prims = Prims(
    floatOp: (Op, real, real) -> real,
    decOp: (Op, real, real) -> real,
    toFloat: Value -> real,
    toDec: Value -> real,
    order: (Value, Value) -> int,
    aggregate: (Aggregates.AggFunc, seq<Value>) -> real,
    extreme: (Aggregates.AggFunc, seq<Value>) -> string,
    concat: seq<Value> -> string)

  // ---------------------------------------------------------------- expressions

  datatype Op = Add | Sub | Mul | Quo | Rem | LAnd | LOr | Gtr | Lss | Geq | Leq | Eql | Neq | Not | OtherOp

  /** What is called: a function, a function of a package, or something else. */
  datatype Fun = Plain(name: string) | Qualified(obj: string, sel: string) | BadFun

  /** `Selector` is a field of a table; calls carry the place where they stand in the script. */
  datatype Exp =
    | Binary(left: Exp, op: Op, right: Exp)
    | Unary(op: Op, operand: Exp)
    | IntLit(n: int)
    | FloatLit(x: real)
    | StrLit(text: string)
    | Ident(name: string)
    | Selector(obj: string, sel: string)
    | BadSelector
    | Call(place: nat, fun: Fun, args: seq<Exp>)
    | Paren(inner: Exp)
    | OtherExp

  type Vars = map<string, map<string, Value>>

  datatype Field = Field(table: string, name: string)

  function Lookup(vars: Vars, f: Field): Option<Value> {
    if f.table in vars && f.name in vars[f.table] then Some(vars[f.table][f.name]) else None
  }

  /** What a function is called with: the time its call is made, and its arguments. */
  type Func = (int, seq<Value>) -> Result

  /** What every script can use: constants and functions by name. */
  datatype Lib = Lib(prims: Prims, consts: map<string, Value>, funcs: map<string, Func>)

  /** What the clock shows when the call at a place of the script is made. */
  type Clock = nat -> int

  function FullName(fun: Fun): string {
    match fun
    case Plain(name) => name
    case Qualified(obj, sel) => obj + "." + sel
    case BadFun => ""
  }

  // ---------------------------------------------------------------- operators

  predicate IsArithmetic(op: Op) {
    op == Add || op == Sub || op == Mul || op == Quo || op == Rem
  }

  predicate IsCompare(op: Op) {
    op == Gtr || op == Lss || op == Geq || op == Leq || op == Eql || op == Neq
  }

  /** Casts a number to a 64-bit integer, a double or a decimal. */
  function Standard(v: Value): Option<Value> {
    match v
    case VInt(_, n) => Some(VInt(Int64, n))
    case VFloat(_, x) => Some(VFloat(true, x))
    case VDec(_) => Some(v)
    case _ => None
  }

  /** The type two numbers are cast to: floats over decimals over integers. */
  function CommonPair(prims: Prims, l: Value, r: Value): Option<(Value, Value)> {
    var a, b := Standard(l), Standard(r);
    if a.None? || b.None? then None
    else if a.value.VFloat? || b.value.VFloat? then
      Some((VFloat(true, prims.toFloat(a.value)), VFloat(true, prims.toFloat(b.value))))
    else if a.value.VDec? || b.value.VDec? then
      Some((VDec(prims.toDec(a.value)), VDec(prims.toDec(b.value))))
    else Some((a.value, b.value))
  }

  /** Division of 64-bit integers truncates toward zero. */
  function Truncated(a: int, b: int): int
    requires b != 0
  {
    if (a >= 0) == (b > 0) then Abs(a) / Abs(b) else -(Abs(a) / Abs(b))
  }

  function Abs(a: int): nat {
    if a < 0 then -a else a
  }

  function IntOp(op: Op, a: int, b: int): Result {
    match op
    case Add => Val(Int(a + b))
    case Sub => Val(Int(a - b))
    case Mul => Val(Int(a * b))
    case Quo => if b == 0 then Err(DivideByZero) else Val(Int(Truncated(a, b)))
    case Rem => if b == 0 then Err(DivideByZero) else Val(Int(a - b * Truncated(a, b)))
    case _ => Err(OtherError)
  }

  function Arithmetic(prims: Prims, op: Op, l: Value, r: Value): Result {
    if l.VStr? then (if r.VStr? && op == Add then Val(VStr(l.s + r.s)) else Err(OtherError))
    else
      match CommonPair(prims, l, r)
      case None => Err(OtherError)
      case Some((VInt(_, a), VInt(_, b))) => IntOp(op, a, b)
      case Some((VFloat(_, a), VFloat(_, b))) =>
        if op == Rem then Err(OtherError) else Val(VFloat(true, prims.floatOp(op, a, b)))
      case Some((VDec(a), VDec(b))) =>
        if op == Rem then Err(OtherError)
        else if op == Quo && b == 0.0 then Err(DivideByZero)
        else Val(VDec(prims.decOp(op, a, b)))
      case _ => Err(OtherError)
  }

  function Ordered(op: Op, order: int): bool {
    match op
    case Gtr => order > 0
    case Lss => order < 0
    case Geq => order >= 0
    case Leq => order <= 0
    case Eql => order == 0
    case Neq => order != 0
    case _ => false
  }

  function Compare(prims: Prims, op: Op, l: Value, r: Value): Result {
    if l.VNil? || r.VNil? then Val(VBool(if l.VNil? && r.VNil? then op == Eql else op == Neq))
    else
      match l
      case VTime(a, _) => if r.VTime? then Val(VBool(Ordered(op, a - r.t))) else Err(OtherError)
      case VStr(a) =>
        if !r.VStr? then Err(OtherError)
        else Val(VBool(Ordered(op, prims.order(VStr(Unescaped(a, '\\')), VStr(Unescaped(r.s, '"'))))))
      case VBool(a) =>
        if r.VBool? && (op == Eql || op == Neq) then Val(VBool((a == r.b) == (op == Eql))) else Err(OtherError)
      case VBytes(_) => if r.VBytes? then Val(VBool(Ordered(op, prims.order(l, r)))) else Err(OtherError)
      case _ =>
        match CommonPair(prims, l, r)
        case Some((VInt(_, a), VInt(_, b))) => Val(VBool(Ordered(op, a - b)))
        case Some((a, b)) => Val(VBool(Ordered(op, prims.order(a, b))))
        case None => Err(OtherError)
  }

  function Logic(op: Op, l: Value, r: Value): Result {
    if l.VBool? && r.VBool? then Val(VBool(if op == LAnd then l.b && r.b else l.b || r.b)) else Err(OtherError)
  }

  function BinaryOp(prims: Prims, op: Op, l: Value, r: Value): Result {
    if IsArithmetic(op) then Arithmetic(prims, op, l, r)
    else if op == LAnd || op == LOr then Logic(op, l, r)
    else if IsCompare(op) then Compare(prims, op, l, r)
    else Err(OtherError)
  }

  /** Negation in the operand's own width. */
  function Negated(width: Width, n: int): int {
    if (width == Int16 && n == -0x8000) || (width == Int32 && n == -0x8000_0000) then n else -n
  }

  function UnaryOp(op: Op, v: Value): Result {
    if op == Not then (if v.VBool? then Val(VBool(!v.b)) else Err(OtherError))
    else if op == Sub then
      match v
      case VInt(w, n) => if w == Int8 then Err(OtherError) else Val(Int(Negated(w, n)))
      case VFloat(_, x) => Val(VFloat(true, -x))
      case VDec(d) => Val(VDec(-d))
      case _ => Err(OtherError)
    else Err(OtherError)
  }

  // ---------------------------------------------------------------- strings in comparisons

  function TrimLeft(s: string): string {
    if s != "" && s[0] == '"' then TrimLeft(s[1..]) else s
  }

  function TrimRight(s: string): string {
    if s != "" && s[|s| - 1] == '"' then TrimRight(s[..|s| - 1]) else s
  }

  /** A backslash before a double quote. */
  predicate StartsEscape(s: string) {
    |s| >= 2 && s[0] == '\\' && s[1] == '"'
  }

  function Replaced(s: string, mark: char): string {
    if s == "" then ""
    else if StartsEscape(s) then [mark] + Replaced(s[2..], mark)
    else [s[0]] + Replaced(s[1..], mark)
  }

  /** A string as a comparison sees it: escaped quotes become `mark`. */
  function Unescaped(s: string, mark: char): string {
    Replaced(TrimRight(TrimLeft(s)), mark)
  }

  predicate HasEscape(s: string) {
    s != "" && (StartsEscape(s) || HasEscape(s[1..]))
  }

  lemma {:induction false} ReplacedSameIff(s: string)
    ensures Replaced(s, '\\') == Replaced(s, '"') <==> !HasEscape(s)
  {
    if s != "" && !StartsEscape(s) {
      ReplacedSameIff(s[1..]);
      assert Replaced(s, '\\')[1..] == Replaced(s[1..], '\\') && Replaced(s, '"')[1..] == Replaced(s[1..], '"');
    } else if s != "" {
      assert Replaced(s, '\\')[0] == '\\' && Replaced(s, '"')[0] == '"';
    }
  }

  /** The two sides of a comparison replace escaped quotes by different characters. A string is equal
      to itself exactly when there is no escaped quote inside it. */
  lemma StringEqualsItselfIff(prims: Prims, s: string)
    requires forall a, b: string :: prims.order(VStr(a), VStr(b)) == 0 <==> a == b
    ensures BinaryOp(prims, Eql, VStr(s), VStr(s)) == Val(VBool(true)) <==> !HasEscape(TrimRight(TrimLeft(s)))
  {
    ReplacedSameIff(TrimRight(TrimLeft(s)));
  }

  // ---------------------------------------------------------------- aggregate functions

  datatype Agg = StringAgg | Number(func: Aggregates.AggFunc)

  datatype AggName = AggName(agg: Agg, isIf: bool)

  function AggOf(name: string): Option<AggName> {
    if name == "string_agg" then Some(AggName(StringAgg, false))
    else if name == "string_agg_if" then Some(AggName(StringAgg, true))
    else if name == "sum" then Some(AggName(Number(Aggregates.Sum), false))
    else if name == "sum_if" then Some(AggName(Number(Aggregates.Sum), true))
    else if name == "count" then Some(AggName(Number(Aggregates.Count), false))
    else if name == "count_if" then Some(AggName(Number(Aggregates.Count), true))
    else if name == "avg" then Some(AggName(Number(Aggregates.Avg), false))
    else if name == "avg_if" then Some(AggName(Number(Aggregates.Avg), true))
    else if name == "min" then Some(AggName(Number(Aggregates.Min), false))
    else if name == "min_if" then Some(AggName(Number(Aggregates.Min), true))
    else if name == "max" then Some(AggName(Number(Aggregates.Max), false))
    else if name == "max_if" then Some(AggName(Number(Aggregates.Max), true))
    else None
  }

  /** What an evaluation context carries from row to row: the aggregate it serves and the call it was
      first used for, the type of the collected values, the values, and the last value computed. */
  datatype Ctx = Ctx(
    aggEnabled: bool,
    aggFunc: Option<Agg>,
    aggCall: Option<nat>,
    aggType: Option<Kind>,
    fed: seq<Value>,
    count: nat,
    value: Value)

  function Arity(agg: Agg): nat {
    match agg
    case StringAgg => 2
    case Number(f) => if f == Aggregates.Count then 0 else 1
  }

  function IntsOf(fed: seq<Value>): seq<int> {
    seq(|fed|, i requires 0 <= i < |fed| => if fed[i].VInt? then fed[i].n else 0)
  }

  /** The aggregate of the collected values, all of the type of `arg`. */
  function AggValue(prims: Prims, f: Aggregates.AggFunc, fed: seq<Value>, arg: Value): Value {
    match arg
    case VInt(_, _) => Int(Aggregates.Value(f, IntsOf(fed)))
    case VFloat(_, _) => VFloat(true, prims.aggregate(f, fed))
    case VStr(_) => VStr(prims.extreme(f, fed))
    case _ => VDec(prims.aggregate(f, fed))
  }

  /** Collects one argument of a typed aggregate; an aggregate keeps to the type it started with. */
  function CollectTyped(prims: Prims, c: Ctx, f: Aggregates.AggFunc, arg: Value, isApply: bool): (Result, Ctx) {
    if c.aggType.Some? && c.aggType.value != KindOf(arg) then (Err(OtherError), c)
    else
      var fed := if isApply then c.fed + [arg] else c.fed;
      (Val(AggValue(prims, f, fed, arg)), c.(aggType := Some(KindOf(arg)), fed := fed))
  }

  function Collect(prims: Prims, c: Ctx, agg: Agg, args: seq<Value>, isApply: bool): (Result, Ctx)
    requires |args| >= Arity(agg)
  {
    match agg
    case StringAgg =>
      if !args[0].VStr? then (Err(OtherError), c)
      else
        var fed := if isApply then c.fed + [args[0]] else c.fed;
        (Val(VStr(prims.concat(fed))), c.(fed := fed))
    case Number(f) =>
      if f == Aggregates.Count then
        var count := if isApply then c.count + 1 else c.count;
        (Val(Int(count)), c.(count := count))
      else if args[0].VStr? && (f == Aggregates.Min || f == Aggregates.Max) then
        CollectTyped(prims, c, f, args[0], isApply)
      else
        match Standard(args[0])
        case None => (Err(OtherError), c)
        case Some(arg) => CollectTyped(prims, c, f, arg, isApply)
  }

  /** An aggregate may be used only where its context was made for it, and only one per context. */
  function CallAgg(prims: Prims, c: Ctx, place: nat, name: AggName, args: seq<Value>): (Result, Ctx) {
    if !c.aggEnabled || (c.aggCall.Some? && c.aggCall.value != place) then (Err(OtherError), c)
    else
      var c := if c.aggCall.None? then c.(aggCall := Some(place), aggFunc := Some(name.agg)) else c;
      var arity := Arity(name.agg) + if name.isIf then 1 else 0;
      if |args| != arity || (name.isIf && !args[arity - 1].VBool?) then (Err(OtherError), c)
      else Collect(prims, c, name.agg, args, !name.isIf || args[arity - 1].b)
  }

  // ---------------------------------------------------------------- evaluation

  function TrimChar(s: string, mark: char): string {
    TrimCharRight(TrimCharLeft(s, mark), mark)
  }

  function TrimCharLeft(s: string, mark: char): string {
    if s != "" && s[0] == mark then TrimCharLeft(s[1..], mark) else s
  }

  function TrimCharRight(s: string, mark: char): string {
    if s != "" && s[|s| - 1] == mark then TrimCharRight(s[..|s| - 1], mark) else s
  }

  /** Keeps the value of a result in the context. */
  function Noted(r: Result, c: Ctx): (Result, Ctx) {
    (r, if r.Val? then c.(value := r.value) else c)
  }

  function EvalName(lib: Lib, full: string, found: Option<Value>, c: Ctx): (Result, Ctx) {
    if full in lib.consts then Noted(Val(lib.consts[full]), c)
    else if found.Some? then Noted(Val(found.value), c)
    else (Err(OtherError), c)
  }

  function EvalFunc(lib: Lib, clock: Clock, c: Ctx, place: nat, fun: Fun, args: seq<Value>): (Result, Ctx) {
    if fun.BadFun? then (Err(OtherError), c)
    else if AggOf(FullName(fun)).Some? then
      var (r, c) := CallAgg(lib.prims, c, place, AggOf(FullName(fun)).value, args);
      Noted(r, c)
    else if FullName(fun) in lib.funcs then Noted(lib.funcs[FullName(fun)](clock(place), args), c)
    else (Err(OtherError), c)
  }

  datatype ArgsResult = Args(values: seq<Value>) | ArgsErr(error: Error)

  function Eval(lib: Lib, clock: Clock, vars: Vars, e: Exp, c: Ctx): (Result, Ctx)
    decreases e, if e.Call? then |e.args| + 1 else 0
  {
    match e
    case Binary(x, op, y) =>
      var (l, c) := Eval(lib, clock, vars, x, c);
      if l.Err? then (l, c)
      else
        var (r, c) := Eval(lib, clock, vars, y, c);
        if r.Err? then (r, c) else Noted(BinaryOp(lib.prims, op, l.value, r.value), c)
    case Unary(op, x) =>
      if op != Not && op != Sub then (Err(OtherError), c)
      else
        var (r, c) := Eval(lib, clock, vars, x, c);
        if r.Err? then (r, c) else Noted(UnaryOp(op, r.value), c)
    case IntLit(n) =>
      Noted(Val(if Aggregates.IsInt64(n) then VInt(Int64, n) else VDec(n as real)), c)
    case FloatLit(x) => Noted(Val(VFloat(true, x)), c)
    case StrLit(text) =>
      // the context keeps the literal with its quotes
      (Val(VStr(if text != "" && text[0] == '"' then TrimChar(text, '"') else TrimChar(text, '`'))),
          c.(value := VStr(text)))
    case Ident(name) => EvalName(lib, name, Lookup(vars, Field("", name)), c)
    case Selector(obj, sel) => EvalName(lib, obj + "." + sel, Lookup(vars, Field(obj, sel)), c)
    case Call(place, fun, args) =>
      var (rs, c) := EvalArgs(lib, clock, vars, e, |args|, c);
      if rs.ArgsErr? then (Err(rs.error), c) else EvalFunc(lib, clock, c, place, fun, rs.values)
    case Paren(x) => Eval(lib, clock, vars, x, c)
    case BadSelector => (Err(OtherError), c)
    case OtherExp => (Err(OtherError), c)
  }

  /** Evaluates the first `n` arguments of a call, from left to right. */
  function EvalArgs(lib: Lib, clock: Clock, vars: Vars, call: Exp, n: nat, c: Ctx): (ArgsResult, Ctx)
    requires call.Call? && n <= |call.args|
    decreases call, n
  {
    if n == 0 then (Args([]), c)
    else
      var (front, c) := EvalArgs(lib, clock, vars, call, n - 1, c);
      if front.ArgsErr? then (front, c)
      else
        var (r, c) := Eval(lib, clock, vars, call.args[n - 1], c);
        if r.Err? then (ArgsErr(r.error), c) else (Args(front.values + [r.value]), c)
  }

  // ---------------------------------------------------------------- the fields an expression uses

  /** Collecting the fields of an expression; plain identifiers other than the two truth values and
      selectors of anything but a table are refused. */
  function Harvest(lib: Lib, e: Exp): Option<set<Field>>
    decreases e, if e.Call? then |e.args| + 1 else 0
  {
    match e
    case Binary(x, _, y) => Both(Harvest(lib, x), Harvest(lib, y))
    case Unary(_, x) => Harvest(lib, x)
    case Call(_, _, args) => HarvestArgs(lib, e, |args|)
    case Selector(obj, sel) => Some(if obj + "." + sel in lib.consts then {} else {Field(obj, sel)})
    case BadSelector => None
    case Ident(name) => if name == "true" || name == "false" then Some({}) else None
    case Paren(x) => Harvest(lib, x)
    case _ => Some({})
  }

  function Both(a: Option<set<Field>>, b: Option<set<Field>>): Option<set<Field>> {
    if a.None? || b.None? then None else Some(a.value + b.value)
  }

  function HarvestArgs(lib: Lib, call: Exp, n: nat): Option<set<Field>>
    requires call.Call? && n <= |call.args|
    decreases call, n
  {
    if n == 0 then Some({}) else Both(HarvestArgs(lib, call, n - 1), Harvest(lib, call.args[n - 1]))
  }

  // ---------------------------------------------------------------- the kind of the result

  predicate SameKind(a: Result, b: Result) {
    a.Val? && b.Val? ==> KindOf(a.value) == KindOf(b.value)
  }

  predicate Alike(a: seq<Value>, b: seq<Value>) {
    |a| == |b| && forall i :: 0 <= i < |a| ==> KindOf(a[i]) == KindOf(b[i])
  }

  /** The kinds of a function's arguments determine the kind of its result, at any time. */
  ghost predicate IsDetermined(f: Func) {
    forall t, t', a, b :: Alike(a, b) ==> SameKind(f(t, a), f(t', b))
  }

  /** The functions a script can call: an aggregate hides a function of the same name. */
  ghost predicate AllDetermined(lib: Lib) {
    forall name :: name in lib.funcs && AggOf(name).None? ==> IsDetermined(lib.funcs[name])
  }

  predicate HasTruth(lib: Lib) {
    "true" in lib.consts && "false" in lib.consts
  }

  predicate AlikeAt(vars: Vars, vars': Vars, f: Field) {
    Lookup(vars, f).Some? && Lookup(vars', f).Some? ==> KindOf(Lookup(vars, f).value) == KindOf(Lookup(vars', f).value)
  }

  predicate VarsAlike(vars: Vars, vars': Vars, fields: set<Field>) {
    forall f :: f in fields ==> AlikeAt(vars, vars', f)
  }

  lemma PairKind(prims: Prims, l: Value, r: Value, l': Value, r': Value)
    requires KindOf(l) == KindOf(l') && KindOf(r) == KindOf(r')
    ensures var a, b := CommonPair(prims, l, r), CommonPair(prims, l', r');
            (a.Some? <==> b.Some?) && (a.Some? ==>
              && KindOf(a.value.0) == KindOf(a.value.1) == KindOf(b.value.0) == KindOf(b.value.1)
              && KindOf(a.value.0) in {KInt(Int64), KFloat(true), KDec})
  {
  }

  lemma ArithmeticKind(prims: Prims, op: Op, l: Value, r: Value, l': Value, r': Value)
    requires KindOf(l) == KindOf(l') && KindOf(r) == KindOf(r')
    ensures SameKind(Arithmetic(prims, op, l, r), Arithmetic(prims, op, l', r'))
  {
    PairKind(prims, l, r, l', r');
  }

  lemma CompareKind(prims: Prims, op: Op, l: Value, r: Value)
    ensures Compare(prims, op, l, r).Val? ==> Compare(prims, op, l, r).value.VBool?
  {
  }

  lemma LogicKind(op: Op, l: Value, r: Value)
    ensures Logic(op, l, r).Val? ==> Logic(op, l, r).value.VBool?
  {
  }

  lemma BinaryIs(prims: Prims, op: Op, l: Value, r: Value)
    ensures BinaryOp(prims, op, l, r) ==
            if IsArithmetic(op) then Arithmetic(prims, op, l, r)
            else if IsCompare(op) then Compare(prims, op, l, r)
            else if op == LAnd || op == LOr then Logic(op, l, r) else Err(OtherError)
  {
  }

  lemma TruthKind(prims: Prims, op: Op, l: Value, r: Value)
    requires !IsArithmetic(op)
    ensures BinaryOp(prims, op, l, r).Val? ==> KindOf(BinaryOp(prims, op, l, r).value) == KBool
  {
    BinaryIs(prims, op, l, r);
    if IsCompare(op) {
      CompareKind(prims, op, l, r);
    } else {
      LogicKind(op, l, r);
    }
  }

  lemma BinaryKind(prims: Prims, op: Op, l: Value, r: Value, l': Value, r': Value)
    requires KindOf(l) == KindOf(l') && KindOf(r) == KindOf(r')
    ensures SameKind(BinaryOp(prims, op, l, r), BinaryOp(prims, op, l', r'))
  {
    if IsArithmetic(op) {
      BinaryIs(prims, op, l, r);
      BinaryIs(prims, op, l', r');
      ArithmeticKind(prims, op, l, r, l', r');
    } else {
      TruthKind(prims, op, l, r);
      TruthKind(prims, op, l', r');
    }
  }

  /** An aggregate's result has the kind its arguments call for, whatever was collected before. */
  lemma CollectKind(prims: Prims, c: Ctx, c': Ctx, agg: Agg, args: seq<Value>, args': seq<Value>, isApply: bool,
                    isApply': bool)
    requires |args| >= Arity(agg) && Alike(args, args')
    ensures SameKind(Collect(prims, c, agg, args, isApply).0, Collect(prims, c', agg, args', isApply').0)
  {
    if Arity(agg) > 0 {
      assert KindOf(args[0]) == KindOf(args'[0]);
    }
  }

  lemma CallAggKind(prims: Prims, c: Ctx, c': Ctx, place: nat, name: AggName, args: seq<Value>, args': seq<Value>)
    requires Alike(args, args')
    ensures SameKind(CallAgg(prims, c, place, name, args).0, CallAgg(prims, c', place, name, args').0)
  {
    var arity := Arity(name.agg) + if name.isIf then 1 else 0;
    if |args| == arity && CallAgg(prims, c, place, name, args).0.Val? && CallAgg(prims, c', place, name, args').0.Val? {
      var d := if c.aggCall.None? then c.(aggCall := Some(place), aggFunc := Some(name.agg)) else c;
      var d' := if c'.aggCall.None? then c'.(aggCall := Some(place), aggFunc := Some(name.agg)) else c';
      var isApply, isApply' := !name.isIf || args[arity - 1].b, !name.isIf || args'[arity - 1].b;
      CollectKind(prims, d, d', name.agg, args, args', isApply, isApply');
    }
  }

  lemma KindOfCall(f: Func, t: int, t': int, a: seq<Value>, b: seq<Value>)
    requires IsDetermined(f) && Alike(a, b)
    ensures SameKind(f(t, a), f(t', b))
  {
  }

  lemma FuncKind(lib: Lib, clock: Clock, clock': Clock, c: Ctx, c': Ctx, place: nat, fun: Fun, args: seq<Value>,
                 args': seq<Value>)
    requires AllDetermined(lib) && Alike(args, args')
    ensures SameKind(EvalFunc(lib, clock, c, place, fun, args).0, EvalFunc(lib, clock', c', place, fun, args').0)
  {
    if !fun.BadFun? {
      if AggOf(FullName(fun)).Some? {
        CallAggKind(lib.prims, c, c', place, AggOf(FullName(fun)).value, args, args');
      } else if FullName(fun) in lib.funcs {
        KindOfCall(lib.funcs[FullName(fun)], clock(place), clock'(place), args, args');
      }
    }
  }

  lemma OperandsKind(prims: Prims, op: Op, l: Result, r: Result, l': Result, r': Result)
    requires SameKind(l, l') && SameKind(r, r')
    ensures l.Val? && r.Val? && l'.Val? && r'.Val? ==>
              SameKind(BinaryOp(prims, op, l.value, r.value), BinaryOp(prims, op, l'.value, r'.value))
  {
    if l.Val? && r.Val? && l'.Val? && r'.Val? {
      BinaryKind(prims, op, l.value, r.value, l'.value, r'.value);
    }
  }

  /** The kind of a result depends on the kinds of the used fields only: not on their values, not on
      other fields, not on what the context has collected. */
  lemma {:induction false} EvalKind(lib: Lib, e: Exp, clock: Clock, clock': Clock, vars: Vars, vars': Vars, c: Ctx,
                                    c': Ctx)
    requires AllDetermined(lib) && HasTruth(lib)
    requires Harvest(lib, e).Some? && VarsAlike(vars, vars', Harvest(lib, e).value)
    ensures SameKind(Eval(lib, clock, vars, e, c).0, Eval(lib, clock', vars', e, c').0)
    decreases e, if e.Call? then |e.args| + 1 else 0, 1
  {
    match e
    case Binary(_, _, _) =>
      BinaryIsDetermined(lib, e, clock, clock', vars, vars', c, c');
    case Unary(op, x) =>
      EvalKind(lib, x, clock, clock', vars, vars', c, c');
    case Selector(obj, sel) =>
      assert obj + "." + sel !in lib.consts ==> AlikeAt(vars, vars', Field(obj, sel));
    case Call(_, _, _) =>
      CallIsDetermined(lib, e, clock, clock', vars, vars', c, c');
    case Paren(x) =>
      EvalKind(lib, x, clock, clock', vars, vars', c, c');
    case _ =>
  }

  lemma BinaryIsDetermined(lib: Lib, e: Exp, clock: Clock, clock': Clock, vars: Vars, vars': Vars, c: Ctx, c': Ctx)
    requires AllDetermined(lib) && HasTruth(lib) && e.Binary?
    requires Harvest(lib, e).Some? && VarsAlike(vars, vars', Harvest(lib, e).value)
    ensures SameKind(Eval(lib, clock, vars, e, c).0, Eval(lib, clock', vars', e, c').0)
    decreases e, 0, 0
  {
    EvalKind(lib, e.left, clock, clock', vars, vars', c, c');
    var (l, d) := Eval(lib, clock, vars, e.left, c);
    var (l', d') := Eval(lib, clock', vars', e.left, c');
    EvalKind(lib, e.right, clock, clock', vars, vars', d, d');
    var r, r' := Eval(lib, clock, vars, e.right, d).0, Eval(lib, clock', vars', e.right, d').0;
    OperandsKind(lib.prims, e.op, l, r, l', r');
  }

  lemma CallIsDetermined(lib: Lib, e: Exp, clock: Clock, clock': Clock, vars: Vars, vars': Vars, c: Ctx, c': Ctx)
    requires AllDetermined(lib) && HasTruth(lib) && e.Call?
    requires Harvest(lib, e).Some? && VarsAlike(vars, vars', Harvest(lib, e).value)
    ensures SameKind(Eval(lib, clock, vars, e, c).0, Eval(lib, clock', vars', e, c').0)
    decreases e, |e.args| + 1, 0
  {
    ArgsKind(lib, e, |e.args|, clock, clock', vars, vars', c, c');
    var (rs, d) := EvalArgs(lib, clock, vars, e, |e.args|, c);
    var (rs', d') := EvalArgs(lib, clock', vars', e, |e.args|, c');
    if rs.Args? && rs'.Args? {
      FuncKind(lib, clock, clock', d, d', e.place, e.fun, rs.values, rs'.values);
    }
  }

  lemma {:induction false} ArgsKind(lib: Lib, call: Exp, n: nat, clock: Clock, clock': Clock, vars: Vars, vars': Vars,
                                    c: Ctx, c': Ctx)
    requires AllDetermined(lib) && HasTruth(lib) && call.Call? && n <= |call.args|
    requires HarvestArgs(lib, call, n).Some? && VarsAlike(vars, vars', HarvestArgs(lib, call, n).value)
    ensures var rs, rs' := EvalArgs(lib, clock, vars, call, n, c).0, EvalArgs(lib, clock', vars', call, n, c').0;
            rs.Args? && rs'.Args? ==> Alike(rs.values, rs'.values)
    decreases call, n, 1
  {
    if n > 0 {
      ArgsKind(lib, call, n - 1, clock, clock', vars, vars', c, c');
      var d, d' := EvalArgs(lib, clock, vars, call, n - 1, c).1, EvalArgs(lib, clock', vars', call, n - 1, c').1;
      EvalKind(lib, call.args[n - 1], clock, clock', vars, vars', d, d');
    }
  }

  // ---------------------------------------------------------------- what a result depends on

  predicate AgreeOn(vars: Vars, vars': Vars, fields: set<Field>) {
    forall f :: f in fields ==> Lookup(vars, f) == Lookup(vars', f)
  }

  ghost predicate Timeless(f: Func) {
    forall t, t', args :: f(t, args) == f(t', args)
  }

  /** Wherever the expression calls a function that depends on the time, both clocks show the same. */
  ghost predicate Agree(lib: Lib, e: Exp, clock: Clock, clock': Clock)
    decreases e, if e.Call? then |e.args| + 1 else 0
  {
    match e
    case Binary(x, _, y) => Agree(lib, x, clock, clock') && Agree(lib, y, clock, clock')
    case Unary(_, x) => Agree(lib, x, clock, clock')
    case Call(place, fun, args) =>
      && ArgsAgree(lib, e, |args|, clock, clock')
      && (FullName(fun) in lib.funcs ==> Timeless(lib.funcs[FullName(fun)]) || clock(place) == clock'(place))
    case Paren(x) => Agree(lib, x, clock, clock')
    case _ => true
  }

  ghost predicate ArgsAgree(lib: Lib, call: Exp, n: nat, clock: Clock, clock': Clock)
    requires call.Call? && n <= |call.args|
    decreases call, n
  {
    n > 0 ==> ArgsAgree(lib, call, n - 1, clock, clock') && Agree(lib, call.args[n - 1], clock, clock')
  }

  lemma SameCall(f: Func, t: int, t': int, args: seq<Value>)
    requires Timeless(f) || t == t'
    ensures f(t, args) == f(t', args)
  {
  }

  lemma CallIsLocal(lib: Lib, clock: Clock, clock': Clock, c: Ctx, place: nat, fun: Fun, args: seq<Value>)
    requires FullName(fun) in lib.funcs ==> Timeless(lib.funcs[FullName(fun)]) || clock(place) == clock'(place)
    ensures EvalFunc(lib, clock, c, place, fun, args) == EvalFunc(lib, clock', c, place, fun, args)
  {
    if FullName(fun) in lib.funcs {
      SameCall(lib.funcs[FullName(fun)], clock(place), clock'(place), args);
    }
  }

  /** Evaluation reads the harvested fields, and the clock where it calls a function that depends on
      the time, and nothing else. */
  lemma {:induction false} EvalIsLocal(lib: Lib, e: Exp, clock: Clock, clock': Clock, vars: Vars, vars': Vars, c: Ctx)
    requires HasTruth(lib) && Harvest(lib, e).Some? && AgreeOn(vars, vars', Harvest(lib, e).value)
    requires Agree(lib, e, clock, clock')
    ensures Eval(lib, clock, vars, e, c) == Eval(lib, clock', vars', e, c)
    decreases e, if e.Call? then |e.args| + 1 else 0
  {
    match e
    case Binary(x, op, y) =>
      EvalIsLocal(lib, x, clock, clock', vars, vars', c);
      EvalIsLocal(lib, y, clock, clock', vars, vars', Eval(lib, clock, vars, x, c).1);
    case Unary(op, x) => EvalIsLocal(lib, x, clock, clock', vars, vars', c);
    case Call(place, fun, args) =>
      ArgsAreLocal(lib, e, |args|, clock, clock', vars, vars', c);
      var (rs, d) := EvalArgs(lib, clock, vars, e, |args|, c);
      if rs.Args? {
        CallIsLocal(lib, clock, clock', d, place, fun, rs.values);
      }
    case Paren(x) => EvalIsLocal(lib, x, clock, clock', vars, vars', c);
    case _ =>
  }

  lemma {:induction false} ArgsAreLocal(lib: Lib, call: Exp, n: nat, clock: Clock, clock': Clock, vars: Vars,
                                        vars': Vars, c: Ctx)
    requires HasTruth(lib) && call.Call? && n <= |call.args|
    requires HarvestArgs(lib, call, n).Some? && AgreeOn(vars, vars', HarvestArgs(lib, call, n).value)
    requires ArgsAgree(lib, call, n, clock, clock')
    ensures EvalArgs(lib, clock, vars, call, n, c) == EvalArgs(lib, clock', vars', call, n, c)
    decreases call, n
  {
    if n > 0 {
      ArgsAreLocal(lib, call, n - 1, clock, clock', vars, vars', c);
      EvalIsLocal(lib, call.args[n - 1], clock, clock', vars, vars', EvalArgs(lib, clock, vars, call, n - 1, c).1);
    }
  }

  /** The context ends up with a value of the result's kind (for a string literal it keeps the quotes). */
  lemma {:induction false} ContextHasResult(lib: Lib, clock: Clock, e: Exp, vars: Vars, c: Ctx)
    ensures var (r, d) := Eval(lib, clock, vars, e, c); r.Val? ==> KindOf(d.value) == KindOf(r.value)
  {
    if e.Paren? {
      ContextHasResult(lib, clock, e.inner, vars, c);
    }
  }

  // ---------------------------------------------------------------- which functions can be provided

  /** Two evaluations over fields of the same kinds give results of the same kind. */
  ghost predicate TypesAreDetermined(lib: Lib) {
    forall e, clock, clock', vars, vars', c, c' :: KindsMatch(lib, e, clock, clock', vars, vars', c, c')
  }

  ghost predicate KindsMatch(lib: Lib, e: Exp, clock: Clock, clock': Clock, vars: Vars, vars': Vars, c: Ctx, c': Ctx) {
    Harvest(lib, e).Some? && VarsAlike(vars, vars', Harvest(lib, e).value) ==>
      SameKind(Eval(lib, clock, vars, e, c).0, Eval(lib, clock', vars', e, c').0)
  }

  function ColumnName(i: nat): string {
    seq(i, _ => 'x')
  }

  function Columns(n: nat): (args: seq<Exp>)
    ensures |args| == n
  {
    seq(n, i requires 0 <= i < n => Selector("row", ColumnName(i)))
  }

  function ColumnNames(n: nat): (names: set<string>)
    ensures forall name :: name in names ==> |name| < n
  {
    set i | 0 <= i < n :: ColumnName(i)
  }

  function RowVars(args: seq<Value>): Vars {
    map["row" := map name | name in ColumnNames(|args|) :: args[|name|]]
  }

  lemma ColumnIs(args: seq<Value>, i: nat)
    requires i < |args|
    ensures Lookup(RowVars(args), Field("row", ColumnName(i))) == Some(args[i])
  {
    assert |ColumnName(i)| == i && ColumnName(i) in ColumnNames(|args|);
  }

  predicate NoRowConstants(lib: Lib) {
    forall k :: k in lib.consts ==> !("row." <= k)
  }

  /** The expression calls a function with the columns of a row. */
  ghost predicate CallsWithRow(e: Exp, name: string, n: nat) {
    && e.Call? && e.fun == Plain(name) && |e.args| == n
    && forall i :: 0 <= i < n ==> e.args[i] == Selector("row", ColumnName(i))
  }

  lemma ColumnValue(lib: Lib, clock: Clock, args: seq<Value>, i: nat, c: Ctx)
    requires NoRowConstants(lib) && i < |args|
    ensures Eval(lib, clock, RowVars(args), Selector("row", ColumnName(i)), c).0 == Val(args[i])
    ensures Harvest(lib, Selector("row", ColumnName(i))) == Some({Field("row", ColumnName(i))})
  {
    ColumnIs(args, i);
    assert "row." <= "row" + "." + ColumnName(i);
  }

  /** The argument has this value in every context. */
  ghost predicate ArgIs(lib: Lib, clock: Clock, vars: Vars, arg: Exp, v: Value) {
    forall c :: Eval(lib, clock, vars, arg, c).0 == Val(v)
  }

  lemma {:induction false} ArgsAre(lib: Lib, clock: Clock, vars: Vars, e: Exp, values: seq<Value>, n: nat, c: Ctx)
    requires e.Call? && n <= |values| == |e.args| && forall i :: 0 <= i < n ==>
             ArgIs(lib, clock, vars, e.args[i], values[i])
    ensures EvalArgs(lib, clock, vars, e, n, c).0 == Args(values[..n])
  {
    if n > 0 {
      ArgsAre(lib, clock, vars, e, values, n - 1, c);
      assert ArgIs(lib, clock, vars, e.args[n - 1], values[n - 1]);
      assert values[..n] == values[..n - 1] + [values[n - 1]];
    }
  }

  lemma ColumnArgs(lib: Lib, clock: Clock, e: Exp, name: string, args: seq<Value>, c: Ctx)
    requires NoRowConstants(lib) && CallsWithRow(e, name, |args|)
    ensures EvalArgs(lib, clock, RowVars(args), e, |args|, c).0 == Args(args)
  {
    forall i | 0 <= i < |args| ensures ArgIs(lib, clock, RowVars(args), e.args[i], args[i]) {
      forall d ensures Eval(lib, clock, RowVars(args), e.args[i], d).0 == Val(args[i]) {
        ColumnValue(lib, clock, args, i, d);
      }
    }
    ArgsAre(lib, clock, RowVars(args), e, args, |args|, c);
    assert args[..|args|] == args;
  }

  ghost predicate IsColumn(f: Field, n: nat) {
    exists i: nat :: i < n && f == Field("row", ColumnName(i))
  }

  lemma {:induction false} ColumnFields(lib: Lib, e: Exp, name: string, n: nat, f: Field)
    requires NoRowConstants(lib) && e.Call? && CallsWithRow(e, name, |e.args|) && n <= |e.args|
    ensures HarvestArgs(lib, e, n).Some?
    ensures f in HarvestArgs(lib, e, n).value ==> IsColumn(f, n)
  {
    if n > 0 {
      ColumnFields(lib, e, name, n - 1, f);
      assert e.args[n - 1] == Selector("row", ColumnName(n - 1));
      assert f == Field("row", ColumnName(n - 1)) ==> IsColumn(f, n);
      assert IsColumn(f, n - 1) ==> IsColumn(f, n);
    }
  }

  lemma PlainCall(lib: Lib, clock: Clock, c: Ctx, place: nat, name: string, args: seq<Value>)
    requires name in lib.funcs && AggOf(name).None?
    ensures EvalFunc(lib, clock, c, place, Plain(name), args).0 == lib.funcs[name](clock(place), args)
  {
  }

  lemma CallIs(lib: Lib, clock: Clock, vars: Vars, e: Exp, args: seq<Value>, c: Ctx)
    requires e.Call? && EvalArgs(lib, clock, vars, e, |e.args|, c).0 == Args(args)
    ensures Eval(lib, clock, vars, e, c).0
            == EvalFunc(lib, clock, EvalArgs(lib, clock, vars, e, |e.args|, c).1, e.place, e.fun, args).0
  {
  }

  lemma CallGives(lib: Lib, clock: Clock, e: Exp, name: string, args: seq<Value>, c: Ctx)
    requires NoRowConstants(lib) && CallsWithRow(e, name, |args|) && name in lib.funcs && AggOf(name).None?
    ensures Eval(lib, clock, RowVars(args), e, c).0 == lib.funcs[name](clock(e.place), args)
  {
    ColumnArgs(lib, clock, e, name, args, c);
    CallIs(lib, clock, RowVars(args), e, args, c);
    PlainCall(lib, clock, EvalArgs(lib, clock, RowVars(args), e, |e.args|, c).1, e.place, name, args);
  }

  /** Types are determined for all expressions exactly when they are for each function by itself. */
  lemma TypesAreDeterminedIff(lib: Lib)
    requires HasTruth(lib) && NoRowConstants(lib)
    ensures TypesAreDetermined(lib) <==> AllDetermined(lib)
  {
    if AllDetermined(lib) {
      forall e, clock, clock', vars, vars', c, c' ensures KindsMatch(lib, e, clock, clock', vars, vars', c, c') {
        if Harvest(lib, e).Some? && VarsAlike(vars, vars', Harvest(lib, e).value) {
          EvalKind(lib, e, clock, clock', vars, vars', c, c');
        }
      }
    }
    if TypesAreDetermined(lib) {
      forall name | name in lib.funcs && AggOf(name).None? ensures IsDetermined(lib.funcs[name]) {
        forall t, t', a, b | Alike(a, b) ensures SameKind(lib.funcs[name](t, a), lib.funcs[name](t', b)) {
          FuncIsDetermined(lib, Call(0, Plain(name), Columns(|a|)), name, _ => t, _ => t', a, b);
        }
      }
    }
  }

  /** The result of every expression is fixed by the fields it uses, whatever the clock shows. */
  ghost predicate ResultsAreLocal(lib: Lib) {
    forall e, clock, clock', vars, vars', c :: ResultsMatch(lib, e, clock, clock', vars, vars', c)
  }

  ghost predicate ResultsMatch(lib: Lib, e: Exp, clock: Clock, clock': Clock, vars: Vars, vars': Vars, c: Ctx) {
    Harvest(lib, e).Some? && AgreeOn(vars, vars', Harvest(lib, e).value) ==>
      Eval(lib, clock, vars, e, c).0 == Eval(lib, clock', vars', e, c).0
  }

  ghost predicate AllTimeless(lib: Lib) {
    forall name :: name in lib.funcs && AggOf(name).None? ==> Timeless(lib.funcs[name])
  }

  /** Results are local for all expressions exactly when no function depends on the time. */
  lemma ResultsAreLocalIff(lib: Lib)
    requires HasTruth(lib) && NoRowConstants(lib) && forall name :: name in lib.funcs ==> AggOf(name).None?
    ensures ResultsAreLocal(lib) <==> AllTimeless(lib)
  {
    if AllTimeless(lib) {
      forall e, clock, clock', vars, vars', c ensures ResultsMatch(lib, e, clock, clock', vars, vars', c) {
        if Harvest(lib, e).Some? && AgreeOn(vars, vars', Harvest(lib, e).value) {
          TimelessAgree(lib, e, clock, clock');
          EvalIsLocal(lib, e, clock, clock', vars, vars', c);
        }
      }
    }
    if ResultsAreLocal(lib) {
      forall name | name in lib.funcs && AggOf(name).None? ensures Timeless(lib.funcs[name]) {
        forall t, t', args ensures lib.funcs[name](t, args) == lib.funcs[name](t', args) {
          CallIsTimeless(lib, Call(0, Plain(name), Columns(|args|)), name, _ => t, _ => t', args);
        }
      }
    }
  }

  lemma {:induction false} TimelessAgree(lib: Lib, e: Exp, clock: Clock, clock': Clock)
    requires AllTimeless(lib) && forall name :: name in lib.funcs ==> AggOf(name).None?
    ensures Agree(lib, e, clock, clock')
    decreases e, if e.Call? then |e.args| + 1 else 0
  {
    match e
    case Binary(x, _, y) => TimelessAgree(lib, x, clock, clock'); TimelessAgree(lib, y, clock, clock');
    case Unary(_, x) => TimelessAgree(lib, x, clock, clock');
    case Call(_, _, args) => TimelessArgs(lib, e, |args|, clock, clock');
    case Paren(x) => TimelessAgree(lib, x, clock, clock');
    case _ =>
  }

  lemma {:induction false} TimelessArgs(lib: Lib, call: Exp, n: nat, clock: Clock, clock': Clock)
    requires AllTimeless(lib) && (forall name :: name in lib.funcs ==> AggOf(name).None?) && call.Call?
             && n <= |call.args|
    ensures ArgsAgree(lib, call, n, clock, clock')
    decreases call, n
  {
    if n > 0 {
      TimelessArgs(lib, call, n - 1, clock, clock');
      TimelessAgree(lib, call.args[n - 1], clock, clock');
    }
  }

  lemma CallIsTimeless(lib: Lib, e: Exp, name: string, clock: Clock, clock': Clock, args: seq<Value>)
    requires ResultsAreLocal(lib) && NoRowConstants(lib) && name in lib.funcs && AggOf(name).None?
    requires CallsWithRow(e, name, |args|)
    ensures lib.funcs[name](clock(e.place), args) == lib.funcs[name](clock'(e.place), args)
  {
    ColumnFields(lib, e, name, |args|, Field("", ""));
    CallGives(lib, clock, e, name, args, EMPTY_CTX);
    CallGives(lib, clock', e, name, args, EMPTY_CTX);
    assert ResultsMatch(lib, e, clock, clock', RowVars(args), RowVars(args), EMPTY_CTX);
  }

  const EMPTY_CTX := Ctx(false, None, None, None, [], 0, VNil)

  lemma CallFields(lib: Lib, e: Exp)
    requires e.Call?
    ensures Harvest(lib, e) == HarvestArgs(lib, e, |e.args|)
  {
  }

  lemma ColumnsAlike(lib: Lib, e: Exp, name: string, a: seq<Value>, b: seq<Value>)
    requires NoRowConstants(lib) && CallsWithRow(e, name, |a|) && Alike(a, b)
    ensures Harvest(lib, e).Some? && VarsAlike(RowVars(a), RowVars(b), Harvest(lib, e).value)
  {
    CallFields(lib, e);
    ColumnFields(lib, e, name, |a|, Field("", ""));
    forall f | f in HarvestArgs(lib, e, |a|).value ensures AlikeAt(RowVars(a), RowVars(b), f) {
      ColumnFields(lib, e, name, |a|, f);
      var i: nat :| i < |a| && f == Field("row", ColumnName(i));
      ColumnIs(a, i);
      ColumnIs(b, i);
    }
  }

  lemma FuncIsDetermined(lib: Lib, e: Exp, name: string, clock: Clock, clock': Clock, a: seq<Value>, b: seq<Value>)
    requires TypesAreDetermined(lib) && NoRowConstants(lib) && name in lib.funcs && AggOf(name).None?
    requires CallsWithRow(e, name, |a|) && Alike(a, b)
    ensures SameKind(lib.funcs[name](clock(e.place), a), lib.funcs[name](clock'(e.place), b))
  {
    ColumnsAlike(lib, e, name, a, b);
    CallsMatch(lib, e, clock, clock', RowVars(a), RowVars(b));
    CallGives(lib, clock, e, name, a, EMPTY_CTX);
    CallGives(lib, clock', e, name, b, EMPTY_CTX);
  }

  lemma CallsMatch(lib: Lib, e: Exp, clock: Clock, clock': Clock, vars: Vars, vars': Vars)
    requires TypesAreDetermined(lib) && Harvest(lib, e).Some? && VarsAlike(vars, vars', Harvest(lib, e).value)
    ensures SameKind(Eval(lib, clock, vars, e, EMPTY_CTX).0, Eval(lib, clock', vars', e, EMPTY_CTX).0)
  {
    assert KindsMatch(lib, e, clock, clock', vars, vars', EMPTY_CTX, EMPTY_CTX);
  }

  // ---------------------------------------------------------------- the check when a script is loaded

  datatype FieldType = IntType | FloatType | BoolType | StringType | TimeType | Decimal2Type | UnknownType

  datatype FieldRef = FieldRef(field: Field, fieldType: FieldType)

  function KindOfType(t: FieldType): Kind {
    match t
    case IntType => KInt(Int64)
    case FloatType => KFloat(true)
    case BoolType => KBool
    case StringType => KStr
    case TimeType => KTime
    case Decimal2Type => KDec
    case UnknownType => KNil
  }

  predicate CheckValueType(v: Value, t: FieldType) {
    t != UnknownType && KindOf(v) == KindOfType(t)
  }

  /** The test value of a field; every attempt uses other numbers. */
  function SampleValue(t: FieldType, attempt: nat, now: int): Value {
    match t
    case IntType => VInt(Int64, attempt)
    case FloatType => VFloat(true, 2.35 * attempt as real)
    case BoolType => VBool(false)
    case StringType => VStr("12345")
    case TimeType => VTime(now, Local)
    case Decimal2Type => VDec(3.45 * attempt as real)
    case UnknownType => VNil
  }

  function SetVar(vars: Vars, f: Field, v: Value): Vars {
    vars[f.table := (if f.table in vars then vars[f.table] else map[])[f.name := v]]
  }

  function SampleVars(refs: seq<FieldRef>, attempt: nat, now: int): Option<Vars> {
    if refs == [] then Some(map[])
    else
      var front, ref := SampleVars(refs[..|refs| - 1], attempt, now), refs[|refs| - 1];
      if front.None? || ref.fieldType == UnknownType then None
      else Some(SetVar(front.value, ref.field, SampleValue(ref.fieldType, attempt, now)))
  }

  /** The context for an expression: an aggregate must be at its root. */
  function NewCtx(e: Exp): Option<Ctx> {
    if e.Call? && e.fun.Plain? && AggOf(e.fun.name).Some? then
      var name := AggOf(e.fun.name).value;
      if name.agg != StringAgg then Some(EMPTY_CTX.(aggEnabled := true, aggFunc := Some(name.agg)))
      else if |e.args| != (if name.isIf then 3 else 2) || !e.args[1].StrLit? then None
      else Some(EMPTY_CTX.(aggEnabled := true, aggFunc := Some(StringAgg), aggType := Some(KStr)))
    else Some(EMPTY_CTX)
  }

  /** The time an attempt is made, and what the clock shows when it calls functions. */
  datatype Moment = Moment(now: int, clock: Clock)

  function Attempt(lib: Lib, e: Exp, refs: seq<FieldRef>, attempt: nat, at: Moment): Result {
    var vars, c := SampleVars(refs, attempt, at.now), NewCtx(e);
    if vars.None? || c.None? then Err(OtherError) else Eval(lib, at.clock, vars.value, e, c.value).0
  }

  /** This attempt is the first that does not divide by zero, and its result has the expected type. */
  predicate Passes(lib: Lib, e: Exp, refs: seq<FieldRef>, expected: FieldType, moments: nat -> Moment, attempt: nat) {
    && (forall k: nat :: k < attempt ==> Attempt(lib, e, refs, k, moments(k)) == Err(DivideByZero))
    && Attempt(lib, e, refs, attempt, moments(attempt)).Val?
    && CheckValueType(Attempt(lib, e, refs, attempt, moments(attempt)).value, expected)
  }

  /** `moments` are the moments of the attempts. */
  method EvalExpressionWithFieldRefsAndCheckType(lib: Lib, e: Option<Exp>, refs: seq<FieldRef>, expected: FieldType,
                                                 moments: nat -> Moment)
    returns (ok: bool)
    ensures ok <==> e.None? || exists k: nat :: k < 5 && Passes(lib, e.value, refs, expected, moments, k)
  {
    if e.None? {
      return true;
    }
    var attempt: nat := 0;
    while attempt < 5
      invariant attempt <= 5
      invariant forall k: nat :: k < attempt ==> Attempt(lib, e.value, refs, k, moments(k)) == Err(DivideByZero)
    {
      var result := Attempt(lib, e.value, refs, attempt, moments(attempt));
      if result.Val? {
        ok := CheckValueType(result.value, expected);
        assert ok ==> Passes(lib, e.value, refs, expected, moments, attempt);
        return;
      }
      if result.error != DivideByZero {
        return false;
      }
      attempt := attempt + 1;
    }
    return false;
  }

  lemma {:induction false} SampleKind(refs: seq<FieldRef>, attempt: nat, now: int, f: Field)
    requires SampleVars(refs, attempt, now).Some? && Lookup(SampleVars(refs, attempt, now).value, f).Some?
    ensures var kind := KindOf(Lookup(SampleVars(refs, attempt, now).value, f).value);
            exists ref :: ref in refs && ref.field == f && kind == KindOfType(ref.fieldType)
  {
    var ref := refs[|refs| - 1];
    if ref.field == f {
      assert ref in refs;
    } else {
      SampleKind(refs[..|refs| - 1], attempt, now, f);
    }
  }

  predicate TypedAs(vars: Vars, ref: FieldRef) {
    Lookup(vars, ref.field).Some? ==> KindOf(Lookup(vars, ref.field).value) == KindOfType(ref.fieldType)
  }

  /** The rows hold values of the types the fields were resolved to. */
  predicate WellTyped(vars: Vars, refs: seq<FieldRef>) {
    forall ref :: ref in refs ==> TypedAs(vars, ref)
  }

  /** An expression that passed when the script was loaded yields, whenever it is evaluated on a row
      and succeeds, a value of the expected type. */
  lemma LoadCheckCoversEveryRow(lib: Lib, e: Exp, refs: seq<FieldRef>, expected: FieldType, moments: nat -> Moment,
                                k: nat, clock: Clock, vars: Vars, c: Ctx)
    requires AllDetermined(lib) && HasTruth(lib) && Harvest(lib, e).Some?
    requires Passes(lib, e, refs, expected, moments, k) && WellTyped(vars, refs)
    ensures Eval(lib, clock, vars, e, c).0.Val? ==> CheckValueType(Eval(lib, clock, vars, e, c).0.value, expected)
  {
    var sample := SampleVars(refs, k, moments(k).now).value;
    forall f | f in Harvest(lib, e).value ensures AlikeAt(sample, vars, f) {
      if Lookup(sample, f).Some? && Lookup(vars, f).Some? {
        SampleKind(refs, k, moments(k).now, f);
        var ref :| ref in refs && ref.field == f && KindOf(Lookup(sample, f).value) == KindOfType(ref.fieldType);
        assert TypedAs(vars, ref);
      }
    }
    EvalKind(lib, e, moments(k).clock, clock, sample, vars, NewCtx(e).value, c);
  }

  // ---------------------------------------------------------------- grouped fields

  /** A field of a grouped record, evaluated on one row after the other; None if one fails. */
  function EvalRows(lib: Lib, clocks: nat -> Clock, e: Exp, rows: seq<Vars>, c: Ctx): Option<Ctx> {
    if rows == [] then Some(c)
    else
      var front := EvalRows(lib, clocks, e, rows[..|rows| - 1], c);
      if front.None? then None
      else
        var (r, d) := Eval(lib, clocks(|rows| - 1), rows[|rows| - 1], e, front.value);
        if r.Err? then None else Some(d)
  }

  predicate IsNumber(agg: Option<Agg>) {
    agg.Some? && agg.value.Number? && agg.value.func in {Aggregates.Sum, Aggregates.Count, Aggregates.Avg}
  }

  function GetSafeValue(c: Ctx, defaultValue: Value): Value {
    if c.value != VNil then c.value
    else if c.aggEnabled && IsNumber(c.aggFunc) then VInt(Int64, 0)
    else defaultValue
  }

  /** After one row at least, the value of a grouped field has the field's type. */
  lemma GroupedFieldHasItsType(lib: Lib, e: Exp, refs: seq<FieldRef>, expected: FieldType, moments: nat -> Moment,
                               k: nat, clocks: nat -> Clock, rows: seq<Vars>, c: Ctx, defaultValue: Value)
    requires AllDetermined(lib) && HasTruth(lib) && Harvest(lib, e).Some?
    requires Passes(lib, e, refs, expected, moments, k) && rows != [] && forall i :: 0 <= i < |rows| ==>
             WellTyped(rows[i], refs)
    ensures var d := EvalRows(lib, clocks, e, rows, c); d.Some? ==>
            CheckValueType(GetSafeValue(d.value, defaultValue), expected)
  {
    var front := EvalRows(lib, clocks, e, rows[..|rows| - 1], c);
    if front.Some? {
      LoadCheckCoversEveryRow(lib, e, refs, expected, moments, k, clocks(|rows| - 1), rows[|rows| - 1], front.value);
      ContextHasResult(lib, clocks(|rows| - 1), e, rows[|rows| - 1], front.value);
    }
  }
}
