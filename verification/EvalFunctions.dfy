/** The functions and constants that every script can use, with their dispatch on the types of their
    arguments, and what follows for the types and the results of all expressions of a script. */
module EvalFunctions {
  import opened Expressions
  import Aggregates

  /** What the host language does with texts, floats and times. */
  datatype Host = Host(
    show: Value -> string,
    parseInt: string -> Option<int>,
    parseFloat: string -> Option<real>,
    parseDecimal: string -> Option<real>,
    floatToInt: real -> int,
    sqrt: real -> real,
    round: real -> real,
    parseTime: (string, string) -> Option<(int, Zone)>,
    formatTime: (int, Zone, string) -> string,
    date: (seq<int>, Zone) -> int,
    matches: (string, string) -> Option<bool>,
    replaceAll: (string, string, string) -> string,
    sprintf: (string, seq<Value>) -> string)

  predicate Returns(r: Result, kind: Kind) {
    r.Val? ==> KindOf(r.value) == kind
  }

  // ---------------------------------------------------------------- conversions

  function CallString(host: Host, args: seq<Value>): (r: Result)
    ensures Returns(r, KStr)
  {
    if |args| != 1 then Err(OtherError) else Val(VStr(host.show(args[0])))
  }

  function TowardZero(d: real): int {
    if d >= 0.0 then d.Floor else -(-d).Floor
  }

  function CallInt(host: Host, args: seq<Value>): (r: Result)
    ensures Returns(r, KInt(Int64))
  {
    if |args| != 1 then Err(OtherError)
    else
      match args[0]
      case VStr(s) => (match host.parseInt(s) case Some(n) => Val(Int(n)) case None => Err(OtherError))
      case VBool(b) => Val(Int(if b then 1 else 0))
      case VInt(w, n) => if w == Int8 then Err(OtherError) else Val(VInt(Int64, n))
      case VFloat(_, x) => Val(Int(host.floatToInt(x)))
      case VDec(d) => Val(Int(TowardZero(d)))
      case _ => Err(OtherError)
  }

  function CallDecimal2(prims: Prims, host: Host, args: seq<Value>): (r: Result)
    ensures Returns(r, KDec)
  {
    if |args| != 1 then Err(OtherError)
    else
      match args[0]
      case VStr(s) => (match host.parseDecimal(s) case Some(d) => Val(VDec(d)) case None => Err(OtherError))
      case VBool(b) => Val(VDec(if b then 1.0 else 0.0))
      case VInt(w, n) => if w == Int8 then Err(OtherError) else Val(VDec(n as real))
      case VFloat(_, _) => Val(VDec(prims.toDec(args[0])))
      case VDec(_) => Val(args[0])
      case _ => Err(OtherError)
  }

  function CallFloat(prims: Prims, host: Host, args: seq<Value>): (r: Result)
    ensures Returns(r, KFloat(true))
  {
    if |args| != 1 then Err(OtherError)
    else
      match args[0]
      case VStr(s) => (match host.parseFloat(s) case Some(x) => Val(VFloat(true, x)) case None => Err(OtherError))
      case VBool(b) => Val(VFloat(true, if b then 1.0 else 0.0))
      case VInt(w, _) => if w == Int8 then Err(OtherError) else Val(VFloat(true, prims.toFloat(args[0])))
      case VFloat(_, x) => Val(VFloat(true, x))
      case VDec(_) => Val(VFloat(true, prims.toFloat(args[0])))
      case _ => Err(OtherError)
  }

  // ---------------------------------------------------------------- numbers and choices

  function CallLen(args: seq<Value>): (r: Result)
    ensures Returns(r, KInt(HostInt))
  {
    if |args| != 1 || !args[0].VStr? then Err(OtherError) else Val(VInt(HostInt, |args[0].s|))
  }

  /** One of two values of the kind that the choice is made for. */
  function CallIif(kind: Kind, args: seq<Value>): (r: Result)
    ensures Returns(r, kind)
  {
    if |args| != 3 || !args[0].VBool? || KindOf(args[1]) != kind || KindOf(args[2]) != kind then Err(OtherError)
    else Val(if args[0].b then args[1] else args[2])
  }

  function CastToFloat64(prims: Prims, v: Value): Option<real> {
    match v
    case VInt(_, _) => Some(prims.toFloat(v))
    case VFloat(_, x) => Some(x)
    case VDec(_) => Some(prims.toFloat(v))
    case _ => None
  }

  function CallMath(prims: Prims, f: real -> real, args: seq<Value>): (r: Result)
    ensures Returns(r, KFloat(true))
  {
    if |args| != 1 then Err(OtherError)
    else
      match CastToFloat64(prims, args[0])
      case Some(x) => Val(VFloat(true, f(x)))
      case None => Err(OtherError)
  }

  // ---------------------------------------------------------------- times

  function CallTimeParse(host: Host, args: seq<Value>): (r: Result)
    ensures Returns(r, KTime)
  {
    if |args| != 2 || !args[0].VStr? || !args[1].VStr? then Err(OtherError)
    else
      match host.parseTime(args[0].s, args[1].s)
      case Some((t, zone)) => Val(VTime(t, zone))
      case None => Err(OtherError)
  }

  function CallTimeFormat(host: Host, args: seq<Value>): (r: Result)
    ensures Returns(r, KStr)
  {
    if |args| != 2 || !args[0].VTime? || !args[1].VStr? then Err(OtherError)
    else Val(VStr(host.formatTime(args[0].t, args[0].zone, args[1].s)))
  }

  function CallTimeFixedZone(args: seq<Value>): (r: Result)
    ensures Returns(r, KZone)
  {
    if |args| != 2 || !args[0].VStr? || KindOf(args[1]) != KInt(Int64) then Err(OtherError)
    else Val(VZone(Fixed(args[0].s, args[1].n)))
  }

  function DateKind(i: nat): Kind {
    if i == 1 then KMonth else if i == 7 then KZone else KInt(Int64)
  }

  function NumberOf(v: Value): int {
    if v.VMonth? then v.month else if v.VInt? then v.n else 0
  }

  /** Year, month, day, hour, minute, second, nanosecond and zone. */
  function CallTimeDate(host: Host, args: seq<Value>): (r: Result)
    ensures Returns(r, KTime)
  {
    if |args| != 8 || exists i :: 0 <= i < 8 && KindOf(args[i]) != DateKind(i) then Err(OtherError)
    else
      assert KindOf(args[7]) == DateKind(7);
      Val(VTime(host.date(seq(7, i requires 0 <= i < 7 => NumberOf(args[i])), args[7].zone), args[7].zone))
  }

  function Clamp(d: int): int {
    if d < Aggregates.MIN_INT64 then Aggregates.MIN_INT64
    else if d > Aggregates.MAX_INT64 then Aggregates.MAX_INT64
    else d
  }

  /** Differences of more than 64 bits of nanoseconds are cut, and milliseconds truncate toward zero. */
  function CallTimeDiffMilli(args: seq<Value>): (r: Result)
    ensures Returns(r, KInt(Int64))
  {
    if |args| != 2 || !args[0].VTime? || !args[1].VTime? then Err(OtherError)
    else Val(Int(Truncated(Clamp(args[0].t - args[1].t), 1_000_000)))
  }

  function CallTimeNow(now: int, args: seq<Value>): (r: Result)
    ensures Returns(r, KTime)
  {
    if |args| != 0 then Err(OtherError) else Val(VTime(now, Local))
  }

  /** Whole seconds or milliseconds since 1970, rounded down. */
  function CallTimeUnix(unit: int, args: seq<Value>): (r: Result)
    requires unit > 0
    ensures Returns(r, KInt(Int64))
  {
    if |args| != 1 || !args[0].VTime? then Err(OtherError) else Val(Int(args[0].t / unit))
  }

  function CallTimeCompare(op: Op, args: seq<Value>): (r: Result)
    ensures Returns(r, KBool)
  {
    if |args| != 2 || !args[0].VTime? || !args[1].VTime? then Err(OtherError)
    else Val(VBool(Ordered(op, args[0].t - args[1].t)))
  }

  // ---------------------------------------------------------------- texts

  function CallReMatchString(host: Host, args: seq<Value>): (r: Result)
    ensures Returns(r, KBool)
  {
    if |args| != 2 || !args[0].VStr? || !args[1].VStr? then Err(OtherError)
    else
      match host.matches(args[0].s, args[1].s)
      case Some(b) => Val(VBool(b))
      case None => Err(OtherError)
  }

  function CallStringsReplaceAll(host: Host, args: seq<Value>): (r: Result)
    ensures Returns(r, KStr)
  {
    if |args| != 3 || !args[0].VStr? || !args[1].VStr? || !args[2].VStr? then Err(OtherError)
    else Val(VStr(host.replaceAll(args[0].s, args[1].s, args[2].s)))
  }

  function CallFmtSprintf(host: Host, args: seq<Value>): (r: Result)
    ensures Returns(r, KStr)
  {
    if |args| < 2 || !args[0].VStr? then Err(OtherError) else Val(VStr(host.sprintf(args[0].s, args[1..])))
  }

  // ---------------------------------------------------------------- the library

  datatype Name =
    | TimeNow | MathSqrt | MathRound | Len | ToString | ToFloat | ToInt | ToDecimal2
    | Iif(kind: Kind)
    | TimeParse | TimeFormat | TimeDate | TimeUnix | TimeUnixMilli | TimeDiffMilli | TimeBefore | TimeAfter
    | TimeFixedZone
    | ReMatchString | StringsReplaceAll | FmtSprintf

  const NAMES := {
    "math.Sqrt", "math.Round", "len", "string", "float", "int", "decimal2",
    "int.iif", "float.iif", "decimal2.iif", "string.iif", "time.iif",
    "time.Parse", "time.Format", "time.Date", "time.Now", "time.Unix", "time.UnixMilli", "time.DiffMilli",
    "time.Before", "time.After", "time.FixedZone",
    "re.MatchString", "strings.ReplaceAll", "fmt.Sprintf"}

  function NameOf(name: string): Name {
    if name == "time.Now" then TimeNow
    else if name == "math.Sqrt" then MathSqrt
    else if name == "math.Round" then MathRound
    else if name == "len" then Len
    else if name == "string" then ToString
    else if name == "float" then ToFloat
    else if name == "int" then ToInt
    else if name == "decimal2" then ToDecimal2
    else if name == "int.iif" then Iif(KInt(Int64))
    else if name == "float.iif" then Iif(KFloat(true))
    else if name == "decimal2.iif" then Iif(KDec)
    else if name == "string.iif" then Iif(KStr)
    else if name == "time.iif" then Iif(KTime)
    else if name == "time.Parse" then TimeParse
    else if name == "time.Format" then TimeFormat
    else if name == "time.Date" then TimeDate
    else if name == "time.Unix" then TimeUnix
    else if name == "time.UnixMilli" then TimeUnixMilli
    else if name == "time.DiffMilli" then TimeDiffMilli
    else if name == "time.Before" then TimeBefore
    else if name == "time.After" then TimeAfter
    else if name == "time.FixedZone" then TimeFixedZone
    else if name == "re.MatchString" then ReMatchString
    else if name == "strings.ReplaceAll" then StringsReplaceAll
    else FmtSprintf
  }

  function CallByName(prims: Prims, host: Host, name: Name, now: int, args: seq<Value>): Result {
    match name
    case TimeNow => CallTimeNow(now, args)
    case MathSqrt => CallMath(prims, host.sqrt, args)
    case MathRound => CallMath(prims, host.round, args)
    case Len => CallLen(args)
    case ToString => CallString(host, args)
    case ToFloat => CallFloat(prims, host, args)
    case ToInt => CallInt(host, args)
    case ToDecimal2 => CallDecimal2(prims, host, args)
    case Iif(kind) => CallIif(kind, args)
    case TimeParse => CallTimeParse(host, args)
    case TimeFormat => CallTimeFormat(host, args)
    case TimeDate => CallTimeDate(host, args)
    case TimeUnix => CallTimeUnix(1_000_000_000, args)
    case TimeUnixMilli => CallTimeUnix(1_000_000, args)
    case TimeDiffMilli => CallTimeDiffMilli(args)
    case TimeBefore => CallTimeCompare(Lss, args)
    case TimeAfter => CallTimeCompare(Gtr, args)
    case TimeFixedZone => CallTimeFixedZone(args)
    case ReMatchString => CallReMatchString(host, args)
    case StringsReplaceAll => CallStringsReplaceAll(host, args)
    case FmtSprintf => CallFmtSprintf(host, args)
  }

  const CONSTANTS: map<string, Value> := map[
    "true" := VBool(true), "false" := VBool(false),
    "time.January" := VMonth(1), "time.February" := VMonth(2), "time.March" := VMonth(3), "time.April" := VMonth(4),
    "time.May" := VMonth(5), "time.June" := VMonth(6), "time.July" := VMonth(7), "time.August" := VMonth(8),
    "time.September" := VMonth(9), "time.October" := VMonth(10), "time.November" := VMonth(11),
    "time.December" := VMonth(12), "time.UTC" := VZone(Utc)]

  /** What scripts are evaluated with. */
  function Library(prims: Prims, host: Host): Lib {
    Lib(prims, CONSTANTS, map name | name in NAMES :: (now, args) => CallByName(prims, host, NameOf(name), now, args))
  }

  // ---------------------------------------------------------------- types

  function ReturnKind(name: Name): Kind {
    match name
    case Len => KInt(HostInt)
    case ToDecimal2 => KDec
    case Iif(kind) => kind
    case _ =>
      if name.MathSqrt? || name.MathRound? || name.ToFloat? then KFloat(true)
      else if name.ToInt? || name.TimeUnix? || name.TimeUnixMilli? || name.TimeDiffMilli? then KInt(Int64)
      else if name.TimeNow? || name.TimeParse? || name.TimeDate? then KTime
      else if name.TimeBefore? || name.TimeAfter? || name.ReMatchString? then KBool
      else if name.TimeFixedZone? then KZone
      else KStr
  }

  /** A function that succeeds returns a value of its own type, whatever its arguments. */
  lemma ReturnsItsKind(prims: Prims, host: Host, name: Name, now: int, args: seq<Value>)
    ensures Returns(CallByName(prims, host, name, now, args), ReturnKind(name))
  {
  }

  lemma CallIs(prims: Prims, host: Host, name: string, now: int, args: seq<Value>)
    requires name in NAMES
    ensures Library(prims, host).funcs[name](now, args) == CallByName(prims, host, NameOf(name), now, args)
  {
  }

  lemma FunctionsAreDetermined(prims: Prims, host: Host)
    ensures AllDetermined(Library(prims, host))
  {
    var funcs := Library(prims, host).funcs;
    forall name | name in funcs && AggOf(name).None? ensures IsDetermined(funcs[name]) {
      forall t, t', a, b ensures SameKind(funcs[name](t, a), funcs[name](t', b)) {
        CallIs(prims, host, name, t, a);
        CallIs(prims, host, name, t', b);
        ReturnsItsKind(prims, host, NameOf(name), t, a);
        ReturnsItsKind(prims, host, NameOf(name), t', b);
      }
    }
  }

  lemma ConstantsAreFixed(prims: Prims, host: Host)
    ensures HasTruth(Library(prims, host)) && NoRowConstants(Library(prims, host))
  {
    forall k | k in CONSTANTS ensures !("row." <= k) {
      assert |k| > 0 && (k[0] == 't' || k[0] == 'f');
      assert "row."[0] == 'r';
    }
  }

  /** The types of all expressions of a script are determined by the types of their fields. */
  lemma ScriptTypesAreDetermined(prims: Prims, host: Host)
    ensures TypesAreDetermined(Library(prims, host))
  {
    FunctionsAreDetermined(prims, host);
    ConstantsAreFixed(prims, host);
    TypesAreDeterminedIff(Library(prims, host));
  }

  /** An expression of a script that passed when the script was loaded yields, whenever it is evaluated
      on a row and succeeds, a value of the expected type. */
  lemma LoadCheckCoversScript(prims: Prims, host: Host, e: Exp, refs: seq<FieldRef>, expected: FieldType,
                              moments: nat -> Moment, k: nat, clock: Clock, vars: Vars, c: Ctx)
    requires Harvest(Library(prims, host), e).Some?
    requires Passes(Library(prims, host), e, refs, expected, moments, k) && WellTyped(vars, refs)
    ensures var r := Eval(Library(prims, host), clock, vars, e, c).0; r.Val? ==> CheckValueType(r.value, expected)
  {
    FunctionsAreDetermined(prims, host);
    ConstantsAreFixed(prims, host);
    LoadCheckCoversEveryRow(Library(prims, host), e, refs, expected, moments, k, clock, vars, c);
  }

  // ---------------------------------------------------------------- the clock

  lemma OthersAreTimeless(prims: Prims, host: Host, name: string)
    requires name in NAMES && name != "time.Now"
    ensures Timeless(Library(prims, host).funcs[name])
  {
    forall t, t', args ensures Library(prims, host).funcs[name](t, args) == Library(prims, host).funcs[name](t', args) {
      CallIs(prims, host, name, t, args);
      CallIs(prims, host, name, t', args);
    }
  }

  /** Wherever the expression asks for the time, both clocks show the same. */
  ghost predicate SameTimes(e: Exp, clock: Clock, clock': Clock)
    decreases e, if e.Call? then |e.args| + 1 else 0
  {
    match e
    case Binary(x, _, y) => SameTimes(x, clock, clock') && SameTimes(y, clock, clock')
    case Unary(_, x) => SameTimes(x, clock, clock')
    case Call(place, fun, args) =>
      ArgsSameTimes(e, |args|, clock, clock') && (FullName(fun) == "time.Now" ==> clock(place) == clock'(place))
    case Paren(x) => SameTimes(x, clock, clock')
    case _ => true
  }

  ghost predicate ArgsSameTimes(call: Exp, n: nat, clock: Clock, clock': Clock)
    requires call.Call? && n <= |call.args|
    decreases call, n
  {
    n > 0 ==> ArgsSameTimes(call, n - 1, clock, clock') && SameTimes(call.args[n - 1], clock, clock')
  }

  lemma {:induction false} SameTimesAgree(prims: Prims, host: Host, e: Exp, clock: Clock, clock': Clock)
    requires SameTimes(e, clock, clock')
    ensures Agree(Library(prims, host), e, clock, clock')
    decreases e, if e.Call? then |e.args| + 1 else 0
  {
    match e
    case Binary(x, _, y) =>
      SameTimesAgree(prims, host, x, clock, clock');
      SameTimesAgree(prims, host, y, clock, clock');
    case Unary(_, x) => SameTimesAgree(prims, host, x, clock, clock');
    case Call(place, fun, args) =>
      ArgsSameTimesAgree(prims, host, e, |args|, clock, clock');
      if FullName(fun) in NAMES && FullName(fun) != "time.Now" {
        OthersAreTimeless(prims, host, FullName(fun));
      }
    case Paren(x) => SameTimesAgree(prims, host, x, clock, clock');
    case _ =>
  }

  lemma {:induction false} ArgsSameTimesAgree(prims: Prims, host: Host, call: Exp, n: nat, clock: Clock, clock': Clock)
    requires call.Call? && n <= |call.args| && ArgsSameTimes(call, n, clock, clock')
    ensures ArgsAgree(Library(prims, host), call, n, clock, clock')
    decreases call, n
  {
    if n > 0 {
      ArgsSameTimesAgree(prims, host, call, n - 1, clock, clock');
      SameTimesAgree(prims, host, call.args[n - 1], clock, clock');
    }
  }

  /** The result of an expression of a script depends on the fields it uses and on the times at which
      it asks for the time. */
  lemma ScriptIsLocal(prims: Prims, host: Host, e: Exp, clock: Clock, clock': Clock, vars: Vars, vars': Vars, c: Ctx)
    requires Harvest(Library(prims, host), e).Some? && AgreeOn(vars, vars', Harvest(Library(prims, host), e).value)
    requires SameTimes(e, clock, clock')
    ensures Eval(Library(prims, host), clock, vars, e, c) == Eval(Library(prims, host), clock', vars', e, c)
  {
    SameTimesAgree(prims, host, e, clock, clock');
    ConstantsAreFixed(prims, host);
    EvalIsLocal(Library(prims, host), e, clock, clock', vars, vars', c);
  }

  /** Asking for the time gives the same result exactly if the clocks show the same. */
  lemma NowIsLocalIff(prims: Prims, host: Host, place: nat, clock: Clock, clock': Clock, vars: Vars, c: Ctx)
    ensures var now := Call(place, Qualified("time", "Now"), []);
            Eval(Library(prims, host), clock, vars, now, c).0 == Eval(Library(prims, host), clock', vars, now, c).0
            <==> clock(place) == clock'(place)
  {
    var lib := Library(prims, host);
    var now := Call(place, Qualified("time", "Now"), []);
    assert FullName(now.fun) == "time.Now" && AggOf("time.Now").None?;
    CallIs(prims, host, "time.Now", clock(place), []);
    CallIs(prims, host, "time.Now", clock'(place), []);
  }
}
