/** The Ruby values and exceptions the submission path works with. Points are
    Ruby hashes whose members may be of any class, and the validators are
    checks on those classes, so a member's value is a `Dyn`. Objects whose
    contents the path never looks into carry only their `to_s` text. */
module Ruby {
  import opened Text

  /** The exception classes of lib/wavefront/exception.rb that the core raises,
      and the Ruby built-in exceptions it can let escape. */
  datatype Error =
    | InvalidMetricName
    | InvalidMetricValue
    | InvalidTimestamp
    | InvalidTag
    | InvalidHostname
    | InvalidSource
    | EmptyMetricName
    | ArgumentError        // a point lacking a required key at encoding time
    | TypeError            // `String#+` given a non-string, `arr[nil]`
    | NoMethodError        // `each`, `length` or `to_i` on an object without it
    | CannotParseTimestamp // `parse_time`'s RuntimeError
    | Abort                // `abort`: the process exits

  datatype Result<T> = Ok(value: T) | Err(error: Error)

  /** `nil` or a value. */
  datatype Option<T> = None | Some(value: T)

  /** `opt ||= default` for an option that is a value or missing. */
  function OrDefault<T>(opt: Option<T>, default: T): (r: T)
    ensures opt.Some? ==> r == opt.value
    ensures opt.None? ==> r == default
  {
    if opt.Some? then opt.value else default
  }

  /** Returned `true` or raised: the shape of every `valid_*?` check. */
  datatype Outcome = Pass | Fail(error: Error)

  /** `if a passes then b`: the first failing check decides. */
  function AndThen(a: Outcome, b: Outcome): Outcome
  {
    if a.Fail? then a else b
  }

  datatype Dyn =
    | Nil
    | Bool(b: bool)
    | Int(i: int)
    | Float(truncated: int, shown: string)      // a Float: its `to_i` and its `to_s`
    | Str(s: string)
    | Time(seconds: int, shown: string)         // a Time: `to_i` (whole seconds) and `to_s`
    | Date(shown: string)                       // a Date or DateTime: it has no `to_i`
    | Hash(pairs: seq<(string, string)>)        // a hash of string keys to string values, in order
    | Other(shown: string)                      // any other object: no `length`, `each` or `to_i`

  /** Ruby truthiness: everything but `nil` and `false`. */
  predicate Truthy(d: Dyn) { !(d.Nil? || d == Bool(false)) }

  /** `"k"=>"v"` pairs in braces: `Hash#to_s` for string keys and values. */
  function HashInspect(pairs: seq<(string, string)>): string
  {
    "{" + Join(PairsInspect(pairs), ", ") + "}"
  }

  /** `"k"=>"v"` for each pair. */
  function PairsInspect(pairs: seq<(string, string)>): seq<string>
  {
    if pairs == [] then [] else ["\"" + pairs[0].0 + "\"=>\"" + pairs[0].1 + "\""] + PairsInspect(pairs[1..])
  }

  /** The text `Array#join` writes for an element. */
  function ToS(d: Dyn): string
  {
    match d
    case Nil => ""
    case Bool(b) => if b then "true" else "false"
    case Int(i) => IntToString(i)
    case Float(_, shown) => shown
    case Str(s) => s
    case Time(_, shown) => shown
    case Date(shown) => shown
    case Hash(pairs) => HashInspect(pairs)
    case Other(shown) => shown
  }

  /** `to_i`, or the NoMethodError of a class that lacks it. */
  function ToI(d: Dyn): Result<int>
  {
    match d
    case Nil => Ok(0)
    case Int(i) => Ok(i)
    case Float(t, _) => Ok(t)
    case Str(s) => Ok(StrToI(s))
    case Time(seconds, _) => Ok(seconds)
    case _ => Err(NoMethodError)
  }
}
