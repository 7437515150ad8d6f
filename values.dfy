/** Values the parser stores and the outcomes of its operations.

    The parser keeps dynamically typed values in option and argument slots:
    `undefined`, booleans (switches, presence markers), strings (tokens),
    arrays (variadic slots) and whatever a default or a transformer yields. */
module Values {

  datatype Option<+T> = None | Some(value: T)

  /** A value held by an option or argument slot. `Opaque` stands for any other
      value (a number such as a default `128`, `NaN`, an object): it carries the
      two facts the parser asks of a value, its JavaScript truthiness and
      whether the utility `hasContent` accepts it. */
  datatype Value =
    | Undefined
    | Bool(b: bool)
    | Str(s: string)
    | List(items: seq<Value>)
    | Opaque(token: string, truthy: bool, solid: bool)

  /** JavaScript truthiness (`!v` is its negation): arrays are always truthy. */
  predicate Truthy(v: Value) {
    match v
    case Undefined => false
    case Bool(b) => b
    case Str(s) => s != ""
    case List(_) => true
    case Opaque(_, t, _) => t
  }

  /** The utility `hasContent`: nothing for `undefined`, the empty string and the
      empty array; a boolean always has content (`false` is printed as a default). */
  predicate HasContent(v: Value) {
    match v
    case Undefined => false
    case Bool(_) => true
    case Str(s) => s != ""
    case List(xs) => |xs| > 0
    case Opaque(_, _, c) => c
  }

  /** `push` onto an array value. */
  function Append(v: Value, x: Value): Value
    requires v.List?
  {
    List(v.items + [x])
  }

  /** A transformer given with an option row: called as `f(token, currentValue)`. */
  type Transformer = (Value, Value) -> Value

  /** Every error the registration and parse calls can throw, by kind. */
  datatype ErrorKind =
    | InvalidCommandSchema
    | InvalidOptionSchema
    | InvalidVersionSchema
    | InvalidHelpSchema
    | DuplicateCommand
    | EmptyProgramList
    | InvalidInvocation
    | NoMatchingCommand
    | UnknownOption
    | NoShortFlag
    | MissingRequiredArgument
    | MissingRequiredOption
    | MissingOptionValue

  datatype Result<+T> = Ok(value: T) | Err(error: ErrorKind)

  /** The value handed to the command's action: its arguments in declared order
      and, when the command declares options, the option map as a last argument. */
  datatype ActionCall = ActionCall(args: seq<Value>, options: Option<map<string, Value>>)

  /** What `parse` ends with: a return (the action's call, or none when the command
      has no action), the help/version short-circuit that prints `text` and exits
      with `status`, or a thrown error. */
  datatype Outcome =
    | Returned(call: Option<ActionCall>)
    | Exit(status: int, text: string)
    | Failed(error: ErrorKind)

  /** The success status the help and version handlers exit with. */
  const ExitOk: int := 0
}
