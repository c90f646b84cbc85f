/** The log record that travels from a call site to the handlers, and the
    abstract outputs the handlers produce in place of their writes. */
module Records {
  import opened Options
  import opened Values

  /** The standard logging levels; `Number` is the record's `levelno` and
      `Name` its `levelname`. */
  datatype Level = Debug | Info | Warning | Error | Critical {

    function Number(): (n: nat)
      ensures 10 <= n <= 50
      ensures n >= 40 <==> this == Error || this == Critical
    {
      match this
      case Debug => 10
      case Info => 20
      case Warning => 30
      case Error => 40
      case Critical => 50
    }

    function Name(): (n: string)
      ensures n == "WARNING" <==> this == Warning
      ensures n == "ERROR" || n == "CRITICAL" <==> this == Error || this == Critical
    {
      match this
      case Debug => "DEBUG"
      case Info => "INFO"
      case Warning => "WARNING"
      case Error => "ERROR"
      case Critical => "CRITICAL"
    }
  }

  /** `logging.ERROR`, the level the database handler is given. */
  const ErrorNumber: nat := 40

  /** `logging.NOTSET`, the level every other handler keeps. */
  const NotSetNumber: nat := 0

  /** The keyword attributes the core reads from a record's `__dict__`;
      `None` means the key is not there at all. */
  datatype Attrs = Attrs(action: Option<Value>, status: Option<Value>, taskId: Option<Value>)

  /** `record.__dict__.get(key)`: a missing key reads as Python `None`. */
  function Get(attr: Option<Value>): (v: Value)
    ensures attr.None? ==> v == VNone
    ensures attr.Some? ==> v == attr.value
  {
    attr.GetOr(VNone)
  }

  /** A `logging.LogRecord`: logger name, level, message, format arguments
      and the attributes merged in from keyword arguments. The message is
      whatever object the caller passed, not necessarily a string. */
  datatype Event = Event(name: Option<string>, level: Level, msg: Value, args: seq<Value>, attrs: Attrs)

  /** The three colour helpers the console applies to a message. */
  datatype Colour = Yellow | Red | Cyan

  /** A message body: as given, or the result of one colour helper applied
      to it. The helpers are not part of this model, so their result is kept
      as the term that names it. */
  datatype Text = Plain(v: Value) | Painted(colour: Colour, v: Value)

  /** A shallow copy of `rec` whose `msg` is `text` and whose other fields
      are `rec`'s. */
  datatype Colored = Colored(rec: Event, text: Text)

  /** The two formatters in use: `Bare` is `logging.Formatter()` with its
      default `%(message)s`; `Stamped` is the time, name and level prefix
      that init_logger sets up. */
  datatype Layout = Bare | Stamped

  /** The string a formatter would render for a record, kept symbolic. */
  datatype Rendered = Rendered(layout: Layout, rec: Event)

  /** The object the JSON formatter serialises; its `time` field is the wall
      clock and is not modelled. */
  datatype JsonDoc = JsonDoc(action: Value, taskId: Value, status: Value, message: Rendered, level: string)

  /** Files a handler appends lines to. */
  datatype Dest = MainLog | TaskLog(task: int)

  /** What one handler's emit does to the outside world. */
  datatype Output =
    | FileLine(dest: Dest, line: Rendered)   // a line appended to a text log file
    | JsonLine(doc: JsonDoc)                 // a line appended to log/cuckoo.json
    | ConsoleLine(copy: Colored)             // the Stamped rendering of the copy, on stderr
    | ErrorRow(message: Rendered, task: int) // Database().add_error(message, task)

  /** The record an output was rendered from. */
  function Source(out: Output): Event {
    match out
    case FileLine(_, line) => line.rec
    case JsonLine(doc) => doc.message.rec
    case ConsoleLine(copy) => copy.rec
    case ErrorRow(message, _) => message.rec
  }

  /** What handing a record to one handler comes to: nothing, one output, or
      an exception that escapes `handle`. */
  datatype Delivery = Dropped | Wrote(out: Output) | Raised(error: PyError)
}
