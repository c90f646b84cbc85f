/** The five handlers init_logger can install, each as the decision it takes
    on a record: whether it writes, and what. `Handle` is `Handler.handle`:
    the handler's filters, then its `emit`. */
module Handlers {
  import opened Options
  import opened Strings
  import opened Values
  import opened Records
  import opened TaskRegistry

  /** The substring that makes the console print an ordinary message in cyan. */
  const Marker: string := "analysis procedure completed"

  /** Which handler class was installed, by the name it was installed under:
      `cuckoo.log`, `cuckoo.json`, `console`, `database`, `task`. */
  datatype Kind = PlainFile | JsonFile | Console | Database | PerTask

  /** An installed handler and its own level (`Handler.level`). */
  datatype Handler = Handler(kind: Kind, level: nat)

  /** The copy ConsoleHandler.emit hands on for printing: the level name
      picks the colour, and only the message changes. At the other levels
      the marker test `Marker in record.msg` raises TypeError when the
      message is not a string. */
  function ConsoleCopy(rec: Event): (r: Outcome<Colored>)
    ensures r.Ok? ==> r.value.rec == rec
    ensures rec.level == Warning ==> r == Ok(Colored(rec, Painted(Yellow, rec.msg)))
    ensures rec.level == Error || rec.level == Critical ==> r == Ok(Colored(rec, Painted(Red, rec.msg)))
    ensures rec.level == Debug || rec.level == Info ==> (r.Raise? <==> !rec.msg.VStr?)
    ensures r.Raise? ==> r.error == TypeError
    ensures (rec.level == Debug || rec.level == Info) && rec.msg.VStr? ==>
      (r == Ok(Colored(rec, Painted(Cyan, rec.msg))) <==> Occurs(Marker, rec.msg.s))
    ensures (rec.level == Debug || rec.level == Info) && rec.msg.VStr? ==>
      (r == Ok(Colored(rec, Plain(rec.msg))) <==> !Occurs(Marker, rec.msg.s))
  {
    var name := rec.level.Name();
    if name == "WARNING" then Ok(Colored(rec, Painted(Yellow, rec.msg)))
    else if name == "ERROR" || name == "CRITICAL" then Ok(Colored(rec, Painted(Red, rec.msg)))
    else if !rec.msg.VStr? then Raise(TypeError)
    else if Contains(rec.msg.s, Marker) then Ok(Colored(rec, Painted(Cyan, rec.msg)))
    else Ok(Colored(rec, Plain(rec.msg)))
  }

  /** JsonFormatter.filter: `action and status`, read for truth. */
  function JsonFilter(rec: Event): (pass: bool)
    ensures pass <==>
      && rec.attrs.action.Some? && Truthy(rec.attrs.action.value)
      && rec.attrs.status.Some? && Truthy(rec.attrs.status.value)
  {
    Truthy(Get(rec.attrs.action)) && Truthy(Get(rec.attrs.status))
  }

  /** The `task_id` field of the JSON line: the thread's registry entry takes
      precedence over the record's own attribute. */
  function JsonTaskId(rec: Event, thread: ThreadId, reg: Registry): (v: Value)
    ensures thread in reg ==> v == VInt(reg[thread])
    ensures thread !in reg && rec.attrs.taskId.Some? ==> v == rec.attrs.taskId.value
    ensures thread !in reg && rec.attrs.taskId.None? ==> v == VNone
  {
    match Lookup(reg, thread)
    case Some(task) => VInt(task)
    case None => Get(rec.attrs.taskId)
  }

  /** JsonFormatter.format, less the wall-clock `time` field. */
  function JsonFormat(rec: Event, thread: ThreadId, reg: Registry): (doc: JsonDoc)
    ensures doc.action == Get(rec.attrs.action) && doc.status == Get(rec.attrs.status)
    ensures doc.taskId == JsonTaskId(rec, thread, reg)
    ensures doc.message == Rendered(Bare, rec)
    ensures |doc.level| == |rec.level.Name()|
    ensures forall i :: 0 <= i < |doc.level| ==> !IsUpper(doc.level[i])
  {
    JsonDoc(
      Get(rec.attrs.action),
      JsonTaskId(rec, thread, reg),
      Get(rec.attrs.status),
      Rendered(Bare, rec),
      Lower(rec.level.Name()))
  }

  /** The `level` field of a JSON line for each level. */
  lemma JsonLevelNames(rec: Event, thread: ThreadId, reg: Registry)
    ensures var l := JsonFormat(rec, thread, reg).level;
      match rec.level
      case Debug => l == "debug"
      case Info => l == "info"
      case Warning => l == "warning"
      case Error => l == "error"
      case Critical => l == "critical"
  {
    var name := rec.level.Name();
    var l := JsonFormat(rec, thread, reg).level;
    assert forall i :: 0 <= i < |name| ==> IsUpper(name[i]);
    assert forall i :: 0 <= i < |l| ==> l[i] as int == name[i] as int + 32;
  }

  /** DatabaseHandler.emit: a record with a `task_id` attribute becomes one
      error row for `int(task_id)`; one without is ignored. */
  function DatabaseEmit(rec: Event): (d: Delivery)
    ensures rec.attrs.taskId.None? <==> d == Dropped
    ensures d.Wrote? ==> d.out.ErrorRow? && d.out.message == Rendered(Bare, rec)
    ensures d.Wrote? ==> IntOf(rec.attrs.taskId.value) == Ok(d.out.task)
    ensures d.Raised? ==> IntOf(rec.attrs.taskId.value) == Raise(d.error)
  {
    match rec.attrs.taskId
    case None => Dropped
    case Some(v) =>
      match IntOf(v)
      case Ok(task) => Wrote(ErrorRow(Rendered(Bare, rec), task))
      case Raise(e) => Raised(e)
  }

  /** TaskHandler.emit: writes one line to the running task's own log only
      while the thread is bound to a task whose id is truthy. */
  function TaskEmit(rec: Event, thread: ThreadId, reg: Registry): (d: Delivery)
    ensures !d.Raised?
    ensures d.Wrote? <==> thread in reg && reg[thread] != 0
    ensures d.Wrote? ==> d.out == FileLine(TaskLog(reg[thread]), Rendered(Stamped, rec))
  {
    var task := match Lookup(reg, thread) case Some(t) => VInt(t) case None => VNone;
    if !Truthy(task) then Dropped
    else Wrote(FileLine(TaskLog(task.i), Rendered(Stamped, rec)))
  }

  /** The `emit` of each handler class. */
  function Emit(kind: Kind, rec: Event, thread: ThreadId, reg: Registry): (d: Delivery)
    ensures d.Wrote? ==> Produces(kind, d.out) && Source(d.out) == rec
    ensures d.Raised? ==> kind == Console || kind == Database
    ensures kind == PlainFile || kind == JsonFile ==> d.Wrote?
    ensures kind == Console ==> (d.Raised? <==> (rec.level == Debug || rec.level == Info) && !rec.msg.VStr?)
  {
    match kind
    case PlainFile => Wrote(FileLine(MainLog, Rendered(Stamped, rec)))
    case JsonFile => Wrote(JsonLine(JsonFormat(rec, thread, reg)))
    case Console =>
      (match ConsoleCopy(rec)
       case Ok(copy) => Wrote(ConsoleLine(copy))
       case Raise(e) => Raised(e))
    case Database => DatabaseEmit(rec)
    case PerTask => TaskEmit(rec, thread, reg)
  }

  /** The kind of output a handler class writes. */
  predicate Produces(kind: Kind, out: Output) {
    match kind
    case PlainFile => out.FileLine? && out.dest == MainLog
    case JsonFile => out.JsonLine?
    case Console => out.ConsoleLine?
    case Database => out.ErrorRow?
    case PerTask => out.FileLine? && out.dest.TaskLog?
  }

  /** `Handler.handle`: the JSON handler's filter first, then `emit`. The
      handler's own level plays no part here. */
  function Handle(h: Handler, rec: Event, thread: ThreadId, reg: Registry): (d: Delivery)
    ensures d.Wrote? ==> Produces(h.kind, d.out) && Source(d.out) == rec
    ensures d.Raised? ==> h.kind == Database || h.kind == Console
    ensures h.kind == PlainFile ==> d == Wrote(FileLine(MainLog, Rendered(Stamped, rec)))
    ensures h.kind == Console && ConsoleCopy(rec).Ok? ==> d == Wrote(ConsoleLine(ConsoleCopy(rec).value))
    ensures h.kind == Console && ConsoleCopy(rec).Raise? ==> d == Raised(ConsoleCopy(rec).error)
    ensures h.kind == JsonFile ==> (d.Wrote? <==> JsonFilter(rec))
    ensures h.kind == JsonFile && JsonFilter(rec) ==> d == Wrote(JsonLine(JsonFormat(rec, thread, reg)))
    ensures h.kind == Database ==> d == DatabaseEmit(rec)
    ensures h.kind == PerTask ==> d == TaskEmit(rec, thread, reg)
    ensures h.kind == PerTask ==> (d.Wrote? <==> Lookup(reg, thread).Some? && Lookup(reg, thread).value != 0)
    ensures h.kind == PerTask && d.Wrote? ==> d.out.dest == TaskLog(reg[thread])
  {
    if h.kind == JsonFile && !JsonFilter(rec) then Dropped
    else Emit(h.kind, rec, thread, reg)
  }

  /** A record without both an action and a status leaves no trace in the
      JSON log; one with a truthy pair leaves exactly one line carrying
      them. */
  lemma JsonExamples(rec: Event, thread: ThreadId, reg: Registry, h: Handler)
    requires h.kind == JsonFile
    ensures rec.attrs.action.None? || rec.attrs.status.None? ==> Handle(h, rec, thread, reg) == Dropped
    ensures rec.attrs.action == Some(VStr("procstart")) && rec.attrs.status == Some(VStr("success")) ==>
      && Handle(h, rec, thread, reg).Wrote?
      && Handle(h, rec, thread, reg).out.doc.action == VStr("procstart")
      && Handle(h, rec, thread, reg).out.doc.status == VStr("success")
  {
  }

  /** The JSON line and the per-task log agree on the task of a bound
      thread, whatever task id the record itself carries. */
  lemma TaskIdAgreement(rec: Event, thread: ThreadId, reg: Registry, j: Handler, t: Handler)
    requires j.kind == JsonFile && t.kind == PerTask
    requires JsonFilter(rec) && thread in reg && reg[thread] != 0
    ensures Handle(j, rec, thread, reg).out.doc.taskId == VInt(Handle(t, rec, thread, reg).out.dest.task)
  {
  }
}
