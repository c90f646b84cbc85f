/** The named-handler registry `_loggers` together with the root logger's
    handler list, the two ways a record reaches handlers: `logger(name, …)`,
    which hands it to one named handler, and a record logged through the
    root logger, which reaches every attached handler whose level it meets. */
module Loggers {
  import opened Options
  import opened Values
  import opened Records
  import opened TaskRegistry
  import opened Handlers

  /** The root logger's handlers, in the order they were added, and
      `_loggers`, from name to the handler installed last under it. */
  datatype State = State(root: seq<Handler>, named: map<string, Handler>)

  /** No handler attached and no name registered, as at import time. */
  const Initial: State := State([], map[])

  /** The start-up state is valid, and so is every state init_logger
      calls reach from it. */
  lemma InitialValid(names: seq<string>)
    ensures Valid(Initial)
    ensures InitAll(Initial, names).Ok? ==> Valid(InitAll(Initial, names).value)
  {
  }

  /** The handler class init_logger installs for a name, if it knows it. */
  function KindFor(name: string): (k: Option<Kind>)
    ensures k.Some? <==> name in {"cuckoo.log", "cuckoo.json", "console", "database", "task"}
  {
    if name == "cuckoo.log" then Some(PlainFile)
    else if name == "cuckoo.json" then Some(JsonFile)
    else if name == "console" then Some(Console)
    else if name == "database" then Some(Database)
    else if name == "task" then Some(PerTask)
    else None
  }

  /** The level init_logger gives a new handler: ERROR for the database
      handler, NOTSET for the rest. */
  function LevelFor(kind: Kind): (n: nat)
    ensures forall l: Level :: l.Number() >= n <==> kind != Database || l == Error || l == Critical
  {
    if kind == Database then ErrorNumber else NotSetNumber
  }

  /** Every registered name maps to a handler of its class that is attached
      to root, and every attached handler has the level its class is given. */
  ghost predicate Valid(st: State) {
    && (forall name :: name in st.named ==> KindFor(name) == Some(st.named[name].kind) && st.named[name] in st.root)
    && (forall i :: 0 <= i < |st.root| ==> st.root[i].level == LevelFor(st.root[i].kind))
  }

  /** `init_logger(root, name)`: a recognised name appends one new handler to
      root and records it under the name; any other name raises before
      anything changes, because the handler variable was never bound. */
  function InitLogger(st: State, name: string): (r: Outcome<State>)
    ensures r.Raise? <==> KindFor(name).None?
    ensures r.Raise? ==> r.error == UnboundLocalError
    ensures r.Ok? ==>
      && |r.value.root| == |st.root| + 1
      && r.value.root[..|st.root|] == st.root
      && r.value.named.Keys == st.named.Keys + {name}
      && r.value.named[name] == r.value.root[|st.root|]
      && Some(r.value.named[name].kind) == KindFor(name)
      && (forall n :: n in st.named && n != name ==> r.value.named[n] == st.named[n])
    ensures r.Ok? && Valid(st) ==> Valid(r.value)
  {
    match KindFor(name)
    case None => Raise(UnboundLocalError)
    case Some(kind) =>
      var h := Handler(kind, LevelFor(kind));
      var st' := State(st.root + [h], st.named[name := h]);
      assert forall n :: n in st.named ==> st.named[n] in st.root ==> st.named[n] in st'.root;
      Ok(st')
  }

  /** The configuration calls made at start-up, in order, stopping at the
      first unrecognised name. The error result keeps no state: a caller
      that caught the exception would still have the handlers attached and
      registered for the names before it. */
  function InitAll(st: State, names: seq<string>): (r: Outcome<State>)
    ensures r.Ok? && Valid(st) ==> Valid(r.value)
    ensures r.Ok? ==> |r.value.root| == |st.root| + |names|
    ensures r.Ok? ==> r.value.root[..|st.root|] == st.root
    ensures r.Ok? ==> OnePerName(r.value.root[|st.root|..], names)
    ensures r.Ok? ==> st.named.Keys <= r.value.named.Keys
    ensures r.Ok? ==> forall i :: 0 <= i < |names| ==> names[i] in r.value.named
    ensures r.Ok? ==> r.value.named.Keys == st.named.Keys + (set i | 0 <= i < |names| :: names[i])
    ensures r.Ok? ==> forall n :: n in st.named && n !in names ==> r.value.named[n] == st.named[n]
    ensures r.Raise? <==> exists i :: 0 <= i < |names| && KindFor(names[i]).None?
    decreases |names|
  {
    if |names| == 0 then Ok(st)
    else
      var first := InitLogger(st, names[0]);
      if first.Raise? then
        assert KindFor(names[0]).None?;
        Raise(first.error)
      else
        var st1 := first.value;
        var rest := names[1..];
        var r := InitAll(st1, rest);
        UnknownShift(names);
        if r.Raise? then r
        else
          var h := st1.root[|st.root|];
          assert st1.root == st.root + [h];
          assert r.value.root[..|st.root| + 1] == st.root + [h];
          ExtendRoot(st.root, h, r.value.root, names);
          NamesShift(names, r.value.named.Keys);
          NamedStep(st.named, st1.named, r.value.named, names);
          r
  }

  /** Registering the first name, then the rest, registers all of them and
      keeps every other earlier name's handler. */
  lemma NamedStep(before: map<string, Handler>, mid: map<string, Handler>, after: map<string, Handler>, names: seq<string>)
    requires 0 < |names|
    requires mid.Keys == before.Keys + {names[0]}
    requires forall n :: n in before && n != names[0] ==> mid[n] == before[n]
    requires after.Keys == mid.Keys + (set i | 0 <= i < |names[1..]| :: names[1..][i])
    requires forall n :: n in mid && n !in names[1..] ==> after[n] == mid[n]
    ensures after.Keys == before.Keys + (set i | 0 <= i < |names| :: names[i])
    ensures forall n :: n in before && n !in names ==> after[n] == before[n]
  {
    NameSetShift(names);
    assert forall n :: n !in names ==> n != names[0] && n !in names[1..];
  }

  /** The names in a non-empty list are its first one and those after it. */
  lemma NameSetShift(names: seq<string>)
    requires 0 < |names|
    ensures (set i | 0 <= i < |names| :: names[i]) ==
      {names[0]} + (set i | 0 <= i < |names[1..]| :: names[1..][i])
  {
    var all := set i | 0 <= i < |names| :: names[i];
    var later := set i | 0 <= i < |names[1..]| :: names[1..][i];
    forall n | n in all ensures n in {names[0]} + later {
      var i :| 0 <= i < |names| && names[i] == n;
      if i > 0 {
        assert names[1..][i - 1] == n;
      }
    }
    forall n | n in later ensures n in all {
      var i :| 0 <= i < |names[1..]| && names[1..][i] == n;
      assert names[i + 1] == n;
    }
  }

  lemma UnknownShift(names: seq<string>)
    requires 0 < |names|
    ensures (exists i :: 0 <= i < |names| && KindFor(names[i]).None?) <==>
      KindFor(names[0]).None? || exists i :: 0 <= i < |names| - 1 && KindFor(names[1..][i]).None?
  {
    assert forall i :: 0 <= i < |names| - 1 ==> names[1..][i] == names[i + 1];
    assert forall i :: 1 <= i < |names| ==> names[i] == names[1..][i - 1];
  }

  lemma NamesShift(names: seq<string>, keys: set<string>)
    requires 0 < |names| && names[0] in keys
    requires forall i :: 0 <= i < |names| - 1 ==> names[1..][i] in keys
    ensures forall i :: 0 <= i < |names| ==> names[i] in keys
  {
    assert forall i :: 1 <= i < |names| ==> names[i] == names[1..][i - 1];
  }

  /** `added` holds one handler per name, in order, each of its name's class. */
  ghost predicate OnePerName(added: seq<Handler>, names: seq<string>) {
    |added| == |names| && forall i :: 0 <= i < |names| ==> Some(added[i].kind) == KindFor(names[i])
  }

  /** A handler for the first name followed by one per later name is one
      per name. */
  lemma ExtendRoot(prior: seq<Handler>, h: Handler, root: seq<Handler>, names: seq<string>)
    requires 0 < |names| && Some(h.kind) == KindFor(names[0])
    requires |prior| + 1 <= |root|
    requires root[..|prior| + 1] == prior + [h]
    requires OnePerName(root[|prior| + 1..], names[1..])
    ensures root[..|prior|] == prior
    ensures OnePerName(root[|prior|..], names)
  {
    assert root[..|prior|] == root[..|prior| + 1][..|prior|];
    var added := root[|prior|..];
    assert added == [h] + root[|prior| + 1..] by {
      assert added[0] == root[..|prior| + 1][|prior|];
      assert added[1..] == root[|prior| + 1..];
    }
  }

  /** The record `logger(name, message, *args, **kwargs)` builds: level INFO,
      the handler's name (always None, handlers are never named), and the
      keyword arguments merged into its attributes. */
  function LoggerRecord(message: Value, args: seq<Value>, kwargs: Attrs): (rec: Event)
    ensures rec.level == Info && rec.level.Number() < ErrorNumber
    ensures rec.msg == message && rec.args == args && rec.attrs == kwargs
    ensures rec.name.None?
  {
    Event(None, Info, message, args, kwargs)
  }

  /** `logger(name, message, *args, **kwargs)` run on `thread`: hands the
      record to the one handler registered under `name` by calling its
      `handle` directly, so no level applies. */
  function Logger(st: State, reg: Registry, thread: ThreadId, name: string,
                  message: Value, args: seq<Value>, kwargs: Attrs): (d: Delivery)
    ensures name !in st.named <==> d == Raised(KeyError(name))
    ensures name in st.named ==> d == Handle(st.named[name], LoggerRecord(message, args, kwargs), thread, reg)
    ensures d.Wrote? ==> name in st.named && Produces(st.named[name].kind, d.out)
    ensures d.Wrote? ==>
      var rec := Source(d.out);
      rec.level == Info && rec.msg == message && rec.args == args && rec.attrs == kwargs && rec.name.None?
    ensures Valid(st) && name in st.named && d.Wrote? ==> KindFor(name).Some? && Produces(KindFor(name).value, d.out)
  {
    if name !in st.named then Raised(KeyError(name))
    else Handle(st.named[name], LoggerRecord(message, args, kwargs), thread, reg)
  }

  /** `logger("database", …)` stores a row for an INFO record although the
      database handler's level is ERROR: the direct `handle` call skips it. */
  lemma LoggerSkipsLevel(st: State, reg: Registry, thread: ThreadId, message: Value, args: seq<Value>, task: int)
    requires Valid(st) && "database" in st.named
    ensures var d := Logger(st, reg, thread, "database", message, args, Attrs(None, None, Some(VInt(task))));
      d.Wrote? && d.out.ErrorRow? && d.out.task == task
    ensures st.named["database"].level > Info.Number()
  {
  }

  /** `logger("console", 5)`: at INFO the console's marker test meets a
      message that is not a string, and the TypeError escapes `logger`. */
  lemma ConsoleNonStringMessage(st: State, reg: Registry, thread: ThreadId, message: Value, args: seq<Value>, kwargs: Attrs)
    requires Valid(st) && "console" in st.named
    requires !message.VStr?
    ensures Logger(st, reg, thread, "console", message, args, kwargs) == Raised(TypeError)
  {
  }

  // ---------------------------------------------------------------------
  // Dispatch through the root logger.

  /** What a record logged through root comes to: the outputs of the handlers
      that took it, in handler order, and the exception that stopped the
      walk, if one did. */
  datatype Dispatch = Dispatch(outs: seq<Output>, fault: Option<PyError>)

  /** Some handler of `handlers` whose level the record meets comes to `d`
      when handed it. */
  ghost predicate Reaches(handlers: seq<Handler>, rec: Event, thread: ThreadId, reg: Registry, d: Delivery) {
    exists j :: 0 <= j < |handlers| && rec.level.Number() >= handlers[j].level && Handle(handlers[j], rec, thread, reg) == d
  }

  /** What one handler does with a record logged through root: `handle`
      when the record meets the handler's level, nothing otherwise. */
  function Gate(h: Handler, rec: Event, thread: ThreadId, reg: Registry): Delivery {
    if rec.level.Number() >= h.level then Handle(h, rec, thread, reg) else Dropped
  }

  /** No handler of `handlers` raises on the record. */
  ghost predicate NoneRaise(handlers: seq<Handler>, rec: Event, thread: ThreadId, reg: Registry) {
    forall j :: 0 <= j < |handlers| ==> !Gate(handlers[j], rec, thread, reg).Raised?
  }

  /** The outputs of the handlers that write, in handler order, leaving
      exceptions aside. */
  function Written(handlers: seq<Handler>, rec: Event, thread: ThreadId, reg: Registry): seq<Output>
    decreases |handlers|
  {
    if |handlers| == 0 then []
    else
      var d := Gate(handlers[0], rec, thread, reg);
      (if d.Wrote? then [d.out] else []) + Written(handlers[1..], rec, thread, reg)
  }

  /** The walk over `handlers` ended at handler `k`, which raised: the
      handlers before it raised nothing and their outputs are all there is. */
  ghost predicate StopsAt(handlers: seq<Handler>, rec: Event, thread: ThreadId, reg: Registry, r: Dispatch, k: int) {
    && 0 <= k < |handlers|
    && r.fault.Some?
    && Gate(handlers[k], rec, thread, reg) == Raised(r.fault.value)
    && NoneRaise(handlers[..k], rec, thread, reg)
    && r.outs == Written(handlers[..k], rec, thread, reg)
  }

  lemma PrefixStep(handlers: seq<Handler>, rec: Event, thread: ThreadId, reg: Registry, k: nat)
    requires k < |handlers|
    ensures var d := Gate(handlers[0], rec, thread, reg);
      Written(handlers[..k + 1], rec, thread, reg) == (if d.Wrote? then [d.out] else []) + Written(handlers[1..][..k], rec, thread, reg)
    ensures NoneRaise(handlers[..k + 1], rec, thread, reg) <==>
      !Gate(handlers[0], rec, thread, reg).Raised? && NoneRaise(handlers[1..][..k], rec, thread, reg)
  {
    var p := handlers[..k + 1];
    assert p[0] == handlers[0];
    assert p[1..] == handlers[1..][..k];
    assert forall j :: 0 <= j < k ==> p[j + 1] == handlers[1..][..k][j];
  }

  /** `Logger.callHandlers` on root: each handler whose level the record
      meets gets `handle(record)`; an exception from one ends the walk. */
  function RootDispatch(handlers: seq<Handler>, rec: Event, thread: ThreadId, reg: Registry): (r: Dispatch)
    ensures |r.outs| <= |handlers|
    ensures forall i :: 0 <= i < |r.outs| ==> Source(r.outs[i]) == rec
    ensures forall i :: 0 <= i < |r.outs| ==> Reaches(handlers, rec, thread, reg, Wrote(r.outs[i]))
    ensures r.fault.Some? ==> Reaches(handlers, rec, thread, reg, Raised(r.fault.value))
    ensures r.fault.None? <==> NoneRaise(handlers, rec, thread, reg)
    ensures r.fault.None? ==> r.outs == Written(handlers, rec, thread, reg)
    ensures r.fault.Some? ==> exists k :: StopsAt(handlers, rec, thread, reg, r, k)
    decreases |handlers|
  {
    if |handlers| == 0 then Dispatch([], None)
    else
      var d := Gate(handlers[0], rec, thread, reg);
      if d.Raised? then
        var r := Dispatch([], Some(d.error));
        assert handlers[..0] == [];
        assert StopsAt(handlers, rec, thread, reg, r, 0);
        r
      else
        var rest := RootDispatch(handlers[1..], rec, thread, reg);
        var r := Dispatch((if d.Wrote? then [d.out] else []) + rest.outs, rest.fault);
        ConsStep(handlers, rec, thread, reg, rest, r);
        assert r.fault.Some? ==> exists k :: StopsAt(handlers, rec, thread, reg, r, k) by {
          if rest.fault.Some? {
            var k :| StopsAt(handlers[1..], rec, thread, reg, rest, k);
            PrefixStep(handlers, rec, thread, reg, k);
            assert StopsAt(handlers, rec, thread, reg, r, k + 1);
          }
        }
        r
  }

  /** Prepending the first handler's delivery to the walk over the others
      keeps every output traced to a handler that the record reached. */
  lemma ConsStep(handlers: seq<Handler>, rec: Event, thread: ThreadId, reg: Registry, rest: Dispatch, r: Dispatch)
    requires 0 < |handlers|
    requires var d := Gate(handlers[0], rec, thread, reg);
      !d.Raised? && r == Dispatch((if d.Wrote? then [d.out] else []) + rest.outs, rest.fault)
    requires forall i :: 0 <= i < |rest.outs| ==> Source(rest.outs[i]) == rec
    requires forall i :: 0 <= i < |rest.outs| ==> Reaches(handlers[1..], rec, thread, reg, Wrote(rest.outs[i]))
    requires rest.fault.Some? ==> Reaches(handlers[1..], rec, thread, reg, Raised(rest.fault.value))
    requires rest.fault.None? <==> NoneRaise(handlers[1..], rec, thread, reg)
    ensures forall i :: 0 <= i < |r.outs| ==> Source(r.outs[i]) == rec
    ensures forall i :: 0 <= i < |r.outs| ==> Reaches(handlers, rec, thread, reg, Wrote(r.outs[i]))
    ensures r.fault.Some? ==> Reaches(handlers, rec, thread, reg, Raised(r.fault.value))
    ensures r.fault.None? <==> NoneRaise(handlers, rec, thread, reg)
  {
    assert forall j :: 0 <= j < |handlers| - 1 ==> handlers[1..][j] == handlers[j + 1];
  }

  /** Through root, a record below ERROR never reaches the error store, and
      only the console's marker test on a message that is not a string can
      raise. */
  lemma QuietBelowError(st: State, rec: Event, thread: ThreadId, reg: Registry)
    requires Valid(st)
    requires rec.level.Number() < ErrorNumber
    ensures forall o :: o in RootDispatch(st.root, rec, thread, reg).outs ==> !o.ErrorRow?
    ensures rec.msg.VStr? ==> RootDispatch(st.root, rec, thread, reg).fault.None?
    ensures RootDispatch(st.root, rec, thread, reg).fault.Some? ==> RootDispatch(st.root, rec, thread, reg).fault.value == TypeError
  {
  }

  function CountKind(handlers: seq<Handler>, kind: Kind): nat
    decreases |handlers|
  {
    if |handlers| == 0 then 0
    else (if handlers[0].kind == kind then 1 else 0) + CountKind(handlers[1..], kind)
  }

  function CountRows(outs: seq<Output>, task: int): nat
    decreases |outs|
  {
    if |outs| == 0 then 0
    else (if outs[0].ErrorRow? && outs[0].task == task then 1 else 0) + CountRows(outs[1..], task)
  }

  /** Through root, an ERROR-or-worse record carrying an integer task id
      leaves exactly one error row per attached database handler and raises
      nothing. */
  lemma {:induction false} ErrorsReachStore(handlers: seq<Handler>, rec: Event, thread: ThreadId, reg: Registry, task: int)
    requires forall i :: 0 <= i < |handlers| ==> handlers[i].level == LevelFor(handlers[i].kind)
    requires rec.level.Number() >= ErrorNumber
    requires rec.attrs.taskId == Some(VInt(task))
    ensures RootDispatch(handlers, rec, thread, reg).fault.None?
    ensures CountRows(RootDispatch(handlers, rec, thread, reg).outs, task) == CountKind(handlers, Database)
    decreases |handlers|
  {
    if |handlers| > 0 {
      ErrorsReachStore(handlers[1..], rec, thread, reg, task);
      var h := handlers[0];
      var d := Handle(h, rec, thread, reg);
      var rest := RootDispatch(handlers[1..], rec, thread, reg);
      HandleAtError(h, rec, thread, reg, task);
      assert rec.level.Number() >= h.level;
      if d.Wrote? {
        var outs := [d.out] + rest.outs;
        assert RootDispatch(handlers, rec, thread, reg) == Dispatch(outs, rest.fault);
        assert outs[1..] == rest.outs;
        assert CountRows(outs, task) == (if h.kind == Database then 1 else 0) + CountRows(rest.outs, task);
      } else {
        assert RootDispatch(handlers, rec, thread, reg) == rest;
      }
    }
  }

  /** One handler given an ERROR-or-worse record with an integer task id:
      nothing raises, and only a database handler writes an error row. */
  lemma HandleAtError(h: Handler, rec: Event, thread: ThreadId, reg: Registry, task: int)
    requires rec.level.Number() >= ErrorNumber
    requires rec.attrs.taskId == Some(VInt(task))
    ensures !Handle(h, rec, thread, reg).Raised?
    ensures var d := Handle(h, rec, thread, reg);
      (d.Wrote? && d.out.ErrorRow? && d.out.task == task) <==> h.kind == Database
  {
  }

  /** After a successful init_logger, `logger` under that name reaches the
      handler just installed. */
  lemma InitThenLog(st: State, name: string, reg: Registry, thread: ThreadId, message: Value, args: seq<Value>, kwargs: Attrs)
    requires InitLogger(st, name).Ok?
    ensures var st' := InitLogger(st, name).value;
      Logger(st', reg, thread, name, message, args, kwargs)
        == Handle(st'.root[|st'.root| - 1], LoggerRecord(message, args, kwargs), thread, reg)
  {
  }
}
