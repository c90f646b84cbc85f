# Cuckoo Sandbox logging core, modelled in Dafny

This project models `cuckoo/core/log.py`, the module that routes Cuckoo's log
records to its sinks. The sinks are the main text log, the structured JSON log,
the coloured console, the per-task error rows in the database, and each analysis
task's own `cuckoo.log`. The model also covers how a record is attributed to
the task its thread is working for.

The Python `logging` machinery and the writes it drives are replaced by pure
functions:

- `TaskRegistry` (`registry.dfy`) is the `_tasks` dictionary. It is a
  `map<ThreadId, TaskId>`. The calling thread is an explicit argument
  where the source reads `thread.get_ident()`.
- `Records` (`records.dfy`) holds the log record (`Event`), its level
  and its `Option`-typed `action`/`status`/`task_id` attributes. It also
  holds the abstract output a handler produces in place of a write
  (`Output`) and the result of handing a record to one handler
  (`Delivery`: dropped, wrote one output, or raised).
- `Handlers` (`handlers.dfy`) models the five handler classes. It has
  ConsoleHandler's colour choice, JsonFormatter's filter and field
  resolution, and DatabaseHandler's and TaskHandler's guards.
  `Handle` is `Handler.handle`: the filters first, then `emit`.
- `Loggers` (`loggers.dfy`) is `_loggers` together with the root
  logger's handler list. It models `init_logger`, `logger`, and a record
  reaching the root logger's handlers (`RootDispatch`). That last path
  is the only one where a handler's level applies.
- `Values`, `Strings` and `Options` (`values.dfy`, `strings.dfy`,
  `options.dfy`) hold the supporting pieces:
  - Python values and truthiness;
  - Python 2's `int()` on a task id;
  - `str.lower()`;
  - the substring test `p in s`.

Formatted strings are symbolic. `Rendered(Bare, rec)` stands for what
`logging.Formatter()` (default `%(message)s`) renders for `rec`. The
database handler falls back to that formatter, and JsonFormatter uses it
for its `message` field. `Rendered(Stamped, rec)` stands for what the
`%(asctime)s [%(name)s] %(levelname)s: %(message)s` formatter renders.

The colour helpers are symbolic too: `Painted(Yellow, msg)` stands for
`yellow(msg)`. The console's shallow copy is `Colored(rec, text)`: it is
`rec` with its `msg` replaced by `text` and every other field kept.

Notes on what `log.py` does, which the model keeps:

- The JSON `task_id` takes the thread's registry entry first. It falls
  back to the record's `task_id` attribute only when the thread has no
  entry.
- The JSON filter drops a record when either `action` or `status` is
  missing or falsy.
- The database handler's ERROR level only applies when a record goes
  through the root logger. `logger("database", ...)` calls `handle`
  directly, so an INFO record with a task id is stored
  (`Loggers.LoggerSkipsLevel`).
- An unregistered name in `logger` raises `KeyError`.
- Exceptions from `emit` are not caught. Two are modelled:
  - a `task_id` that `int()` cannot convert;
  - a DEBUG or INFO message that is not a string, which fails the
    console's marker test with TypeError (`Loggers.ConsoleNonStringMessage`).

  The others the code can raise are listed under "## Left out": a
  formatting error, a failed `open`, and a failing `Database()` or
  `add_error`.

  Through the root logger, such an exception also stops the remaining
  handlers.
- The cyan marker only applies to levels other than WARNING, ERROR and
  CRITICAL.

## Model

| member | source | states |
|---|---|---|
| TaskRegistry.Lookup | cuckoo/core/log.py:35 | `_tasks.get(thread)` is present exactly when the thread has an entry, and is that entry |
| TaskRegistry.Start | cuckoo/core/log.py:83-85 | after task_log_start the thread maps to the task; the key set grows by at most that thread; every other thread's lookup is unchanged |
| TaskRegistry.Stop | cuckoo/core/log.py:87-89 | after task_log_stop the thread has no entry, whether or not it had one; only that key is removed; every other thread's lookup is unchanged |
| TaskRegistry.StopIgnoresTask | cuckoo/core/log.py:87-89 | the task argument of task_log_stop does not affect the result |
| TaskRegistry.StopUndoesStart | cuckoo/core/log.py:83-89 | for a thread with no entry, stop after start gives back the original registry |
| TaskRegistry.StartOverwrites | cuckoo/core/log.py:83-85 | a second start on one thread replaces the first |
| TaskRegistry.StartCommutes | cuckoo/core/log.py:83-85 | starts on two different threads commute |
| TaskRegistry.RunSettles | cuckoo/core/log.py:83-89 | after any sequence of start/stop calls, a thread's lookup is set by its own last call, or is what it was before if it made none |
| TaskRegistry.SettledOwnCalls | cuckoo/core/log.py:83-89 | what a thread sees depends only on its own calls, not on other threads' calls |
| TaskRegistry.Isolation | cuckoo/core/log.py:83-89 | two interleavings that agree on one thread's calls leave that thread with the same task |
| TaskRegistry.EmptyUnbound | cuckoo/core/log.py:16 | `_tasks` starts empty, and a thread that never called task_log_start or task_log_stop stays unbound after any calls by other threads |
| Strings.Lower | cuckoo/core/log.py:75 | `str.lower()` keeps the length, leaves no upper-case letter, keeps every non-letter, and shifts each upper-case letter to its lower-case form |
| Strings.LowerIdempotent | cuckoo/core/log.py:75 | lower-casing a lower-cased string changes nothing |
| Strings.Contains | cuckoo/core/log.py:53 | the scan behind `p in s` is true exactly when `p` occurs at some index of `s` |
| Strings.ParseDecimal | cuckoo/core/log.py:27 | `int()` on the decimal spelling of an integer returns that integer |
| Strings.ParseIgnoresPadding | cuckoo/core/log.py:27 | white space around a task id string does not change what `int()` reads |
| Strings.ParseInt | cuckoo/core/log.py:27 | `int()` accepts a string exactly when, once stripped, it is ASCII digits, or a sign followed by optional white space and ASCII digits (the forms modelled) |
| Strings.SignedDigits | cuckoo/core/log.py:27 | a sign directly before a run of digits gives the digits' value, negated for `-` |
| Strings.ZerosParse | cuckoo/core/log.py:27 | leading zeros do not change what `int()` reads: `int("007") == 7` |
| Strings.PlusParse | cuckoo/core/log.py:27 | an explicit plus sign and leading zeros do not change what `int()` reads: `int("+007") == 7` |
| Strings.MinusParse | cuckoo/core/log.py:27 | a minus sign before leading zeros negates the number: `int("-007") == -7` |
| Strings.SpaceAfterSign | cuckoo/core/log.py:27 | white space between the sign and any run of digits is skipped, and the sign applies to the digits' value: `int("- 7") == -7`, `int("+ 7") == 7` |
| Values.IntOf | cuckoo/core/log.py:27 | `int(task_id)` returns an int unchanged and a bool as 0/1; None raises TypeError; a string converts exactly when it spells an integer, and then to the integer it spells; nothing else is raised |
| Values.IntOfDecimal | cuckoo/core/log.py:27 | a task id written as a string converts back to the same number |
| Records.Get | cuckoo/core/log.py:64-67 | `record.__dict__.get(key)` is Python None for a missing key and the stored value otherwise |
| Handlers.ConsoleCopy | cuckoo/core/log.py:45-58 | the copy differs from the record only in `msg`: yellow for WARNING, red for ERROR or CRITICAL; at DEBUG and INFO a non-string message raises TypeError, and a string is cyan exactly when it contains "analysis procedure completed", otherwise unchanged |
| Handlers.JsonFilter | cuckoo/core/log.py:78-81 | a record passes exactly when `action` and `status` are both present and truthy |
| Handlers.JsonTaskId | cuckoo/core/log.py:66-68 | the JSON `task_id` is the thread's registry entry if it has one, else the record's attribute, else None |
| Handlers.JsonFormat | cuckoo/core/log.py:63-76 | `action` and `status` are copied as read from the record; the message is the bare rendering of the record; `level` is the level name in lower case |
| Handlers.JsonLevelNames | cuckoo/core/log.py:75 | the JSON `level` field is "debug", "info", "warning", "error" or "critical" |
| Handlers.DatabaseEmit | cuckoo/core/log.py:24-27 | no `task_id` attribute means nothing is written; otherwise exactly one error row for `int(task_id)` with the bare message, or the exception `int()` raises |
| Handlers.TaskEmit | cuckoo/core/log.py:34-40 | one stamped line goes to that task's log exactly when the thread is bound to a non-zero task; otherwise nothing is written; never raises |
| Handlers.Emit | cuckoo/core/log.py:24-58 | each class's `emit` writes only its own kind of output, from the record it was given; the file and JSON handlers always write; only the console and database can raise, the console exactly for a non-string message at DEBUG or INFO |
| Handlers.Handle | cuckoo/core/log.py:24-81 | each handler writes only its own kind of output, rendered from the record it was given. The main log always writes its stamped line; the console writes its coloured copy or raises what the copy raises; JSON writes the formatted doc exactly when the filter passes; database and per-task do what their `emit` does; only console and database can raise |
| Handlers.JsonExamples | cuckoo/core/log.py:78-81 | a record missing action or status produces no JSON line; `action="procstart", status="success"` produces one line carrying both |
| Handlers.TaskIdAgreement | cuckoo/core/log.py:35-68 | for a bound thread, the JSON line and the per-task log name the same task, whatever `task_id` the record carries |
| Loggers.KindFor | cuckoo/core/log.py:96-121 | exactly the five names "cuckoo.log", "cuckoo.json", "console", "database" and "task" are recognised |
| Loggers.LevelFor | cuckoo/core/log.py:113-116 | a handler's level lets through every level except for the database handler, which `setLevel(logging.ERROR)` limits to ERROR and CRITICAL |
| Loggers.InitLogger | cuckoo/core/log.py:91-123 | a recognised name appends exactly one handler of its class to root and records that handler under the name, leaving the other names as they were; any other name raises UnboundLocalError; keeps every registered name on an attached handler of its class |
| Loggers.InitAll | cuckoo/core/log.py:91-123 | a series of init_logger calls keeps root's existing handlers in front and appends one handler per name, in call order, each of its name's class. It registers exactly the names passed on top of those registered before, leaves every earlier name not passed again with its handler, and fails exactly when some name is unrecognised |
| Loggers.InitialValid | cuckoo/core/log.py:17 | `_loggers` starts empty with nothing attached, which is a valid state, and so is every state a series of init_logger calls reaches from it |
| Loggers.Logger | cuckoo/core/log.py:125-132 | raises KeyError exactly when the name is unregistered; otherwise the named handler handles an INFO record whose message, args and attributes are the call's, and only that handler's kind of output is written |
| Loggers.LoggerRecord | cuckoo/core/log.py:127-131 | the record `logger` builds is at INFO, below ERROR, has no logger name, and carries the call's message, args and keyword attributes |
| Loggers.ConsoleNonStringMessage | cuckoo/core/log.py:53 | `logger("console", m)` with a message that is not a string raises TypeError from the marker test |
| Loggers.LoggerSkipsLevel | cuckoo/core/log.py:113-132 | `logger("database", ...)` stores a row for an INFO record with an integer task id, although the database handler's level is ERROR |
| Loggers.RootDispatch | cuckoo/core/log.py:113-116 | through root, nothing raises exactly when no handler whose level the record meets raises, and then the outputs are those handlers' outputs in order; otherwise the walk stops at the first handler that raises, keeping only the earlier handlers' outputs |
| Loggers.QuietBelowError | cuckoo/core/log.py:113-116 | through root, a record below ERROR writes no error row; it raises nothing when its message is a string, and nothing but TypeError otherwise |
| Loggers.HandleAtError | cuckoo/core/log.py:24-27 | for an ERROR-or-worse record with an integer task id, no handler raises, and only a database handler writes an error row for it |
| Loggers.ErrorsReachStore | cuckoo/core/log.py:24-116 | through root, an ERROR-or-worse record with an integer task id writes exactly one error row per attached database handler and raises nothing |
| Loggers.InitThenLog | cuckoo/core/log.py:123-132 | after init_logger, `logger` under that name reaches the handler just attached |

## Left out

- Writes to files, stderr (where the console handler writes) and the database are left out. They are I/O, so each one is an abstract `Output` value.
- WatchedFileHandler's reopen-after-rotation is left out. It is I/O behaviour of the standard library.
- TaskHandler opens the per-task file in append mode, and that open can fail and raise out of `handle`. Both are left out as I/O.
- `Database()` and `add_error`, and the exceptions they can raise out of `emit`, are not part of this model. The call is modelled as an `ErrorRow` value.
- The `time` field of a JSON line is left out. It is the wall clock.
- `json.dumps` serialisation is left out. It is library code, so the JSON line is the `JsonDoc` value.
- Formatting errors are left out. `self.format(record)` in the database and per-task handlers runs outside any `try`, so a `%` mismatch between message and args raises out of `handle`; the model treats rendering as total.
- Formatter rendering is left out. Both `%(message)s` and the stamped format are library string formatting, kept symbolic as `Rendered`.
- `red`, `yellow`, `cyan` and `cwd` are left out. They are helpers from other modules, so the model keeps their applications as terms: `Painted`, `TaskLog`.
- Real threads and `thread.get_ident()` are left out. The thread id is a parameter, and each registry call is one atomic step.
- The root logger's own level, its filters and its propagation to parent loggers are left out. They are library internals. `RootDispatch` covers only the per-handler level check and the `handle` calls.
- Keyword arguments other than `action`, `status` and `task_id` are left out. `logger` can pass them, and they could overwrite other fields of the record.
- LogRecord's special case for a single mapping argument is left out, along with `getMessage`'s `%` formatting.
- Messages are modelled as None, bool, int or string. Other objects, such as lists or exceptions, are left out, and so is how `in` treats them.
- The keyword attributes `action`, `status` and `task_id` are modelled as None, bool, int or string too. Other values are left out: `int()` truncates a float task id, `action and status` judges lists, floats and other objects by their own truth rules, and a value `json.dumps` cannot serialise makes the JSON handler write nothing, because `StreamHandler.emit` catches the error.
- Custom levels are left out. Only the five standard levels are modelled.
- Values.IntOf: models only the string forms with surrounding ASCII white space, an optional sign (white space may follow it) and ASCII decimal digits. Python 2's `int()` also takes other forms, such as non-ASCII digits.
- Strings.ParseInt: models the same forms as `Values.IntOf`. Strings with non-ASCII digits or other forms Python 2 also accepts are read as errors.
- Strings.Lower: models C-locale ASCII lower-casing. That is all the level names need.
