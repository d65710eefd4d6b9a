/** `SessionLog` (Logging.py): a run's messages grouped by the function that
    logged them, and an error flag that is 0 or 1. Printing is not
    modelled. */
module SessionLogs {

  datatype SessionLog = SessionLog(errorFlag: int, logs: map<string, seq<string>>)

  /** A fresh session log: no error, no messages. */
  function NewSessionLog(): (l: SessionLog)
    ensures l.errorFlag == 0 && l.logs == map[]
    ensures ValidFlag(l)
  {
    SessionLog(0, map[])
  }

  /** The flag only ever holds 0 or 1. */
  predicate ValidFlag(l: SessionLog) {
    l.errorFlag == 0 || l.errorFlag == 1
  }

  /** The messages logged under `funcName` so far (none when it never
      logged). */
  function Entries(l: SessionLog, funcName: string): seq<string> {
    if funcName in l.logs then l.logs[funcName] else []
  }

  /** `log`: appends the message to the function's list, creating the list
      the first time; an error sets the flag, a plain message leaves it. */
  function Log(l: SessionLog, funcName: string, message: string, isError: bool): (r: SessionLog)
    ensures r.logs.Keys == l.logs.Keys + {funcName}
    ensures Entries(r, funcName) == Entries(l, funcName) + [message]
    ensures forall f :: f != funcName ==> Entries(r, f) == Entries(l, f)
    ensures r.errorFlag == if isError then 1 else l.errorFlag
    ensures ValidFlag(l) ==> ValidFlag(r)
  {
    SessionLog(if isError then 1 else l.errorFlag, l.logs[funcName := Entries(l, funcName) + [message]])
  }

  /** `set_error_flag`: the flag becomes 1, the messages stay. */
  function SetErrorFlag(l: SessionLog): (r: SessionLog)
    ensures r.errorFlag == 1 && r.logs == l.logs && ValidFlag(r)
  {
    l.(errorFlag := 1)
  }

  /** `remove_error_flag`: the flag becomes 0, the messages stay. */
  function RemoveErrorFlag(l: SessionLog): (r: SessionLog)
    ensures r.errorFlag == 0 && r.logs == l.logs && ValidFlag(r)
  {
    l.(errorFlag := 0)
  }

  /** One call on a session log. */
  datatype Op = LogOp(funcName: string, message: string, isError: bool) | SetFlag | RemoveFlag

  function Apply(l: SessionLog, op: Op): SessionLog {
    match op
    case LogOp(f, m, e) => Log(l, f, m, e)
    case SetFlag => SetErrorFlag(l)
    case RemoveFlag => RemoveErrorFlag(l)
  }

  /** The log after the calls in `ops`, in order. */
  function Run(l: SessionLog, ops: seq<Op>): SessionLog
    decreases |ops|
  {
    if ops == [] then l else Apply(Run(l, ops[..|ops| - 1]), ops[|ops| - 1])
  }

  /** Whether a call sequence wrote the flag, and the last value it wrote. */
  datatype FlagWrite = NoWrite | Wrote(value: int)

  /** The value the last flag-changing call wrote: an error message or
      `set_error_flag` writes 1, `remove_error_flag` writes 0, plain
      messages write nothing. */
  function LastFlagWrite(ops: seq<Op>): (v: FlagWrite)
    decreases |ops|
  {
    if ops == [] then NoWrite
    else match ops[|ops| - 1]
      case LogOp(_, _, e) => if e then Wrote(1) else LastFlagWrite(ops[..|ops| - 1])
      case SetFlag => Wrote(1)
      case RemoveFlag => Wrote(0)
  }

  /** After any calls, the flag is what the last flag-changing call wrote,
      or the starting flag when none did; so it stays 0 or 1. */
  lemma {:induction false} RunFlag(l: SessionLog, ops: seq<Op>)
    ensures Run(l, ops).errorFlag == match LastFlagWrite(ops) case NoWrite => l.errorFlag case Wrote(v) => v
    ensures ValidFlag(l) ==> ValidFlag(Run(l, ops))
    decreases |ops|
  {
    if ops != [] {
      RunFlag(l, ops[..|ops| - 1]);
    }
  }

  /** The messages the calls in `ops` log under `funcName`, in order. */
  function MessagesFor(ops: seq<Op>, funcName: string): seq<string>
    decreases |ops|
  {
    if ops == [] then []
    else
      var last := ops[|ops| - 1];
      MessagesFor(ops[..|ops| - 1], funcName)
        + (if last.LogOp? && last.funcName == funcName then [last.message] else [])
  }

  /** Messages are only ever appended: after any calls, a function's list
      is its earlier list followed by exactly the messages logged under it,
      in call order, and no other function's list is touched. */
  lemma {:induction false} RunEntries(l: SessionLog, ops: seq<Op>, funcName: string)
    ensures Entries(Run(l, ops), funcName) == Entries(l, funcName) + MessagesFor(ops, funcName)
    decreases |ops|
  {
    if ops != [] {
      var init := ops[..|ops| - 1];
      RunEntries(l, init, funcName);
      var before := Run(l, init);
      match ops[|ops| - 1]
      case LogOp(f, m, e) =>
        if f == funcName {
          assert Entries(Log(before, f, m, e), funcName) == Entries(before, funcName) + [m];
        } else {
          assert Entries(Log(before, f, m, e), funcName) == Entries(before, funcName);
        }
      case SetFlag =>
      case RemoveFlag =>
    }
  }
}
