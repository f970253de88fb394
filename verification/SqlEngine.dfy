/** The SQL engine behind the loop. Everything upstream of the loop (parser, planner,
    executor, transactions) is one function from a database state and a message to a new
    state, the reply messages, and whether it ended by raising an error. */
module SqlEngine {
  import opened Messages

  /** The database state, as an uninterpreted memory image. */
  type Db = seq<byte>

  /** A raised error has already gone through the transaction abort of clear_error, and
      its replies end with the ErrorResponse of EmitErrorReport. */
  datatype Outcome = Done(db: Db, out: seq<Msg>) | Failed(db: Db, out: seq<Msg>)

  type Word = n: nat | n <= 0xffff_ffff

  /** run answers messages; abort and complaint are AbortCurrentTransaction and the text of
      the error for a message rejected before it reaches a handler; greeting is what
      BeginReportingGUCOptions sends, pid and key are the cancel key of the session. */
  datatype Engine = Engine(run: (Db, Msg) -> Outcome, status: Db -> byte, abort: Db -> Db,
                           complaint: (Db, Msg) -> Body, greeting: Db -> seq<Msg>, pid: Word, key: Word)

  /** The error for a malformed message: one ErrorResponse and the transaction abort. */
  function Rejected(e: Engine, db: Db, m: Msg): (o: Outcome)
    ensures o.Failed? && |o.out| == 1 && o.out[0].kind == ERROR_RESPONSE
  {
    Failed(e.abort(db), [Msg(ERROR_RESPONSE, e.complaint(db, m))])
  }

  predicate ExtendedKind(kind: byte) {
    kind in {PARSE, BIND, EXECUTE, CLOSE, DESCRIBE, FLUSH}
  }

  predicate CopyKind(kind: byte) {
    kind in {COPY_DATA, COPY_DONE, COPY_FAIL}
  }

  /** Query, FunctionCall and Sync: the messages that end with a ReadyForQuery. */
  predicate CycleKind(kind: byte) {
    kind in {QUERY, FUNCTION_CALL, SYNC}
  }

  predicate RegularKind(kind: byte) {
    ExtendedKind(kind) || CopyKind(kind) || CycleKind(kind)
  }

  predicate Regular(ms: seq<Msg>) {
    forall m :: m in ms ==> RegularKind(m.kind)
  }

  /** One arm of the message switch. Flush only checks that nothing follows the header and
      late COPY messages are accepted and ignored; every other arm is the engine's. */
  function Handle(e: Engine, db: Db, m: Msg): Outcome {
    if CopyKind(m.kind) || (m.kind == FLUSH && m.body == []) then Done(db, [])
    else if m.kind in {FLUSH, SYNC} && m.body != [] then Rejected(e, db, m)
    else e.run(db, m)
  }

  function ReadyForQuery(e: Engine, db: Db): Msg {
    Msg(READY_FOR_QUERY, [e.status(db)])
  }

  predicate Silent(out: seq<Msg>) {
    forall r :: r in out ==> r.kind != READY_FOR_QUERY
  }

  /** What the protocol promises of one outcome: ReadyForQuery never comes from a handler,
      an error is always reported, and Parse, Bind, Execute, Close and Describe always
      answer with something. */
  predicate ConformingOutcome(m: Msg, o: Outcome) {
    && Silent(o.out)
    && (o.Failed? || m.kind in {PARSE, BIND, EXECUTE, CLOSE, DESCRIBE} ==> o.out != [])
  }

  ghost predicate Conforms(e: Engine) {
    forall db: Db, m: Msg :: ConformingOutcome(m, Handle(e, db, m))
  }
}
