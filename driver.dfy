/** One pass of the driver's main loop: `read_msg`, then `dispatch_db_cmd` and the handler it
    picks, which writes exactly one reply frame.

    The term codec is a pair of parameters: `decode` stands for `erl_decode` (`None` where it
    returns NULL) and `encode` for `erl_encode`, whose length `erl_term_len` reports. The
    database is the parameter `gateway`, the outcome the client library reports for a query. */
module Driver {
  import opened Posix
  import opened Terms
  import opened Transport
  import opened Dispatch
  import opened Response

  /** How a pass of the main loop ends. */
  datatype Status =
    /** A reply was sent, whether or not its frame went out whole: back to `read_msg`. */
    | Continue
    /** The process exits with this status. */
    | Exit(code: nat)
    /** The C code goes on with a NULL or non-atom term, which it leaves undefined. */
    | Undefined

  /** What `dispatch_db_cmd` decides to do with a command. */
  datatype Action = Reply(term: Term) | Stop(code: nat) | Crash

  /** The client library reports rows with one cell per field for every query. */
  ghost predicate Sound(gateway: CStr -> QueryOutcome)
  {
    forall q :: WellFormed(gateway(q))
  }

  /** The reply `a` sends, if any, has an encoding whose length fits the `int` that holds
      `erl_term_len`'s result. */
  predicate ReplyFits(a: Action, encode: Term -> seq<Byte>)
  {
    a.Reply? ==> |encode(a.term)| < 0x8000_0000
  }

  /** The decision of `dispatch_db_cmd` and the handlers, on the command alone. */
  function Decide(cmd: Term, gateway: CStr -> QueryOutcome): Action
    requires Sound(gateway)
  {
    match SelectRoute(cmd)
    case QueryRoute =>
      (match QueryText(cmd)
       case None => Crash
       case Some(q) => Reply(QueryResponse(gateway(q))))
    case CommitRoute => Reply(COMMIT_REPLY)
    case RollbackRoute => Reply(ROLLBACK_REPLY)
    case UnknownTag(_) => Stop(EXIT_UNKNOWN_COMMAND)
    case BadTag => Crash
  }

  /** The output went from (`written0`, `script0`) to (`written`, `script`) by one `write_cmd`
      of `bytes`: a prefix of their frame, the whole of it when no write broke. */
  predicate Sent(written0: seq<Byte>, script0: seq<Event>, written: seq<Byte>, script: seq<Event>,
                 bytes: seq<Byte>)
    requires |bytes| < 0x1_0000_0000
  {
    var r := WriteCmdRun(script0, |bytes|);
    script == r.rest && written == written0 + Frame(bytes)[..r.moved]
  }

  /** The output effect and the status that carry out `a`. */
  predicate Performs(a: Action, status: Status, written0: seq<Byte>, script0: seq<Event>,
                     written: seq<Byte>, script: seq<Event>, encode: Term -> seq<Byte>)
    requires ReplyFits(a, encode)
  {
    match a
    case Reply(t) => status == Continue && Sent(written0, script0, written, script, encode(t))
    case Stop(code) => status == Exit(code) && written == written0 && script == script0
    case Crash => status == Undefined && written == written0 && script == script0
  }

  /** Encode `resp` into a fresh buffer and `write_cmd` it; the result of `write_cmd` is
      ignored, as all three handlers do. */
  method SendResponse(output: OutStream, resp: Term, encode: Term -> seq<Byte>)
    requires |encode(resp)| < 0x8000_0000
    modifies output
    ensures Sent(old(output.written), old(output.script), output.written, output.script, encode(resp))
  {
    var bytes := encode(resp);
    var buf := new Byte[|bytes|](i requires 0 <= i < |bytes| => bytes[i]);
    assert buf[..|bytes|] == bytes;
    var _ := WriteCmd(output, buf, |bytes|);
  }

  /** `handle_sql_query`: run the query the command carries and send the reply. `false` when
      the command carries no query text, where the C code passes NULL on. */
  method HandleSqlQuery(output: OutStream, cmd: Term, gateway: CStr -> QueryOutcome,
                        encode: Term -> seq<Byte>) returns (defined: bool)
    requires Sound(gateway)
    requires QueryText(cmd).Some? ==> |encode(QueryResponse(gateway(QueryText(cmd).value)))| < 0x8000_0000
    modifies output
    ensures defined <==> QueryText(cmd).Some?
    ensures defined ==>
              Sent(old(output.written), old(output.script), output.written, output.script,
                   encode(QueryResponse(gateway(QueryText(cmd).value))))
    ensures !defined ==> output.written == old(output.written) && output.script == old(output.script)
  {
    var q := QueryText(cmd);
    if q.None? {
      return false;
    }
    var resp := BuildQueryResponse(gateway(q.value));
    SendResponse(output, resp, encode);
    return true;
  }

  /** `handle_sql_commit`: reply `{ok, commit}` without asking the database. */
  method HandleSqlCommit(output: OutStream, encode: Term -> seq<Byte>)
    requires |encode(COMMIT_REPLY)| < 0x8000_0000
    modifies output
    ensures Sent(old(output.written), old(output.script), output.written, output.script,
                 encode(COMMIT_REPLY))
  {
    SendResponse(output, COMMIT_REPLY, encode);
  }

  /** `handle_sql_rollback`: reply `{ok, rollback}` without asking the database. */
  method HandleSqlRollback(output: OutStream, encode: Term -> seq<Byte>)
    requires |encode(ROLLBACK_REPLY)| < 0x8000_0000
    modifies output
    ensures Sent(old(output.written), old(output.script), output.written, output.script,
                 encode(ROLLBACK_REPLY))
  {
    SendResponse(output, ROLLBACK_REPLY, encode);
  }

  /** `dispatch_db_cmd`: route the command to its handler, or exit with status 3. */
  method DispatchDbCmd(output: OutStream, cmd: Term, gateway: CStr -> QueryOutcome,
                       encode: Term -> seq<Byte>) returns (status: Status)
    requires Sound(gateway) && ReplyFits(Decide(cmd, gateway), encode)
    modifies output
    ensures Performs(Decide(cmd, gateway), status, old(output.written), old(output.script),
                     output.written, output.script, encode)
  {
    match SelectRoute(cmd)
    case QueryRoute =>
      var defined := HandleSqlQuery(output, cmd, gateway, encode);
      status := if defined then Continue else Undefined;
    case CommitRoute =>
      HandleSqlCommit(output, encode);
      status := Continue;
    case RollbackRoute =>
      HandleSqlRollback(output, encode);
      status := Continue;
    case UnknownTag(_) =>
      status := Exit(EXIT_UNKNOWN_COMMAND);
    case BadTag =>
      status := Undefined;
  }

  /** The reply to `payload`, if it decodes and earns one, fits an `int` once encoded. */
  ghost predicate ReplyFitsPayload(payload: seq<Byte>, gateway: CStr -> QueryOutcome,
                                   decode: seq<Byte> -> Option<Term>, encode: Term -> seq<Byte>)
    requires Sound(gateway)
  {
    decode(payload).Some? ==> ReplyFits(Decide(decode(payload).value, gateway), encode)
  }

  /** One pass of the main loop: read a frame, decode it and dispatch it. A broken or cut
      frame, or one announcing 2^32 - 1 body bytes, exits with status 2 before anything is
      written. */
  method ServeOne(input: InStream, output: OutStream, gateway: CStr -> QueryOutcome,
                  decode: seq<Byte> -> Option<Term>, encode: Term -> seq<Byte>)
    returns (status: Status)
    requires Sound(gateway)
    requires var m := ReadMsgOutcome(input.pending, input.script);
             m.Received? ==> ReplyFitsPayload(m.payload, gateway, decode, encode)
    modifies input, output
    ensures var r := ReadMsgRun(old(input.pending), old(input.script));
            && input.pending == old(input.pending)[r.moved..]
            && input.script == r.rest
    ensures var m := ReadMsgOutcome(old(input.pending), old(input.script));
            && (m.Exited? ==> status == Exit(m.code)
                              && output.written == old(output.written) && output.script == old(output.script))
            && (m.Received? ==>
                  var cmd := decode(m.payload);
                  && (cmd.None? ==> status == Undefined
                                    && output.written == old(output.written) && output.script == old(output.script))
                  && (cmd.Some? ==> Performs(Decide(cmd.value, gateway), status, old(output.written),
                                             old(output.script), output.written, output.script, encode)))
  {
    var msg := ReadMsg(input);
    match msg
    case Exited(code) =>
      status := Exit(code);
    case Received(payload) =>
      var cmd := decode(payload);
      if cmd.None? {
        status := Undefined;
      } else {
        status := DispatchDbCmd(output, cmd.value, gateway, encode);
      }
  }

  // ---------------------------------------------------------------------------
  // Properties of a pass

  /** Over a pipe that breaks no write, a reply goes out as one whole frame. */
  lemma SentWhole(written0: seq<Byte>, script0: seq<Event>, written: seq<Byte>, script: seq<Event>,
                  bytes: seq<Byte>)
    requires |bytes| < 0x1_0000_0000 && NoHardErrors(script0)
    requires Sent(written0, script0, written, script, bytes)
    ensures written == written0 + Frame(bytes)
  {
    WriteCmdCompletes(script0, |bytes|);
    assert Frame(bytes)[..4 + |bytes|] == Frame(bytes);
  }

  /** Every command either gets exactly one reply or stops the process: status 3 exactly for
      a tag that names no command, and the undefined path exactly for a tag that is no atom
      or a query without query text. */
  lemma DecideCases(cmd: Term, gateway: CStr -> QueryOutcome)
    requires Sound(gateway)
    ensures Decide(cmd, gateway) == Stop(EXIT_UNKNOWN_COMMAND) <==> SelectRoute(cmd).UnknownTag?
    ensures Decide(cmd, gateway).Crash? <==>
              SelectRoute(cmd) == BadTag || (SelectRoute(cmd) == QueryRoute && QueryText(cmd).None?)
    ensures Decide(cmd, gateway) == Reply(COMMIT_REPLY) <==> SelectRoute(cmd) == CommitRoute
    ensures Decide(cmd, gateway) == Reply(ROLLBACK_REPLY) <==> SelectRoute(cmd) == RollbackRoute
  {
    if SelectRoute(cmd) == QueryRoute && QueryText(cmd).Some? {
      ResponseSelection(gateway(QueryText(cmd).value));
    }
  }

  /** Commit and rollback do not depend on the database: only a query consults it. */
  lemma TransactionsIgnoreDatabase(cmd: Term, g1: CStr -> QueryOutcome, g2: CStr -> QueryOutcome)
    requires Sound(g1) && Sound(g2) && SelectRoute(cmd) != QueryRoute
    ensures Decide(cmd, g1) == Decide(cmd, g2)
  {
  }

  /** What the peer reads from the reply to each command. */
  lemma ReplyMeaning(cmd: Term, gateway: CStr -> QueryOutcome)
    requires Sound(gateway)
    ensures SelectRoute(cmd) == QueryRoute && QueryText(cmd).Some? ==>
              && Decide(cmd, gateway).Reply?
              && ReadReply(Decide(cmd, gateway).term) == Some(Expected(gateway(QueryText(cmd).value)))
    ensures SelectRoute(cmd) == CommitRoute ==>
              Decide(cmd, gateway).Reply? && ReadReply(Decide(cmd, gateway).term) == Some(Done("commit"))
    ensures SelectRoute(cmd) == RollbackRoute ==>
              Decide(cmd, gateway).Reply? && ReadReply(Decide(cmd, gateway).term) == Some(Done("rollback"))
  {
    if SelectRoute(cmd) == QueryRoute && QueryText(cmd).Some? {
      ReplyOfQuery(gateway(QueryText(cmd).value));
    }
    ReplyOfTransaction();
  }

  /** A command arriving as one frame over pipes that interrupt and split transfers at will
      but never break: it gets its reply as one whole frame on a fresh output, or stops the
      process having written nothing. A frame announcing 2^32 - 1 body bytes is the
      exception: `read_msg` takes its whole arrival for a failure and exits with status 2. */
  method ServeFrame(payload: seq<Byte>, cmd: Term, inEvents: seq<Event>, outEvents: seq<Event>,
                    gateway: CStr -> QueryOutcome, decode: seq<Byte> -> Option<Term>,
                    encode: Term -> seq<Byte>)
    returns (status: Status, written: seq<Byte>)
    requires |payload| < 0x1_0000_0000 && decode(payload) == Some(cmd)
    requires NoHardErrors(inEvents) && NoHardErrors(outEvents)
    requires Sound(gateway) && ReplyFits(Decide(cmd, gateway), encode)
    ensures |payload| == WRAPPED_LENGTH ==> status == Exit(EXIT_IO) && written == []
    ensures |payload| != WRAPPED_LENGTH && Decide(cmd, gateway).Reply? ==>
              status == Continue && written == Frame(encode(Decide(cmd, gateway).term))
    ensures |payload| != WRAPPED_LENGTH && Decide(cmd, gateway).Stop? ==>
              status == Exit(Decide(cmd, gateway).code) && written == []
    ensures |payload| != WRAPPED_LENGTH && Decide(cmd, gateway).Crash? ==>
              status == Undefined && written == []
  {
    var input := new InStream(Frame(payload), inEvents);
    var output := new OutStream(outEvents);
    ReadMsgOfFrame(payload, [], inEvents);
    assert Frame(payload) + [] == Frame(payload);
    status := ServeOne(input, output, gateway, decode, encode);
    written := output.written;
    if |payload| != WRAPPED_LENGTH && Decide(cmd, gateway).Reply? {
      SentWhole([], outEvents, written, output.script, encode(Decide(cmd, gateway).term));
    }
  }
}
