# mysqlerl port driver, modelled in Dafny

`mysqlerl` is a port program. An Erlang node starts it, sends it SQL commands over its standard input and reads the replies on its standard output. Messages travel in both directions as frames: a 4-byte big-endian length followed by that many bytes of an encoded Erlang term. This project models the driver's core in `src/mysqlerl.c` and proves properties of it:

- **Transport.** The loops `restartable_read` and `restartable_write` retry after `EAGAIN` and `EINTR`. The framing functions `read_msg` and `write_cmd` are built on them.
- **Dispatch.** `dispatch_db_cmd` routes a command by its tag atom.
- **Responses.** `handle_sql_query`, `handle_sql_commit` and `handle_sql_rollback` each build one reply term and write it as one frame.

Modules, one per file:

- `posix.dfy` (`Posix`): the operating system side of the two pipes.
  - A stream is an object holding the bytes it carries and a script of how the next `read(2)` or `write(2)` calls behave.
  - A call may move fewer bytes than it is asked for, or fail with `EAGAIN`, `EINTR` or another `errno`.
  - `read` returns 0 at end of stream.
- `transport.dfy` (`Transport`):
  - The two loops, as methods over arrays, each proved against a recursive function (`ReadLoop`, `WriteLoop`) of the stream's script.
  - The framing methods `ReadMsg` and `WriteCmd`, with the frame round trip.
- `terms.dfy` (`Terms`): Erlang terms as an abstract datatype. It also models the `erl_interface` calls the driver makes on terms: `erl_element`, reading a C string, and `erl_iolist_to_string`.
- `dispatch.dfy` (`Dispatch`): the `strncmp` tag match of `dispatch_db_cmd`, proved to be a prefix match tried in source order.
- `response.dfy` (`Response`):
  - The database outcome of a query, as a value.
  - The reply term chosen for it.
  - The column and row loops of `handle_sql_query`, as methods over arrays.
  - How the Erlang side reads a reply back.
  - The two defects listed under Findings.
- `driver.dfy` (`Driver`):
  - The three handlers and `dispatch_db_cmd`, as methods writing to the output stream.
  - One pass of the main loop.
  - The pure decision `Decide` that all of them are proved against.

The term codec (`erl_decode`, `erl_encode`, `erl_term_len`) is a pair of function parameters. So is the MySQL client, which is a function from query text to `QueryOutcome`.

The model follows the C code as written, with two exceptions listed under Findings: row tuples put cell `j` in slot `j`, and `{num_rows, N}` carries the full count. For each of the two, the code as written is modelled beside it, with the input that shows the defect. Behaviours of the code worth knowing:

- **Tag match.** Tags are matched by prefix, not exactly. `sql_query_x` runs a query.
- **No result set.** A query without a result set answers `{num_rows, N}` only when `mysql_field_count` is 0. Otherwise it answers with the error term.
- **Undecodable frame.** A frame that does not decode is not a clean fatal exit: the code goes on with a NULL term.
- **Failed reply write.** A reply that cannot be written is ignored, and the loop goes on.
- **End of input.** End of input inside or before a frame exits with status 2, never 0: `read_msg` never returns NULL.
- **Count as `int`.** The restartable loops return their byte count converted to `int`. A whole transfer of 2^32 - 1 bytes therefore returns -1, which the callers take for failure (see Findings).
- **Query text.** `erl_iolist_to_string` refuses an I/O list holding the byte 0, so such a query leaves the handler with a NULL query.

## Model

| member | source | states |
|---|---|---|
| Posix.InStream.Read | src/mysqlerl.c:71 | one `read(2)`: the next stream bytes land at `buf + off`, at most `count` and at most what is pending; nothing else in the buffer changes; -1 leaves stream and buffer as they were |
| Posix.OutStream.Write | src/mysqlerl.c:97 | one `write(2)`: a prefix of `buf[off..off+count)` is appended to the output; a pipe takes at least one byte of a non-empty write |
| Posix.ReadCall | src/mysqlerl.c:71-81 | one read fails only as the script says, moves no more than asked or pending, and returns 0 only at end of stream or for a zero count |
| Posix.WriteCall | src/mysqlerl.c:97-103 | one write fails only as the script says and moves no more than offered, and at least one byte of a non-empty write |
| Posix.ToInt | src/mysqlerl.c:86 | the `int` a count becomes is in the 32-bit range and congruent to the count modulo 2^32 |
| Posix.ToIntMinusOne | src/mysqlerl.c:108 | of the counts below 2^32, exactly 2^32 - 1 becomes -1, and those below 2^31 stay unchanged |
| Transport.ReadLoopBounds | src/mysqlerl.c:63-87 | the read loop never moves more than asked for or than the stream holds, and succeeds exactly when it moved all `buflen` bytes |
| Transport.WriteLoopBounds | src/mysqlerl.c:89-109 | the write loop never moves more than `buflen` bytes and succeeds exactly when it moved all of them |
| Transport.RestartableRead | src/mysqlerl.c:63-87 | returns `buflen` converted to `int` when the loop specification succeeds, -1 otherwise; `buf[0..moved)` holds the first `moved` stream bytes in stream order; those and no others are consumed; `buf` from `moved` on is untouched, on failure as on success |
| Transport.ReadAdvance | src/mysqlerl.c:70-84 | one pass of the read loop: `EAGAIN`/`EINTR` resumes the same remaining read at offset `rc`; EOF or another error ends the loop with -1 after `rc` bytes; `readb` bytes advance `rc` by `readb` |
| Transport.RestartableWrite | src/mysqlerl.c:89-109 | returns `buflen` converted to `int` when the loop specification succeeds, -1 otherwise; the output gains exactly `buf[0..moved)`, in order |
| Transport.WriteAdvance | src/mysqlerl.c:96-106 | one pass of the write loop: a retryable error resumes at `rc`, another error ends with -1, `wroteb` bytes advance `rc` by `wroteb` |
| Transport.ReadIgnoresRetries | src/mysqlerl.c:72-74 | removing every `EAGAIN`/`EINTR` from the stream's behaviour changes neither the outcome nor the bytes read: no byte is lost or read twice by a retry |
| Transport.WriteIgnoresRetries | src/mysqlerl.c:98-100 | the same for writes: retries neither lose nor repeat output bytes |
| Transport.ReadCompletes | src/mysqlerl.c:63-87 | with enough bytes pending and no hard error, the read loop always delivers all `buflen` bytes, however the reads are split or interrupted |
| Transport.WriteCompletes | src/mysqlerl.c:89-109 | with no hard error, the write loop always writes all `buflen` bytes |
| Transport.ReadLoopKeepsNoHardErrors | src/mysqlerl.c:63-87 | a read loop over a stream that never breaks leaves a stream that never breaks |
| Transport.WriteLoopKeepsNoHardErrors | src/mysqlerl.c:89-109 | the same for the write loop |
| Transport.NtohlHtonl | src/mysqlerl.c:134 | `ntohl(htonl(n)) == n` for every 32-bit length |
| Transport.HtonlNtohl | src/mysqlerl.c:164 | `htonl(ntohl(b)) == b` for every 4-byte prefix |
| Transport.Frame | src/mysqlerl.c:164-168 | a frame is 4 + len bytes: the payload after a prefix whose big-endian value is the length |
| Transport.WriteCmdRun | src/mysqlerl.c:159-171 | `write_cmd` moves at most 4 + len bytes and succeeds exactly when it moved all of them |
| Transport.ReadMsgRun | src/mysqlerl.c:111-155 | `read_msg` succeeds only after a whole prefix and exactly the body length it announces, and reads no more than the stream holds |
| Transport.WriteCmd | src/mysqlerl.c:159-171 | returns `WriteCmdResult`; the output gains a prefix of `BE32(len)` followed by `cmd[0..len)`, the whole frame when both loops succeed |
| Transport.WriteCmdResult | src/mysqlerl.c:159-171 | `write_cmd` returns 0 exactly when both writes completed and `len` is not 2^32 - 1, and -1 otherwise |
| Transport.FrameHead | src/mysqlerl.c:164-166 | the bytes of the length prefix are the first bytes of the frame |
| Transport.FrameBody | src/mysqlerl.c:166-168 | the prefix followed by the first bytes of the payload is the start of the frame |
| Transport.ReadMsg | src/mysqlerl.c:111-155 | reads one frame, consuming exactly what the read loops consumed, and hands back `ReadMsgOutcome`: the body, or exit 2 |
| Transport.ReadMsgOutcome | src/mysqlerl.c:111-155 | `read_msg` hands back the announced body exactly when a whole prefix and the whole body arrived and the length is not 2^32 - 1; otherwise the process exits with status 2 |
| Transport.ReadMsgOfFrame | src/mysqlerl.c:125-152 | a stream starting with the frame of a payload is read to exactly the next frame, whatever the interrupts; `read_msg` yields the payload, or exits with status 2 when its length is 2^32 - 1 |
| Transport.TruncatedFrameFails | src/mysqlerl.c:125-152 | a stream that ends inside a frame's prefix or body makes `read_msg` exit with status 2 |
| Transport.WriteCmdCompletes | src/mysqlerl.c:159-171 | with no hard error, `write_cmd` always emits the whole frame |
| Transport.FrameRoundTrip | src/mysqlerl.c:111-171 | a frame written by `write_cmd` and read back by `read_msg` over interrupting pipes returns 0 and yields the original payload; for a payload of 2^32 - 1 bytes `write_cmd` returns -1 and `read_msg` exits with status 2 |
| Transport.WrappedFrameRejected | src/mysqlerl.c:86 | a 2^32 - 1-byte payload goes out whole and arrives whole, yet `write_cmd` returns -1 and `read_msg` exits with status 2 |
| Terms.CString | src/mysqlerl.c:181-185 | a string read as a C string is its longest NUL-free prefix, ending at the first NUL |
| Terms.CStringOfCStr | src/mysqlerl.c:181-185 | a string without NUL reads back whole |
| Terms.IoListOfBytes | src/mysqlerl.c:181 | a list of non-zero byte integers is an I/O list spelling those bytes in order |
| Terms.IoListPair | src/mysqlerl.c:181 | a list of two I/O lists spells the first, then the second |
| Terms.IoListRefusesNul | src/mysqlerl.c:181 | a list of byte integers holding the byte 0 is refused by `erl_iolist_to_string` |
| Dispatch.StrncmpFromPrefix | src/mysqlerl.c:297-305 | from position `i` on, `strncmp` limited to the name's length finds no difference exactly when the tag goes on with the rest of the name |
| Dispatch.StrncmpPrefix | src/mysqlerl.c:297-305 | `strncmp(tag, name, strlen(name)) == 0` holds exactly when the tag starts with the name |
| Dispatch.NamesExclusive | src/mysqlerl.c:22-24 | no tag starts with two of `sql_query`, `sql_commit` and `sql_rollback` |
| Dispatch.RouteByPrefix | src/mysqlerl.c:291-313 | each handler is picked exactly when the tag starts with its name; exit 3 exactly when it starts with none |
| Dispatch.BadTagIff | src/mysqlerl.c:296-297 | an undefined tag read happens exactly for a command with no first element or a non-atom first element |
| Dispatch.RouteOfAtom | src/mysqlerl.c:296-297 | the tag text of an atom without NUL is the atom's name |
| Dispatch.LongerTagMatches | src/mysqlerl.c:297-305 | only `strlen(name)` characters are compared: a command name followed by anything routes to that command |
| Response.NumRowsTerm | src/mysqlerl.c:242-243 | `{num_rows, N}` is read by the peer as the full affected-row count (corrected; see Findings) |
| Response.QueryTextOfString | src/mysqlerl.c:180-181 | a query sent as a string without the byte 0 reaches the database unchanged |
| Response.QueryTextOfBytes | src/mysqlerl.c:180-181 | a query sent as a list of non-zero byte integers reaches the database as those bytes, in order |
| Response.QueryTextRefused | src/mysqlerl.c:180-181 | a query string holding the byte 0, or a command without element 2, yields no query text |
| Response.Strings | src/mysqlerl.c:200-204 | reading a list of string terms gives one string per term, in order |
| Response.Rows | src/mysqlerl.c:208-227 | reading a list of row tuples gives one row per tuple |
| Response.StringsOf | src/mysqlerl.c:200-204 | reading back a list of string terms yields the original strings |
| Response.RowsOf | src/mysqlerl.c:208-227 | reading back the row list yields every row, each cut to `num_fields` cells, in fetch order |
| Response.ReplyOfQuery | src/mysqlerl.c:185-247 | the query reply tells the peer exactly the outcome: error code and message, affected rows, or every column name in field order and every row cell by cell in fetch order (corrected; see Findings) |
| Response.ReplyOfTransaction | src/mysqlerl.c:258-289 | commit and rollback reply `{ok, commit}` and `{ok, rollback}` |
| Response.ResponseSelection | src/mysqlerl.c:185-247 | `selected` exactly for a stored result, `num_rows` exactly for no result with field count 0, the error term for a failed query and for no result with fields |
| Response.BuildColumns | src/mysqlerl.c:199-204 | the column loop builds the list of field names, one per field, in field order |
| Response.BuildRows | src/mysqlerl.c:206-227 | the row loops build one tuple per fetched row in fetch order, holding that row's `num_fields` cells in column order (corrected; see Findings) |
| Response.BuildQueryResponse | src/mysqlerl.c:185-247 | builds the reply `QueryResponse` chooses for the outcome |
| Response.RowSlotsShape | src/mysqlerl.c:214-217 | as written, only slot `i` is ever set, to the latest cell; the others stay unset; row numbers from `num_fields` on store out of bounds |
| Response.RowTupleAsWrittenIff | src/mysqlerl.c:214-219 | as written, a row tuple is right exactly for zero columns, or for one column in the first row |
| Response.RowTupleAsWrittenWitness | src/mysqlerl.c:214-219 | as written, the first row of a two-column result has its second cell in slot 0 and slot 1 unset |
| Response.NumRowsAsWrittenIff | src/mysqlerl.c:243 | as written, the reported count is right exactly below 2^31 affected rows |
| Response.NumRowsAsWrittenWitness | src/mysqlerl.c:243 | as written, 2^32 affected rows are reported as 0, and 2^31 as -2^31 |
| Driver.SendResponse | src/mysqlerl.c:250-255 | encodes the reply and emits one `write_cmd` of it, its result ignored; requires only that this encoding fit an `int` |
| Driver.HandleSqlQuery | src/mysqlerl.c:173-256 | with query text, emits one frame of the encoded reply to that query's outcome; without it, goes no further and writes nothing; requires only that that reply's encoding fit an `int` (corrected; see Findings) |
| Driver.HandleSqlCommit | src/mysqlerl.c:258-273 | emits one frame of the encoded `{ok, commit}` |
| Driver.HandleSqlRollback | src/mysqlerl.c:275-289 | emits one frame of the encoded `{ok, rollback}` |
| Driver.DispatchDbCmd | src/mysqlerl.c:291-313 | carries out `Decide`: one reply frame for a routed command, exit 3 with nothing written for an unknown tag; requires only that the reply chosen, if any, fit an `int` once encoded |
| Driver.ServeOne | src/mysqlerl.c:351-357 | one pass of the main loop: exit 2 with nothing written when `read_msg` exits, otherwise dispatch of the decoded command |
| Driver.SentWhole | src/mysqlerl.c:159-171 | over a pipe that never breaks, a reply goes out as one whole frame |
| Driver.DecideCases | src/mysqlerl.c:291-313 | exit 3 exactly for an unknown tag; `{ok, commit}` and `{ok, rollback}` exactly for their routes; the undefined path exactly for a non-atom tag or a query without text |
| Driver.TransactionsIgnoreDatabase | src/mysqlerl.c:258-289 | commit and rollback replies do not depend on the database |
| Driver.ReplyMeaning | src/mysqlerl.c:173-289 | what the peer reads from the reply to each routed command |
| Driver.ServeFrame | src/mysqlerl.c:111-171 | a command arriving as one frame, over pipes that interrupt but never break, gets its reply as exactly one whole frame, or stops with nothing written; a 2^32 - 1-byte frame exits with status 2 |

## Left out

- **Term codec.** The external term format is not modelled. `erl_decode`, `erl_encode`, `erl_term_len` and `erl_format` are function parameters or constructors of the abstract `Term` datatype.
- **MySQL client library.** It is a function from query text to `QueryOutcome`:
  - `mysql_query`, `mysql_store_result`, `mysql_fetch_row`, `mysql_field_count`, `mysql_affected_rows`, `mysql_errno` and `mysql_error`;
  - `mysql_num_rows`, which the code stores in an `unsigned int`; result sets are assumed smaller than 2^32 rows;
  - connecting and closing in `main`.
- **SQL NULL.** A NULL cell, which `row[j]` can be, is not modelled: every cell is a string.
- **Memory.** `malloc` failures are not modelled, including the `exit(2)` paths of `read_msg` for them. Neither are freeing and the double `erl_free_term(rowtup[i])` at line 223.
- **Sizes of `read_msg`'s buffer.** The model does not represent `malloc(0)` for an empty body, or bodies too large to allocate.
- **Logging.** `openlog`, `logmsg` and `closelog` write to a file or stderr, which is not modelled.
- **Startup and the loop itself.** `usage`, argument handling and the process lifecycle of `main` are not modelled beyond one pass of the loop (`Driver.ServeOne`). Since `read_msg` never returns NULL, the loop only ends through an exit.
- **Undefined behaviour.** After a decode failure, a non-atom tag, or a query without text, the C code reads through a NULL or foreign pointer. The model stops there (`Undefined`) instead of guessing what happens.
- Driver.SendResponse: a reply whose encoding is 2^31 bytes or longer is excluded. `erl_term_len` returns an `int`, and what it returns for such a term belongs to `erl_interface`, which is not part of this model.
- Driver.HandleSqlQuery, Driver.HandleSqlCommit, Driver.HandleSqlRollback: the same 2^31 bound, on the one reply each handler sends.
- Driver.DispatchDbCmd, Driver.ServeOne: the same 2^31 bound, on the reply `Decide` chooses for the command, if it chooses one.
- Transport.RestartableRead: `size_t` and `ssize_t` are unbounded integers in the model, which is exact for every length below 2^32 that reaches the loops. The `int` result is modelled by `Posix.ToInt`.
- **Finite scripts.** A stream's script is finite, so an endless run of `EAGAIN` or `EINTR` cannot be expressed. On one, the C loops would retry forever. `Transport.ReadCompletes` and `Transport.WriteCompletes` rely on this finiteness.
- Terms.IoListChars: the refusal of the byte 0 follows the `erl_interface` documentation of `erl_iolist_to_string`; the library's code is not part of this model.
- Terms.Element: `erl_element` belongs to `erl_interface`; the model states only its documented result, used by the lemmas about `QueryText` and `SelectRoute`.
- Posix.OutStream.Write: a `write(2)` that returns 0 for a non-empty buffer is not modelled. The C loop would spin on it forever.
- Posix.InStream.Read: on -1 the buffer is left as it was; POSIX leaves its contents unspecified.

## Findings

For the row on line 86, the transport keeps the code as written (`ReadMsgOutcome`, `WriteCmdResult`); the intended behaviour, success exactly when the whole frame moved, is `ReadMsgRun`, proved for every length by `ReadMsgOfFrame`.

| source | as written | input that shows it | evidently intended | confidence | as-written member | corrected member |
|---|---|---|---|---|---|---|
| src/mysqlerl.c:217 | `rowtup[i] = erl_format("~s", row[j])` stores every cell of row `i` into slot `i` | a result with 2 columns: row 0 gets its second cell in slot 0 and slot 1 is never set; from row 2 on the store is out of bounds | `rowtup[j]`: cell `j` in slot `j`, one cell per column in column order | high; not executed | Response.RowTupleAsWrittenIff | Response.BuildRows |
| src/mysqlerl.c:86 | `return rc` converts the count to `int`, so a whole transfer of 2^32 - 1 bytes returns -1, which `read_msg` (line 145) and `write_cmd` (line 167) take for failure | a frame announcing 0xFFFFFFFF body bytes, all delivered: `read_msg` exits with status 2; `write_cmd` of such a payload returns -1 after emitting the whole frame | a whole transfer succeeds | high (two's-complement conversion; needs a 4 GiB buffer); not executed | Transport.WrappedFrameRejected | Transport.ReadMsgRun |
| src/mysqlerl.c:243 | `erl_format("{num_rows, ~i}", mysql_affected_rows(dbh))` passes a 64-bit `my_ulonglong` where `~i` reads an `int` | 2^32 affected rows are reported as `{num_rows, 0}`; 2^31 as a negative count | the full affected-row count | medium (depends on how the ABI passes the variadic argument); not executed | Response.NumRowsAsWrittenWitness | Response.NumRowsTerm |
