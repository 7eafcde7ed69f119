/** Response construction of the port driver: the terms that `handle_sql_query`,
    `handle_sql_commit` and `handle_sql_rollback` in src/mysqlerl.c reply with.

    The MySQL client library is not part of this model. What one query makes it report is the
    value `QueryOutcome`; the driver's choice of reply is the function `QueryResponse` of that
    value, and the loops that gather the column names and the rows are the methods
    `BuildColumns` and `BuildRows`, proved against it. */
module Response {
  import opened Terms
  import opened Posix

  /** An `unsigned int`. */
  type UInt32 = n: nat | n < 0x1_0000_0000

  /** A `my_ulonglong`. */
  type UInt64 = n: nat | n < 0x1_0000_0000_0000_0000

  /** What the client library reports for one query, as far as the driver asks. */
  datatype QueryOutcome =
    /** `mysql_query` returned non-zero; `mysql_errno` and `mysql_error` say why. */
    | QueryFailed(errno: UInt32, error: CStr)
    /** `mysql_store_result` returned a result set: the field names, and the rows in the
        order `mysql_fetch_row` hands them out, each a sequence of cells. */
    | Stored(fields: seq<CStr>, rows: seq<seq<CStr>>)
    /** `mysql_store_result` returned NULL, with what `mysql_field_count`,
        `mysql_affected_rows`, `mysql_errno` and `mysql_error` then report. */
    | NoResultSet(fieldCount: UInt32, affectedRows: UInt64, errno: UInt32, error: CStr)

  /** The client library hands out rows with one cell per field. */
  predicate WellFormed(o: QueryOutcome)
  {
    o.Stored? ==> forall i :: 0 <= i < |o.rows| ==> |o.fields| <= |o.rows[i]|
  }

  // ---------------------------------------------------------------------------
  // The reply terms

  /** `{error, {mysql_error, Code, Msg}}`. */
  function ErrorTerm(errno: UInt32, error: CStr): Term
  {
    Tuple([Atom("error"), Tuple([Atom("mysql_error"), Int(ToInt(errno)), Str(error)])])
  }

  /** `{num_rows, N}`, carrying the whole count of affected rows. */
  function NumRowsTerm(affected: UInt64): (t: Term)
    ensures ReadReply(t) == Some(NumRows(affected))
  {
    Tuple([Atom("num_rows"), Int(affected)])
  }

  /** The list of column names, one string per field, in field order. */
  function ColumnList(fields: seq<CStr>): Term
  {
    List(seq(|fields|, i requires 0 <= i < |fields| => Str(fields[i])))
  }

  /** One row as a tuple of its first `n` cells, in column order. */
  function RowTuple(row: seq<CStr>, n: nat): Term
    requires n <= |row|
  {
    Tuple(seq(n, j requires 0 <= j < n => Str(row[j])))
  }

  /** The list of rows, one tuple of `n` cells per row, in fetch order. */
  function RowList(rows: seq<seq<CStr>>, n: nat): Term
    requires forall i :: 0 <= i < |rows| ==> n <= |rows[i]|
  {
    List(seq(|rows|, i requires 0 <= i < |rows| => RowTuple(rows[i], n)))
  }

  /** The reply of `handle_sql_query` to a query with outcome `o`. */
  function QueryResponse(o: QueryOutcome): Term
    requires WellFormed(o)
  {
    match o
    case QueryFailed(errno, error) => ErrorTerm(errno, error)
    case Stored(fields, rows) =>
      Tuple([Atom("selected"), ColumnList(fields), RowList(rows, |fields|)])
    case NoResultSet(fieldCount, affected, errno, error) =>
      if fieldCount == 0 then NumRowsTerm(affected) else ErrorTerm(errno, error)
  }

  /** The reply of `handle_sql_commit`. */
  const COMMIT_REPLY: Term := Tuple([Atom("ok"), Atom("commit")])

  /** The reply of `handle_sql_rollback`. */
  const ROLLBACK_REPLY: Term := Tuple([Atom("ok"), Atom("rollback")])

  /** The query `handle_sql_query` hands to `mysql_query`: element 2 of the command
      flattened by `erl_iolist_to_string`. `None` when element 2 is missing or is no I/O
      list, where the C code goes on with a NULL pointer. */
  function QueryText(cmd: Term): Option<CStr>
  {
    match Element(2, cmd)
    case None => None
    case Some(query) => IoListChars(query)
  }

  /** A query sent as a string of non-zero bytes reaches the database unchanged. */
  lemma QueryTextOfString(tag: Term, sql: string, rest: seq<Term>)
    requires CBytes(sql)
    ensures QueryText(Tuple([tag, Str(sql)] + rest)) == Some(sql)
  {
    assert Element(2, Tuple([tag, Str(sql)] + rest)) == Some(Str(sql));
  }

  /** A query sent as a list of non-zero byte values reaches the database as those bytes. */
  lemma QueryTextOfBytes(tag: Term, bytes: seq<int>, rest: seq<Term>)
    requires forall i :: 0 <= i < |bytes| ==> 0 < bytes[i] < 256
    ensures var query := List(seq(|bytes|, i requires 0 <= i < |bytes| => Int(bytes[i])));
            QueryText(Tuple([tag, query] + rest))
              == Some(seq(|bytes|, i requires 0 <= i < |bytes| => bytes[i] as char))
  {
    var query := List(seq(|bytes|, i requires 0 <= i < |bytes| => Int(bytes[i])));
    assert Element(2, Tuple([tag, query] + rest)) == Some(query);
    IoListOfBytes(bytes, |bytes|);
  }

  /** A query holding the byte 0, or a command without a second element, gives no query
      text. */
  lemma QueryTextRefused(tag: Term, sql: string, rest: seq<Term>)
    requires '\0' in sql
    ensures QueryText(Tuple([tag, Str(sql)] + rest)).None?
    ensures QueryText(Tuple([tag])).None?
  {
    assert Element(2, Tuple([tag, Str(sql)] + rest)) == Some(Str(sql));
  }

  // ---------------------------------------------------------------------------
  // Reading a reply back, as the Erlang side does

  /** What a reply says. */
  datatype Reply =
    | Selected(columns: seq<string>, rows: seq<seq<string>>)
    | NumRows(count: int)
    | MysqlError(code: int, message: string)
    | Done(what: string)

  /** The strings of a sequence of string terms. */
  function Strings(ts: seq<Term>): (r: Option<seq<string>>)
    ensures r.Some? ==> |r.value| == |ts|
    ensures r.Some? ==> forall i :: 0 <= i < |ts| ==> ts[i] == Str(r.value[i])
  {
    if ts == [] then Some([])
    else if !ts[0].Str? then None
    else
      match Strings(ts[1..])
      case None => None
      case Some(more) => Some([ts[0].chars] + more)
  }

  /** The cells of a sequence of row tuples. */
  function Rows(ts: seq<Term>): (r: Option<seq<seq<string>>>)
    ensures r.Some? ==> |r.value| == |ts|
  {
    if ts == [] then Some([])
    else if !ts[0].Tuple? then None
    else
      match (Strings(ts[0].elems), Rows(ts[1..]))
      case (Some(cells), Some(more)) => Some([cells] + more)
      case _ => None
  }

  /** How the peer reads a reply term; `None` for a term that is no reply. */
  function ReadReply(t: Term): Option<Reply>
  {
    if !t.Tuple? || |t.elems| < 2 || !t.elems[0].Atom? then None
    else
      var tag, e := t.elems[0].name, t.elems;
      if tag == "selected" && |e| == 3 && e[1].List? && e[2].List? then
        match (Strings(e[1].elems), Rows(e[2].elems))
        case (Some(cols), Some(rows)) => Some(Selected(cols, rows))
        case _ => None
      else if tag == "num_rows" && |e| == 2 && e[1].Int? then Some(NumRows(e[1].value))
      else if tag == "error" && |e| == 2 && e[1].Tuple? && |e[1].elems| == 3
              && e[1].elems[0] == Atom("mysql_error") && e[1].elems[1].Int? && e[1].elems[2].Str? then
        Some(MysqlError(e[1].elems[1].value, e[1].elems[2].chars))
      else if tag == "ok" && |e| == 2 && e[1].Atom? then Some(Done(e[1].name))
      else None
  }

  /** What a query with outcome `o` should tell the peer, stated on the outcome alone. */
  function Expected(o: QueryOutcome): Reply
    requires WellFormed(o)
  {
    match o
    case QueryFailed(errno, error) => MysqlError(ToInt(errno), error)
    case Stored(fields, rows) =>
      Selected(fields, seq(|rows|, i requires 0 <= i < |rows| => rows[i][..|fields|]))
    case NoResultSet(fieldCount, affected, errno, error) =>
      if fieldCount == 0 then NumRows(affected) else MysqlError(ToInt(errno), error)
  }

  /** Reading the strings of a list of string terms gives back those strings. */
  lemma {:induction false} StringsOf(ss: seq<string>)
    ensures Strings(seq(|ss|, i requires 0 <= i < |ss| => Str(ss[i]))) == Some(ss)
  {
    var ts := seq(|ss|, i requires 0 <= i < |ss| => Str(ss[i]));
    if ss != [] {
      StringsOf(ss[1..]);
      assert ts[1..] == seq(|ss[1..]|, i requires 0 <= i < |ss[1..]| => Str(ss[1..][i]));
      assert [ss[0]] + ss[1..] == ss;
    }
  }

  /** Reading the rows of a row list gives back the first `n` cells of every row. */
  lemma {:induction false} RowsOf(rows: seq<seq<CStr>>, n: nat)
    requires forall i :: 0 <= i < |rows| ==> n <= |rows[i]|
    ensures Rows(RowList(rows, n).elems)
              == Some(seq(|rows|, i requires 0 <= i < |rows| => rows[i][..n]))
  {
    var ts := RowList(rows, n).elems;
    var want := seq(|rows|, i requires 0 <= i < |rows| => rows[i][..n]);
    if rows != [] {
      RowsOf(rows[1..], n);
      assert ts[1..] == RowList(rows[1..], n).elems;
      var cells := rows[0][..n];
      assert ts[0].elems == seq(|cells|, j requires 0 <= j < |cells| => Str(cells[j]));
      StringsOf(cells);
      assert want == [cells] + seq(|rows[1..]|, i requires 0 <= i < |rows[1..]| => rows[1..][i][..n]);
    }
  }

  /** The peer reads from every reply exactly what the outcome says: the error code and
      message, the number of affected rows, or every column name in field order and every
      row, cell by cell in column order, in fetch order. */
  lemma ReplyOfQuery(o: QueryOutcome)
    requires WellFormed(o)
    ensures ReadReply(QueryResponse(o)) == Some(Expected(o))
  {
    if o.Stored? {
      StringsOf(o.fields);
      RowsOf(o.rows, |o.fields|);
    }
  }

  /** Commit and rollback reply `{ok, commit}` and `{ok, rollback}`. */
  lemma ReplyOfTransaction()
    ensures ReadReply(COMMIT_REPLY) == Some(Done("commit"))
    ensures ReadReply(ROLLBACK_REPLY) == Some(Done("rollback"))
  {
  }

  /** Which reply a query gets: `selected` exactly for a stored result, `num_rows` exactly
      when there is no result and no field, and the error term in every other case. */
  lemma ResponseSelection(o: QueryOutcome)
    requires WellFormed(o)
    ensures QueryResponse(o).elems[0] == Atom("selected") <==> o.Stored?
    ensures QueryResponse(o).elems[0] == Atom("num_rows") <==> o.NoResultSet? && o.fieldCount == 0
    ensures QueryResponse(o).elems[0] == Atom("error") <==>
              o.QueryFailed? || (o.NoResultSet? && o.fieldCount != 0)
  {
  }

  // ---------------------------------------------------------------------------
  // The loops of handle_sql_query

  /** The first loop of the result branch: one `~s` term per field name, then `erl_mk_list`. */
  method BuildColumns(fields: seq<CStr>) returns (ecols: Term)
    ensures ecols == ColumnList(fields)
  {
    var cols := new Term[|fields|];
    for i := 0 to |fields|
      invariant forall k :: 0 <= k < i ==> cols[k] == Str(fields[k])
    {
      cols[i] := Str(fields[i]);
    }
    assert cols[..] == ColumnList(fields).elems;
    ecols := List(cols[..]);
  }

  /** The second loop of the result branch with its inner loop, written as intended: cell `j`
      of row `i` goes to slot `j` of the row tuple. */
  method BuildRows(rows: seq<seq<CStr>>, numFields: nat) returns (erows: Term)
    requires forall i :: 0 <= i < |rows| ==> numFields <= |rows[i]|
    ensures erows == RowList(rows, numFields)
  {
    var out := new Term[|rows|];
    for i := 0 to |rows|
      invariant forall k :: 0 <= k < i ==> out[k] == RowTuple(rows[k], numFields)
    {
      var row := rows[i];
      var rowtup := new Term[numFields];
      for j := 0 to numFields
        invariant forall m :: 0 <= m < j ==> rowtup[m] == Str(row[m])
        invariant forall k :: 0 <= k < i ==> out[k] == RowTuple(rows[k], numFields)
      {
        rowtup[j] := Str(row[j]);
      }
      assert rowtup[..] == RowTuple(row, numFields).elems;
      out[i] := Tuple(rowtup[..]);
    }
    assert out[..] == RowList(rows, numFields).elems;
    erows := List(out[..]);
  }

  /** The response term `handle_sql_query` builds for an outcome. */
  method BuildQueryResponse(o: QueryOutcome) returns (resp: Term)
    requires WellFormed(o)
    ensures resp == QueryResponse(o)
  {
    match o
    case QueryFailed(errno, error) =>
      resp := ErrorTerm(errno, error);
    case Stored(fields, rows) =>
      var ecols := BuildColumns(fields);
      var erows := BuildRows(rows, |fields|);
      resp := Tuple([Atom("selected"), ecols, erows]);
    case NoResultSet(fieldCount, affected, errno, error) =>
      if fieldCount == 0 {
        resp := NumRowsTerm(affected);
      } else {
        resp := ErrorTerm(errno, error);
      }
  }

  // ---------------------------------------------------------------------------
  // The code as written, where it differs from the intent

  /** The slots of `rowtup` after `j` passes of the inner loop as written, where every pass
      stores cell `j` into slot `i`, the number of the row rather than of the cell. `None` in a
      slot is a pointer never set; the whole is `None` once a store falls outside the `n`
      slots `malloc` gave. */
  function RowSlotsAsWritten(row: seq<CStr>, i: nat, n: nat, j: nat): (r: Option<seq<Option<Term>>>)
    requires j <= n <= |row|
    ensures r.Some? ==> |r.value| == n
  {
    if j == 0 then Some(seq(n, _ => None))
    else
      match RowSlotsAsWritten(row, i, n, j - 1)
      case None => None
      case Some(slots) => if i < n then Some(slots[i := Some(Str(row[j - 1]))]) else None
  }

  /** The tuple `erl_mk_tuple` builds from the slots as written, when all of them are set. */
  function RowTupleAsWritten(row: seq<CStr>, i: nat, n: nat): Option<Term>
    requires n <= |row|
  {
    match RowSlotsAsWritten(row, i, n, n)
    case None => None
    case Some(slots) =>
      if forall k :: 0 <= k < |slots| ==> slots[k].Some? then
        Some(Tuple(seq(|slots|, k requires 0 <= k < |slots| && slots[k].Some? => slots[k].value)))
      else None
  }

  /** After `j` passes as written, slot `i` holds cell `j - 1` and every other slot is unset;
      a row number past the last slot stores out of bounds. */
  lemma {:induction false} RowSlotsShape(row: seq<CStr>, i: nat, n: nat, j: nat)
    requires j <= n <= |row|
    ensures RowSlotsAsWritten(row, i, n, j).Some? <==> j == 0 || i < n
    ensures RowSlotsAsWritten(row, i, n, j).Some? ==>
              var slots := RowSlotsAsWritten(row, i, n, j).value;
              && (forall k :: 0 <= k < n && (k != i || j == 0) ==> slots[k].None?)
              && (0 < j && i < n ==> slots[i] == Some(Str(row[j - 1])))
  {
    if j > 0 {
      RowSlotsShape(row, i, n, j - 1);
    }
  }

  /** The row tuple as written is the intended one only for rows of at most one cell, and for
      a one-cell row only when it is the first row. */
  lemma RowTupleAsWrittenIff(row: seq<CStr>, i: nat, n: nat)
    requires n <= |row|
    ensures RowTupleAsWritten(row, i, n) == Some(RowTuple(row, n)) <==> n == 0 || (n == 1 && i == 0)
  {
    RowSlotsShape(row, i, n, n);
    if n == 1 && i == 0 {
      var slots := RowSlotsAsWritten(row, i, n, n).value;
      assert slots == [Some(Str(row[0]))];
      assert RowTupleAsWritten(row, i, n).value.elems == [Str(row[0])] == RowTuple(row, n).elems;
    } else if n >= 1 && i < n {
      var other := if i == 0 then 1 else 0;
      var slots := RowSlotsAsWritten(row, i, n, n).value;
      assert slots[other].None?;
      assert RowTupleAsWritten(row, i, n) == None;
    } else if n >= 1 {
      assert RowTupleAsWritten(row, i, n) == None;
    } else {
      assert RowTupleAsWritten(row, i, n).value.elems == [] == RowTuple(row, n).elems;
    }
  }

  /** The first row of a two-column result, as written: its last cell lands in the first slot,
      and the second slot is never set. */
  lemma RowTupleAsWrittenWitness(row: seq<CStr>)
    requires |row| == 2
    ensures RowSlotsAsWritten(row, 0, 2, 2) == Some([Some(Str(row[1])), None])
    ensures RowTupleAsWritten(row, 0, 2) == None
  {
    RowSlotsShape(row, 0, 2, 2);
    var slots := RowSlotsAsWritten(row, 0, 2, 2).value;
    assert slots == [Some(Str(row[1])), None];
    assert !slots[1].Some?;
  }

  /** `{num_rows, ~i}` as written: the 64-bit `mysql_affected_rows` is read by `~i` as an
      `int`, so only its low 32 bits arrive, reinterpreted as signed. */
  function NumRowsTermAsWritten(affected: UInt64): Term
  {
    Tuple([Atom("num_rows"), Int(ToInt(affected))])
  }

  /** The count as written agrees with the intended one exactly below 2^31. */
  lemma NumRowsAsWrittenIff(affected: UInt64)
    ensures NumRowsTermAsWritten(affected) == NumRowsTerm(affected) <==> affected < 0x8000_0000
  {
  }

  /** 2^32 affected rows are reported as none, and 2^31 as a negative count. */
  lemma NumRowsAsWrittenWitness()
    ensures ReadReply(NumRowsTermAsWritten(0x1_0000_0000)) == Some(NumRows(0))
    ensures ReadReply(NumRowsTermAsWritten(0x8000_0000)) == Some(NumRows(-0x8000_0000))
  {
  }
}
