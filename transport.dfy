/** Frame transport of the port driver (src/mysqlerl.c, lines 63-171).

    A frame is a 32-bit length in network byte order followed by that many
    payload bytes. The two restartable loops move a whole buffer over a pipe,
    calling again after EAGAIN and EINTR; each is specified by a function that
    runs the same loop over the stream's script, and the properties the
    driver relies on are proved about those functions. */
module Transport {
  import opened Posix

  /** Exit status of the process after an I/O failure (lines 122, 131, 141 and 151). */
  const EXIT_IO: nat := 2

  /** How a restartable loop ended: whether it moved the whole buffer, how many bytes it
      moved, and what is left of the stream's script. */
  datatype Run = Run(ok: bool, moved: nat, rest: seq<Event>)

  /** What one call of `read_msg` hands back: a payload, or the process exits. */
  datatype Received = Received(payload: seq<Byte>) | Exited(code: nat)

  // ---------------------------------------------------------------------------
  // restartable_read and restartable_write

  /** The loop of `restartable_read` asking for `want` bytes of a stream that holds `avail`
      unread bytes. Which bytes arrive is the stream's business; the loop decides only how
      many, so the run depends on the count alone. */
  function ReadLoop(avail: nat, script: seq<Event>, want: nat): Run
    decreases |script|, want
  {
    if want == 0 then Run(true, 0, script)
    else match ReadCall(avail, script, want)
      case Failed(e) =>
        if Retryable(e) then ReadLoop(avail, Rest(script), want)
        else Run(false, 0, Rest(script))
      case Transferred(k) =>
        if k == 0 then Run(false, 0, Rest(script))
        else
          var r := ReadLoop(avail - k, Rest(script), want - k);
          Run(r.ok, k + r.moved, r.rest)
  }

  /** The read loop never moves more than it was asked for or than the stream holds, and it
      succeeds exactly when it moved everything it was asked for. */
  lemma {:induction false} ReadLoopBounds(avail: nat, script: seq<Event>, want: nat)
    ensures var r := ReadLoop(avail, script, want);
            && r.moved <= want && r.moved <= avail
            && (r.ok <==> r.moved == want)
    decreases |script|, want
  {
    if want > 0 {
      match ReadCall(avail, script, want)
      case Failed(e) =>
        if Retryable(e) {
          ReadLoopBounds(avail, Rest(script), want);
        }
      case Transferred(k) =>
        if k > 0 {
          ReadLoopBounds(avail - k, Rest(script), want - k);
        }
    }
  }

  /** The loop of `restartable_write` offering `want` bytes. */
  function WriteLoop(script: seq<Event>, want: nat): Run
    decreases |script|, want
  {
    if want == 0 then Run(true, 0, script)
    else match WriteCall(script, want)
      case Failed(e) =>
        if Retryable(e) then WriteLoop(Rest(script), want)
        else Run(false, 0, Rest(script))
      case Transferred(k) =>
        var r := WriteLoop(Rest(script), want - k);
        Run(r.ok, k + r.moved, r.rest)
  }

  /** The write loop never moves more than it was offered, and it succeeds exactly when it
      moved all of it. */
  lemma {:induction false} WriteLoopBounds(script: seq<Event>, want: nat)
    ensures var r := WriteLoop(script, want);
            && r.moved <= want
            && (r.ok <==> r.moved == want)
    decreases |script|, want
  {
    if want > 0 {
      match WriteCall(script, want)
      case Failed(e) =>
        if Retryable(e) {
          WriteLoopBounds(Rest(script), want);
        }
      case Transferred(k) =>
        WriteLoopBounds(Rest(script), want - k);
    }
  }

  /** `restartable_read(buf, buflen)`: on success returns `buflen`, converted to the `int`
      result, after storing exactly the next `buflen` bytes of the stream, in stream order,
      in `buf[0..buflen)`; otherwise returns -1. Either way the stream has lost exactly the
      bytes stored, and nothing past them in `buf` is touched. */
  method RestartableRead(input: InStream, buf: array<Byte>, buflen: nat) returns (n: int)
    requires buflen <= buf.Length
    modifies input, buf
    ensures var r := ReadLoop(|old(input.pending)|, old(input.script), buflen);
            && n == (if r.ok then ToInt(buflen) else -1)
            && r.moved <= buflen && r.moved <= |old(input.pending)|
            && input.pending == old(input.pending)[r.moved..]
            && (forall i :: 0 <= i < r.moved ==> buf[i] == old(input.pending)[i])
            && input.script == r.rest
            && (forall i :: r.moved <= i < buf.Length ==> buf[i] == old(buf[i]))
  {
    ghost var pending0, script0 := input.pending, input.script;
    ghost var whole := ReadLoop(|pending0|, script0, buflen);
    var rc: nat := 0;
    var broken := false;
    while rc < buflen && !broken
      invariant rc <= buflen && rc <= |pending0|
      invariant input.pending == pending0[rc..]
      invariant forall i :: 0 <= i < rc ==> buf[i] == pending0[i]
      invariant forall i :: rc <= i < buf.Length ==> buf[i] == old(buf[i])
      invariant !broken ==> Resumes(whole, rc, ReadLoop(|input.pending|, input.script, buflen - rc))
      invariant broken ==> whole == Run(false, rc, input.script)
      decreases |input.script|, buflen - rc, if broken then 0 else 1
    {
      ghost var before, scriptBefore := input.pending, input.script;
      var readb := input.Read(buf, rc, buflen - rc);
      ReadAdvance(whole, rc, |before|, scriptBefore, buflen - rc, readb, |input.pending|, input.script);
      if readb.Failed? {
        broken := !Retryable(readb.errno);
      } else if readb.count == 0 {
        broken := true;
      } else {
        DropDrop(pending0, rc, readb.count);
        rc := rc + readb.count;
      }
    }
    assert whole.moved == rc && whole.ok == !broken;
    n := if broken then -1 else ToInt(rc);
  }

  /** `whole` is a run that has moved `done` bytes and goes on as `tail`. */
  predicate Resumes(whole: Run, done: nat, tail: Run)
  {
    whole == Run(tail.ok, done + tail.moved, tail.rest)
  }

  /** One turn of the read loop: where the run stands after the call returned `readb`. */
  lemma ReadAdvance(whole: Run, rc: nat, before: nat, script: seq<Event>, want: nat,
                    readb: SysResult, after: nat, scriptAfter: seq<Event>)
    requires want > 0 && Resumes(whole, rc, ReadLoop(before, script, want))
    requires readb == ReadCall(before, script, want) && scriptAfter == Rest(script)
    requires readb.Failed? ==> after == before
    requires readb.Transferred? ==> after == before - readb.count
    ensures readb.Failed? && Retryable(readb.errno) ==>
              Resumes(whole, rc, ReadLoop(after, scriptAfter, want))
    ensures (readb.Failed? && !Retryable(readb.errno)) || readb == Transferred(0) ==>
              whole == Run(false, rc, scriptAfter)
    ensures readb.Transferred? && readb.count > 0 ==>
              Resumes(whole, rc + readb.count, ReadLoop(after, scriptAfter, want - readb.count))
  {
  }

  /** Dropping `a` elements and then `b` more drops `a + b`. */
  lemma DropDrop(s: seq<Byte>, a: nat, b: nat)
    requires a + b <= |s|
    ensures s[a..][b..] == s[a + b..]
  {
  }

  /** `restartable_write(buf, buflen)`: appends `buf[0..buflen)` to the output, in order and
      without gaps, and returns `buflen` converted to the `int` result; after a hard error
      it returns -1 having appended a prefix of those bytes. */
  method RestartableWrite(output: OutStream, buf: array<Byte>, buflen: nat) returns (n: int)
    requires buflen <= buf.Length
    modifies output
    ensures var r := WriteLoop(old(output.script), buflen);
            && n == (if r.ok then ToInt(buflen) else -1)
            && r.moved <= buflen
            && output.script == r.rest
            && output.written == old(output.written) + buf[..r.moved]
  {
    ghost var written0, script0 := output.written, output.script;
    ghost var whole := WriteLoop(script0, buflen);
    var rc := 0;
    while rc < buflen
      invariant rc <= buflen
      invariant output.written == written0 + buf[..rc]
      invariant Resumes(whole, rc, WriteLoop(output.script, buflen - rc))
      decreases |output.script|, buflen - rc
    {
      ghost var scriptBefore := output.script;
      var wroteb := output.Write(buf, rc, buflen - rc);
      WriteAdvance(whole, rc, scriptBefore, buflen - rc, wroteb, output.script);
      match wroteb
      case Failed(e) =>
        if !Retryable(e) {
          return -1;
        }
      case Transferred(k) =>
        AppendChunk(written0, buf[..], rc, k);
        rc := rc + k;
    }
    return ToInt(rc);
  }

  /** One turn of the write loop: where the run stands after the call returned `wroteb`. */
  lemma WriteAdvance(whole: Run, rc: nat, script: seq<Event>, want: nat,
                     wroteb: SysResult, scriptAfter: seq<Event>)
    requires want > 0 && Resumes(whole, rc, WriteLoop(script, want))
    requires wroteb == WriteCall(script, want) && scriptAfter == Rest(script)
    ensures wroteb.Failed? && Retryable(wroteb.errno) ==>
              Resumes(whole, rc, WriteLoop(scriptAfter, want))
    ensures wroteb.Failed? && !Retryable(wroteb.errno) ==> whole == Run(false, rc, scriptAfter)
    ensures wroteb.Transferred? ==>
              0 < wroteb.count <= want &&
              Resumes(whole, rc + wroteb.count, WriteLoop(scriptAfter, want - wroteb.count))
  {
  }

  /** Appending the next `k` bytes of `b` after its first `rc`. */
  lemma AppendChunk(front: seq<Byte>, b: seq<Byte>, rc: nat, k: nat)
    requires rc + k <= |b|
    ensures front + b[..rc] + b[rc..rc + k] == front + b[..rc + k]
  {
    assert b[..rc + k] == b[..rc] + b[rc..rc + k];
  }

  // ---------------------------------------------------------------------------
  // Interrupted calls are invisible

  /** The script with every interrupted call (EAGAIN, EINTR) taken out. */
  function WithoutRetries(script: seq<Event>): (r: seq<Event>)
    ensures |r| <= |script|
  {
    if script == [] then []
    else if script[0].Fail? && Retryable(script[0].errno) then WithoutRetries(script[1..])
    else [script[0]] + WithoutRetries(script[1..])
  }

  /** Interrupts anywhere in the script change neither whether `restartable_read` succeeds
      nor how many bytes it consumes: every retry resumes at the current offset. */
  lemma {:induction false} ReadIgnoresRetries(avail: nat, script: seq<Event>, want: nat)
    ensures ReadLoop(avail, script, want).ok == ReadLoop(avail, WithoutRetries(script), want).ok
    ensures ReadLoop(avail, script, want).moved == ReadLoop(avail, WithoutRetries(script), want).moved
    decreases |script|, want
  {
    if want > 0 && script != [] {
      var settled := WithoutRetries(script);
      if script[0].Fail? && Retryable(script[0].errno) {
        ReadIgnoresRetries(avail, script[1..], want);
      } else {
        assert settled == [script[0]] + WithoutRetries(script[1..]);
        assert Rest(settled) == WithoutRetries(script[1..]);
        match ReadCall(avail, script, want)
        case Failed(e) =>
        case Transferred(k) =>
          if k > 0 {
            ReadIgnoresRetries(avail - k, script[1..], want - k);
          }
      }
    }
  }

  /** The same for `restartable_write`. */
  lemma {:induction false} WriteIgnoresRetries(script: seq<Event>, want: nat)
    ensures WriteLoop(script, want).ok == WriteLoop(WithoutRetries(script), want).ok
    ensures WriteLoop(script, want).moved == WriteLoop(WithoutRetries(script), want).moved
    decreases |script|, want
  {
    if want > 0 && script != [] {
      var settled := WithoutRetries(script);
      if script[0].Fail? && Retryable(script[0].errno) {
        WriteIgnoresRetries(script[1..], want);
      } else {
        assert settled == [script[0]] + WithoutRetries(script[1..]);
        assert Rest(settled) == WithoutRetries(script[1..]);
        match WriteCall(script, want)
        case Failed(e) =>
        case Transferred(k) =>
          WriteIgnoresRetries(script[1..], want - k);
      }
    }
  }

  /** With no hard error in the script, `restartable_read` always gets `want` bytes out of
      a stream that holds them, however the kernel splits them into chunks. */
  lemma {:induction false} ReadCompletes(avail: nat, script: seq<Event>, want: nat)
    requires NoHardErrors(script) && want <= avail
    ensures ReadLoop(avail, script, want).ok
    decreases |script|, want
  {
    if want > 0 {
      match ReadCall(avail, script, want)
      case Failed(e) =>
        RestKeepsNoHardErrors(script);
        ReadCompletes(avail, Rest(script), want);
      case Transferred(k) =>
        RestKeepsNoHardErrors(script);
        ReadCompletes(avail - k, Rest(script), want - k);
    }
  }

  /** With no hard error in the script, `restartable_write` always writes the whole buffer. */
  lemma {:induction false} WriteCompletes(script: seq<Event>, want: nat)
    requires NoHardErrors(script)
    ensures WriteLoop(script, want).ok
    decreases |script|, want
  {
    if want > 0 {
      RestKeepsNoHardErrors(script);
      match WriteCall(script, want)
      case Failed(e) =>
        WriteCompletes(Rest(script), want);
      case Transferred(k) =>
        WriteCompletes(Rest(script), want - k);
    }
  }

  // ---------------------------------------------------------------------------
  // The length prefix

  /** `htonl` followed by storing the word: the length, most significant byte first. */
  function Htonl(n: nat): (b: seq<Byte>)
    requires n < 0x1_0000_0000
    ensures |b| == 4
  {
    [n / 0x100_0000, (n / 0x1_0000) % 0x100, (n / 0x100) % 0x100, n % 0x100]
  }

  /** Loading the word and `ntohl`: the four bytes read as a big-endian number. */
  function Ntohl(b: seq<Byte>): (n: nat)
    requires |b| == 4
    ensures n < 0x1_0000_0000
  {
    var b0: int, b1: int, b2: int, b3: int := b[0], b[1], b[2], b[3];
    ((b0 * 0x100 + b1) * 0x100 + b2) * 0x100 + b3
  }

  lemma NtohlHtonl(n: nat)
    requires n < 0x1_0000_0000
    ensures Ntohl(Htonl(n)) == n
  {
    var q1 := n / 0x100;
    var q2 := q1 / 0x100;
    var q3 := q2 / 0x100;
    assert n / 0x1_0000 == q2;
    assert n / 0x100_0000 == q3;
    assert n == q1 * 0x100 + n % 0x100;
    assert q1 == q2 * 0x100 + q1 % 0x100;
    assert q2 == q3 * 0x100 + q2 % 0x100;
  }

  lemma HtonlNtohl(b: seq<Byte>)
    requires |b| == 4
    ensures Htonl(Ntohl(b)) == b
  {
    var n := Ntohl(b);
    var b0: int, b1: int, b2: int, b3: int := b[0], b[1], b[2], b[3];
    var q2 := b0 * 0x100 + b1;
    var q1 := q2 * 0x100 + b2;
    assert n == q1 * 0x100 + b3;
    assert n / 0x100 == q1 && n % 0x100 == b3;
    assert q1 / 0x100 == q2 && q1 % 0x100 == b2;
    assert q2 / 0x100 == b0 && q2 % 0x100 == b1;
    assert n / 0x1_0000 == q2;
    assert n / 0x100_0000 == b0;
  }

  /** The bytes of one frame carrying `payload`. */
  function Frame(payload: seq<Byte>): (f: seq<Byte>)
    requires |payload| < 0x1_0000_0000
    ensures |f| == 4 + |payload| && f[4..] == payload
    ensures Ntohl(f[..4]) == |payload|
  {
    NtohlHtonl(|payload|);
    Htonl(|payload|) + payload
  }

  // ---------------------------------------------------------------------------
  // write_cmd and read_msg

  /** `write_cmd`'s two writes: the prefix, then, if that went through, the payload. */
  function WriteCmdRun(script: seq<Event>, len: nat): (r: Run)
    ensures r.moved <= 4 + len
    ensures r.ok <==> r.moved == 4 + len
  {
    WriteLoopBounds(script, 4);
    var prefix := WriteLoop(script, 4);
    if !prefix.ok then prefix
    else
      WriteLoopBounds(prefix.rest, len);
      var body := WriteLoop(prefix.rest, len);
      Run(body.ok, 4 + body.moved, body.rest)
  }

  /** `read_msg`'s two reads over a stream holding `pending`: the prefix, then as many bytes
      as it announces. */
  function ReadMsgRun(pending: seq<Byte>, script: seq<Event>): (r: Run)
    ensures r.moved <= |pending|
    ensures r.ok ==> 4 <= |pending| && r.moved == 4 + Ntohl(pending[..4])
    ensures !r.ok && 4 <= |pending| ==> r.moved < 4 + Ntohl(pending[..4])
  {
    ReadLoopBounds(|pending|, script, 4);
    var prefix := ReadLoop(|pending|, script, 4);
    if !prefix.ok then prefix
    else
      var len := Ntohl(pending[..4]);
      ReadLoopBounds(|pending| - 4, prefix.rest, len);
      var body := ReadLoop(|pending| - 4, prefix.rest, len);
      Run(body.ok, 4 + body.moved, body.rest)
  }

  /** The one frame length below 2^32 whose completed transfer `restartable_read` and
      `restartable_write` report as -1: their `int` result wraps it around. */
  const WRAPPED_LENGTH: nat := 0xFFFF_FFFF

  /** What `write_cmd` returns after its two writes: -1 when a write failed, and also when
      the body's write reports -1 for a whole body of `WRAPPED_LENGTH` bytes. */
  function WriteCmdResult(script: seq<Event>, len: nat): (rc: int)
    requires len < 0x1_0000_0000
    ensures rc == 0 <==> WriteCmdRun(script, len).ok && len != WRAPPED_LENGTH
    ensures rc == 0 || rc == -1
  {
    ToIntMinusOne(len);
    if WriteCmdRun(script, len).ok && ToInt(len) != -1 then 0 else -1
  }

  /** `write_cmd(cmd, len)`: emits the frame of `cmd[0..len)`, or a prefix of it if either
      write fails, and returns what `WriteCmdResult` says. */
  method WriteCmd(output: OutStream, cmd: array<Byte>, len: nat) returns (rc: int)
    requires len <= cmd.Length && len < 0x1_0000_0000
    modifies output
    ensures var r := WriteCmdRun(old(output.script), len);
            && rc == WriteCmdResult(old(output.script), len)
            && output.script == r.rest
            && output.written == old(output.written) + Frame(cmd[..len])[..r.moved]
  {
    ghost var written0, script0 := output.written, output.script;
    ghost var frame := Frame(cmd[..len]);
    var be := Htonl(len);
    var nlen := new Byte[4];
    nlen[0], nlen[1], nlen[2], nlen[3] := be[0], be[1], be[2], be[3];
    assert nlen[..] == frame[..4];
    var n := RestartableWrite(output, nlen, 4);
    ghost var prefix := WriteLoop(script0, 4);
    WriteLoopBounds(script0, 4);
    FrameHead(cmd[..len], nlen[..], prefix.moved);
    if n == -1 {
      return -1;
    }
    ghost var afterPrefix := output.written;
    n := RestartableWrite(output, cmd, len);
    ghost var body := WriteLoop(prefix.rest, len);
    FrameBody(cmd[..len], body.moved);
    assert cmd[..body.moved] == cmd[..len][..body.moved];
    if n == -1 {
      return -1;
    }
    return 0;
  }

  /** The first `m` bytes of a frame, when no more than its prefix. */
  lemma FrameHead(payload: seq<Byte>, head: seq<Byte>, m: nat)
    requires |payload| < 0x1_0000_0000 && head == Frame(payload)[..4] && m <= 4
    ensures head[..m] == Frame(payload)[..m]
  {
  }

  /** The prefix of a frame followed by the first `m` bytes of its payload. */
  lemma FrameBody(payload: seq<Byte>, m: nat)
    requires |payload| < 0x1_0000_0000 && m <= |payload|
    ensures Frame(payload)[..4] + payload[..m] == Frame(payload)[..4 + m]
  {
    var f := Frame(payload);
    assert f[..4 + m] == f[..4] + f[4..4 + m];
  }

  /** What `read_msg` hands back after its two reads: the body of a whole frame, or exit
      status 2 when the stream fails or ends inside the frame, and also when the body read
      reports -1 for a whole body of `WRAPPED_LENGTH` bytes. */
  function ReadMsgOutcome(pending: seq<Byte>, script: seq<Event>): (m: Received)
    ensures m.Received? <==>
              ReadMsgRun(pending, script).ok && Ntohl(pending[..4]) != WRAPPED_LENGTH
    ensures m.Received? ==> m.payload == pending[4..4 + Ntohl(pending[..4])]
    ensures m.Exited? ==> m.code == EXIT_IO
  {
    var r := ReadMsgRun(pending, script);
    if r.ok then
      ToIntMinusOne(Ntohl(pending[..4]));
      if ToInt(Ntohl(pending[..4])) != -1 then Received(pending[4..r.moved]) else Exited(EXIT_IO)
    else Exited(EXIT_IO)
  }

  /** `read_msg` up to the decoding of the body: reads one frame and hands back what
      `ReadMsgOutcome` says, consuming exactly the bytes the two reads took. */
  method ReadMsg(input: InStream) returns (msg: Received)
    modifies input
    ensures var r := ReadMsgRun(old(input.pending), old(input.script));
            && input.pending == old(input.pending)[r.moved..]
            && input.script == r.rest
            && msg == ReadMsgOutcome(old(input.pending), old(input.script))
  {
    ghost var pending0, script0 := input.pending, input.script;
    ReadLoopBounds(|pending0|, script0, 4);
    var prefix := new Byte[4];
    var n := RestartableRead(input, prefix, 4);
    if n == -1 {
      return Exited(EXIT_IO);
    }
    assert prefix[..] == pending0[..4];
    var len := Ntohl(prefix[..]);
    var buf := new Byte[len];
    ghost var pending1, script1 := input.pending, input.script;
    ReadLoopBounds(|pending1|, script1, len);
    n := RestartableRead(input, buf, len);
    if n == -1 {
      return Exited(EXIT_IO);
    }
    DropDrop(pending0, 4, len);
    assert buf[..] == pending0[4..4 + len];
    return Received(buf[..]);
  }

  // ---------------------------------------------------------------------------
  // Framing round trip

  /** A loop that meets no hard error leaves a script that meets none either. */
  lemma {:induction false} ReadLoopKeepsNoHardErrors(avail: nat, script: seq<Event>, want: nat)
    requires NoHardErrors(script)
    ensures NoHardErrors(ReadLoop(avail, script, want).rest)
    decreases |script|, want
  {
    if want > 0 {
      RestKeepsNoHardErrors(script);
      match ReadCall(avail, script, want)
      case Failed(e) =>
        ReadLoopKeepsNoHardErrors(avail, Rest(script), want);
      case Transferred(k) =>
        if k > 0 {
          ReadLoopKeepsNoHardErrors(avail - k, Rest(script), want - k);
        }
    }
  }

  /** Reading a stream that starts with the frame of `payload` takes exactly that frame and
      leaves the stream at the next one; `read_msg` yields `payload`, except for the one
      wrapped length. */
  lemma ReadMsgOfFrame(payload: seq<Byte>, trailer: seq<Byte>, script: seq<Event>)
    requires |payload| < 0x1_0000_0000 && NoHardErrors(script)
    ensures var data := Frame(payload) + trailer;
            var r := ReadMsgRun(data, script);
            && r.ok
            && data[4..r.moved] == payload
            && data[r.moved..] == trailer
            && ReadMsgOutcome(data, script)
                 == (if |payload| != WRAPPED_LENGTH then Received(payload) else Exited(EXIT_IO))
  {
    var data := Frame(payload) + trailer;
    assert data[..4] == Frame(payload)[..4];
    ReadCompletes(|data|, script, 4);
    ReadLoopKeepsNoHardErrors(|data|, script, 4);
    var prefix := ReadLoop(|data|, script, 4);
    ReadCompletes(|data| - 4, prefix.rest, |payload|);
  }

  /** A stream that ends inside a frame, in its prefix or in its body, makes `read_msg` exit
      with status 2, whatever the interrupts. */
  lemma TruncatedFrameFails(payload: seq<Byte>, k: nat, script: seq<Event>)
    requires |payload| < 0x1_0000_0000 && k < |Frame(payload)|
    ensures !ReadMsgRun(Frame(payload)[..k], script).ok
  {
    var data := Frame(payload)[..k];
    if 4 <= k {
      assert data[..4] == Frame(payload)[..4];
    }
  }

  /** A write loop that meets no hard error leaves a script that meets none either. */
  lemma {:induction false} WriteLoopKeepsNoHardErrors(script: seq<Event>, want: nat)
    requires NoHardErrors(script)
    ensures NoHardErrors(WriteLoop(script, want).rest)
    decreases |script|, want
  {
    if want > 0 {
      RestKeepsNoHardErrors(script);
      match WriteCall(script, want)
      case Failed(e) =>
        WriteLoopKeepsNoHardErrors(Rest(script), want);
      case Transferred(k) =>
        WriteLoopKeepsNoHardErrors(Rest(script), want - k);
    }
  }

  /** With no hard error in the script, `write_cmd` emits its whole frame. */
  lemma WriteCmdCompletes(script: seq<Event>, len: nat)
    requires NoHardErrors(script)
    ensures WriteCmdRun(script, len).ok
  {
    WriteCompletes(script, 4);
    WriteLoopKeepsNoHardErrors(script, 4);
    WriteCompletes(WriteLoop(script, 4).rest, len);
  }

  /** One frame written by `write_cmd` and read back by `read_msg` over pipes that may
      interrupt and split transfers at will: the payload arrives unchanged, except for the
      one wrapped length, whose whole frame goes through but is reported as failed at both
      ends. */
  method FrameRoundTrip(payload: seq<Byte>, outEvents: seq<Event>, inEvents: seq<Event>)
    returns (rc: int, msg: Received)
    requires |payload| < 0x1_0000_0000
    requires NoHardErrors(outEvents) && NoHardErrors(inEvents)
    ensures |payload| != WRAPPED_LENGTH ==> rc == 0 && msg == Received(payload)
    ensures |payload| == WRAPPED_LENGTH ==> rc == -1 && msg == Exited(EXIT_IO)
  {
    var output := new OutStream(outEvents);
    var cmd := new Byte[|payload|](i requires 0 <= i < |payload| => payload[i]);
    assert cmd[..] == payload;
    WriteCmdCompletes(outEvents, |payload|);
    rc := WriteCmd(output, cmd, |payload|);
    assert output.written == Frame(payload) + [];
    var input := new InStream(output.written, inEvents);
    ReadMsgOfFrame(payload, [], inEvents);
    msg := ReadMsg(input);
  }

  /** A frame of the wrapped length, delivered whole and without a hard error on either
      side, is reported as failed: `write_cmd` returns -1 after emitting all of it, and
      `read_msg` exits with status 2 after reading all of it. */
  lemma WrappedFrameRejected(payload: seq<Byte>, outEvents: seq<Event>, inEvents: seq<Event>)
    requires |payload| == WRAPPED_LENGTH && NoHardErrors(outEvents) && NoHardErrors(inEvents)
    ensures WriteCmdRun(outEvents, |payload|).ok && WriteCmdResult(outEvents, |payload|) == -1
    ensures ReadMsgRun(Frame(payload), inEvents) == Run(true, |Frame(payload)|, ReadMsgRun(Frame(payload), inEvents).rest)
    ensures ReadMsgOutcome(Frame(payload), inEvents) == Exited(EXIT_IO)
  {
    WriteCmdCompletes(outEvents, |payload|);
    ReadMsgOfFrame(payload, [], inEvents);
    assert Frame(payload) + [] == Frame(payload);
  }
}
