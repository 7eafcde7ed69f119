/** The operating system's side of the two pipes the driver talks over.

    Nothing here is part of the driver: it is the environment that read(2) and
    write(2) stand for. A stream is described by the bytes it carries and by a
    script of how the next system calls behave (how many bytes each may move, or
    which error it reports). Once the script is used up every call moves as many
    bytes as it is asked for and the stream can supply. */
module Posix {

  /** An octet, as `unsigned char` holds it. */
  type Byte = b: int | 0 <= b < 256

  /** The values of `errno` the driver tells apart. */
  datatype Errno = EAGAIN | EINTR | OtherErrno(code: nat)

  /** The two conditions after which the driver calls again (lines 73 and 99 of the source). */
  predicate Retryable(e: Errno)
  {
    e == EAGAIN || e == EINTR
  }

  /** A positive bound on the bytes one call moves. */
  type Limit = n: int | 1 <= n witness 1

  /** How one system call on a stream behaves. */
  datatype Event = Ready(limit: Limit) | Fail(errno: Errno)

  /** What one read(2) or write(2) returns: a byte count, or -1 with `errno` set. */
  datatype SysResult = Transferred(count: nat) | Failed(errno: Errno)

  function Min(a: int, b: int): int
  {
    if a <= b then a else b
  }

  /** The `int` a count becomes where C converts it to `int`: its low 32 bits read as two's
      complement, as every two's-complement target does. */
  function ToInt(n: nat): (r: int)
    ensures -0x8000_0000 <= r < 0x8000_0000
    ensures (r - n) % 0x1_0000_0000 == 0
  {
    var w := n % 0x1_0000_0000;
    if w < 0x8000_0000 then w else w - 0x1_0000_0000
  }

  /** Of the counts below 2^32, exactly one becomes -1: 2^32 - 1. */
  lemma ToIntMinusOne(n: nat)
    requires n < 0x1_0000_0000
    ensures ToInt(n) == -1 <==> n == 0xFFFF_FFFF
    ensures n < 0x8000_0000 ==> ToInt(n) == n
  {
  }

  /** The script after one call. */
  function Rest(script: seq<Event>): (r: seq<Event>)
    ensures script != [] ==> |r| < |script|
  {
    if script == [] then [] else script[1..]
  }

  /** A script that fails no call for good: it may interrupt, never break. */
  predicate NoHardErrors(script: seq<Event>)
  {
    forall i :: 0 <= i < |script| ==> script[i].Fail? ==> Retryable(script[i].errno)
  }

  /** Taking one call off a script that breaks no call leaves one that breaks none. */
  lemma RestKeepsNoHardErrors(script: seq<Event>)
    requires NoHardErrors(script)
    ensures NoHardErrors(Rest(script))
  {
  }

  /** read(2) asking for `count` bytes when `avail` bytes have been sent by the peer and not
      read yet. A result of 0 bytes for a positive count is end of stream. */
  function ReadCall(avail: nat, script: seq<Event>, count: nat): (r: SysResult)
    ensures r.Failed? ==> script != [] && script[0] == Fail(r.errno)
    ensures r.Transferred? ==> r.count <= count && r.count <= avail
    ensures r.Transferred? && r.count == 0 ==> count == 0 || avail == 0
  {
    if script != [] && script[0].Fail? then Failed(script[0].errno)
    else
      var limit := if script == [] then count else script[0].limit;
      Transferred(Min(Min(limit, count), avail))
  }

  /** write(2) offering `count` bytes: a pipe accepts at least one byte of a non-empty write. */
  function WriteCall(script: seq<Event>, count: nat): (r: SysResult)
    ensures r.Failed? ==> script != [] && script[0] == Fail(r.errno)
    ensures r.Transferred? ==> r.count <= count && (count > 0 ==> r.count > 0)
  {
    if script != [] && script[0].Fail? then Failed(script[0].errno)
    else
      var limit := if script == [] then count else script[0].limit;
      Transferred(Min(limit, count))
  }

  /** Standard input: the bytes still to be read, then end of stream. */
  class InStream {
    var pending: seq<Byte>
    var script: seq<Event>

    constructor (data: seq<Byte>, events: seq<Event>)
      ensures pending == data && script == events
    {
      pending := data;
      script := events;
    }

    /** read(STDIN_FILENO, buf + off, count): the next bytes of the stream land in
        `buf[off..off + r.count)`; nothing else in `buf` changes. */
    method Read(buf: array<Byte>, off: nat, count: nat) returns (r: SysResult)
      requires off + count <= buf.Length
      modifies this, buf
      ensures r == ReadCall(|old(pending)|, old(script), count)
      ensures script == Rest(old(script))
      ensures r.Failed? ==> pending == old(pending) && unchanged(buf)
      ensures r.Transferred? ==>
                && pending == old(pending)[r.count..]
                && (forall i :: 0 <= i < buf.Length ==>
                      buf[i] == if off <= i < off + r.count then old(pending)[i - off] else old(buf[i]))
    {
      r := ReadCall(|pending|, script, count);
      if r.Transferred? {
        forall i | off <= i < off + r.count {
          buf[i] := pending[i - off];
        }
        pending := pending[r.count..];
      }
      script := Rest(script);
    }
  }

  /** Standard output: everything the driver has written so far. */
  class OutStream {
    var written: seq<Byte>
    var script: seq<Event>

    constructor (events: seq<Event>)
      ensures written == [] && script == events
    {
      written := [];
      script := events;
    }

    /** write(STDOUT_FILENO, buf + off, count). */
    method Write(buf: array<Byte>, off: nat, count: nat) returns (r: SysResult)
      requires off + count <= buf.Length
      modifies this
      ensures r == WriteCall(old(script), count)
      ensures script == Rest(old(script))
      ensures r.Failed? ==> written == old(written)
      ensures r.Transferred? ==> written == old(written) + buf[off..off + r.count]
    {
      r := WriteCall(script, count);
      if r.Transferred? {
        var k := r.count;
        written := written + buf[off..off + k];
      }
      script := Rest(script);
    }
  }
}
