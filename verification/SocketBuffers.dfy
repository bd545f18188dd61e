/**
 The stream buffer on top of a socket. Bytes wait in a put area until it is full or flushed,
 and are taken from a get area that is refilled when it is empty; bulk operations work their
 way through by recursion. Together both ends are a first-in-first-out pipe.
 */
module SocketBuffers {
  import opened Basics
  import opened UnixSockets

  const EOF: int := -1

  class SocketBuffer {
    const socket: UnixSocket
    const inBuffer: array<Byte>
    const outBuffer: array<Byte>
    const bufferSize: nat
    var pptr: nat
    var gptr: nat
    var egptr: nat
    var overrun: bool // a byte was written behind the put area

    constructor (socket: UnixSocket, size: nat)
      requires size > 0
      ensures Valid() && this.socket == socket && bufferSize == size && Pending() == [] && Ahead() == []
      ensures fresh(inBuffer) && fresh(outBuffer)
    {
      this.socket, bufferSize := socket, size;
      inBuffer, outBuffer := new Byte[size](_ => 0), new Byte[size](_ => 0);
      pptr, gptr, egptr, overrun := 0, size, size, false;
    }

    ghost predicate Valid()
      reads this
    {
      && inBuffer.Length == outBuffer.Length == bufferSize > 0 && inBuffer != outBuffer
      && pptr <= bufferSize && gptr <= egptr <= bufferSize && !overrun
    }

    /** Bytes put, but not yet written to the socket. */
    ghost function Pending(): seq<Byte>
      requires Valid()
      reads this, outBuffer
    {
      outBuffer[..pptr]
    }

    /** Bytes read from the socket, but not yet taken. */
    ghost function Ahead(): seq<Byte>
      requires Valid()
      reads this, inBuffer
    {
      inBuffer[gptr..egptr]
    }

    /** The socket is open and its system calls do not fail. */
    ghost predicate Sound()
      reads this, socket
    {
      socket.isOpen && NeverFails(socket.plan)
    }

    // ------------------------------------------------------------------ putting

    method Sync() returns (r: int)
      requires Valid()
      modifies socket`plan, socket`outgoing, socket`failbit, this`pptr
      ensures Valid() && (r == 0 || r == EOF)
      ensures r == 0 ==> Pending() == [] && socket.outgoing == old(socket.outgoing + Pending())
      ensures r == EOF ==> pptr == old(pptr) && socket.failbit
      ensures old(socket.outgoing) <= socket.outgoing <= old(socket.outgoing + Pending())
      ensures r == EOF <==> |socket.outgoing| < |old(socket.outgoing + Pending())|
      ensures !old(socket.isOpen) && old(pptr) > 0 ==> r == EOF
      ensures old(Sound()) ==> Sound() && r == 0
    {
      if 0 < pptr {
        var ok, _ := socket.Write(outBuffer, 0, pptr);
        if !ok {
          return EOF;
        }
        pptr := 0;
      }
      r := 0;
    }

    method Overflow(ch: int) returns (r: int)
      requires Valid() && (ch == EOF || 0 <= ch < 256)
      modifies socket`plan, socket`outgoing, socket`failbit, this`pptr, this`overrun, outBuffer
      ensures old(Sound()) ==> Sound() && Valid() && r != EOF
      ensures ch == EOF && r != EOF ==> Valid() && Pending() == [] && socket.outgoing == old(socket.outgoing + Pending())
      ensures ch == EOF && r == EOF ==> Valid() && pptr == old(pptr) && outBuffer[..] == old(outBuffer[..]) && socket.failbit
      ensures ch != EOF ==> r == ch
      ensures ch != EOF && Valid() ==> socket.outgoing + Pending() == old(socket.outgoing + Pending()) + [ch as Byte]
      ensures Valid() <==> !overrun
      ensures overrun <==> ch != EOF && old(pptr) == bufferSize && |socket.outgoing| < |old(socket.outgoing + Pending())|
      ensures old(pptr) < bufferSize ==> Valid() && (ch != EOF ==> pptr == old(pptr) + 1)
      ensures overrun ==> socket.failbit
      ensures ch != EOF && old(pptr) == bufferSize && !old(socket.isOpen) ==> overrun
      ensures old(socket.outgoing) <= socket.outgoing <= old(socket.outgoing + Pending())
    {
      if ch == EOF {
        r := Sync();
        return;
      }
      if pptr == bufferSize {
        var ignored := Sync();
      }
      if pptr < bufferSize {
        outBuffer[pptr] := ch as Byte;
        pptr := pptr + 1;
        assert outBuffer[..pptr] == outBuffer[..pptr - 1] + [ch as Byte];
      } else {
        overrun := true;
      }
      r := ch;
    }

    /**
     Puts a sequence of bytes, writing the put area whenever it is full. The result is the
     number of bytes put; it falls short only when a write fails, and even then the socket has
     sent nothing but a prefix of what was put.
     */
    method Xsputn(s: seq<Byte>) returns (n: nat)
      requires Valid()
      modifies socket`plan, socket`outgoing, socket`failbit, this`pptr, this`overrun, outBuffer
      ensures Valid() && n <= |s|
      ensures n == |s| ==> socket.outgoing + Pending() == old(socket.outgoing + Pending()) + s
      ensures n < |s| ==> socket.failbit
      ensures old(socket.outgoing) <= socket.outgoing <= old(socket.outgoing + Pending()) + s[..n]
      ensures old(Sound()) ==> Sound() && n == |s|
      decreases |s|, if pptr == bufferSize then 1 else 0
    {
      var wval := bufferSize - pptr;
      ghost var was := socket.outgoing + Pending();
      if |s| <= wval {
        Store(s);
        assert s[..|s|] == s;
        return |s|;
      }
      Store(s[..wval]);
      assert socket.outgoing + Pending() == was + s[..wval];
      var r := Overflow(EOF);
      if r == EOF {
        return wval;
      }
      var k := Xsputn(s[wval..]);
      n := wval + k;
      assert was + s[..wval] + s[wval..][..k] == was + s[..n];
      assert k == |s[wval..]| ==> s[..wval] + s[wval..] == s;
      assert (was + s[..wval]) + s[wval..] == was + (s[..wval] + s[wval..]);
    }

    /** Copies bytes for which there is room into the put area. */
    method Store(s: seq<Byte>)
      requires Valid() && |s| <= bufferSize - pptr
      modifies this`pptr, outBuffer
      ensures Valid() && pptr == old(pptr) + |s| && Pending() == old(Pending()) + s
      ensures socket.outgoing + Pending() == old(socket.outgoing + Pending()) + s
    {
      Fill(outBuffer, pptr, s);
      pptr := pptr + |s|;
      assert socket.outgoing + Pending() == old(socket.outgoing) + (old(Pending()) + s);
    }

    // ------------------------------------------------------------------ getting

    method Underflow() returns (ch: int)
      requires Valid()
      modifies socket`plan, socket`incoming, socket`failbit, socket`eofbit, this`gptr, this`egptr, inBuffer
      ensures Valid() && Ahead() + socket.incoming == old(Ahead() + socket.incoming)
      ensures ch != EOF ==> Ahead() != [] && ch == Ahead()[0] as int
      ensures ch == EOF ==> Ahead() == []
      ensures old(Ahead()) != [] ==> Ahead() == old(Ahead())
      ensures old(Sound()) ==> Sound() && (ch == EOF <==> old(Ahead() + socket.incoming) == [])
    {
      if gptr < egptr {
        return inBuffer[gptr] as int;
      }
      var rlen, data, _ := socket.Read(inBuffer, 1, bufferSize, false, []);
      if rlen <= 0 {
        return EOF;
      }
      gptr, egptr := 0, rlen;
      ch := inBuffer[gptr] as int;
    }

    method Uflow() returns (ch: int)
      requires Valid()
      modifies socket`plan, socket`incoming, socket`failbit, socket`eofbit, this`gptr, this`egptr, inBuffer
      ensures Valid()
      ensures ch == EOF ==> Ahead() + socket.incoming == old(Ahead() + socket.incoming)
      ensures ch != EOF ==> 0 <= ch < 256 && [ch as Byte] + Ahead() + socket.incoming == old(Ahead() + socket.incoming)
      ensures old(Sound()) ==> Sound() && (ch == EOF <==> old(Ahead() + socket.incoming) == [])
    {
      ch := Underflow();
      if ch == EOF {
        return;
      }
      assert Ahead() == [ch as Byte] + inBuffer[gptr + 1..egptr];
      gptr := gptr + 1;
    }

    /** Takes `n` bytes, refilling the get area whenever it is empty; fewer only at the end. */
    method Xsgetn(n: nat) returns (s: seq<Byte>)
      requires Valid()
      modifies socket`plan, socket`incoming, socket`failbit, socket`eofbit, this`gptr, this`egptr, inBuffer
      ensures Valid() && |s| <= n
      ensures s + Ahead() + socket.incoming == old(Ahead() + socket.incoming)
      ensures |s| >= Min(n, |old(Ahead())|)
      ensures old(Sound()) ==> Sound() && |s| == Min(n, |old(Ahead() + socket.incoming)|)
      decreases n, if gptr == egptr then 1 else 0
    {
      var rval := egptr - gptr;
      if rval >= n {
        s := inBuffer[gptr..gptr + n];
        assert Ahead() == s + inBuffer[gptr + n..egptr];
        gptr := gptr + n;
        return;
      }
      var first := inBuffer[gptr..egptr];
      gptr := egptr;
      assert first + (Ahead() + socket.incoming) == old(Ahead() + socket.incoming);
      var ch := Underflow();
      if ch == EOF {
        return first;
      }
      ghost var rest := Ahead() + socket.incoming;
      var more := Xsgetn(n - rval);
      assert first + more + Ahead() + socket.incoming == first + (more + Ahead() + socket.incoming);
      s := first + more;
    }

    // --------------------------------------------------------------------- runs

    method PutOne(op: PutOp)
      requires Valid() && Sound()
      modifies socket`plan, socket`outgoing, socket`failbit, this`pptr, this`overrun, outBuffer
      ensures Valid() && Sound() && old(socket.outgoing) <= socket.outgoing
      ensures socket.outgoing + Pending() == old(socket.outgoing + Pending()) + BytesOf(op)
      ensures op.Flush? ==> Pending() == []
    {
      match op
      case PutByte(b) => var _ := Overflow(b as int);
      case PutBytes(bytes) => var _ := Xsputn(bytes);
      case Flush => var _ := Overflow(EOF);
    }

    /** Any sequence of put operations: the socket and the put area hold the bytes in order. */
    method PutAll(ops: seq<PutOp>)
      requires Valid() && Sound()
      modifies socket`plan, socket`outgoing, socket`failbit, this`pptr, this`overrun, outBuffer
      ensures Valid() && Sound()
      ensures socket.outgoing + Pending() == old(socket.outgoing + Pending()) + BytesPut(ops)
      ensures old(socket.outgoing) <= socket.outgoing
      ensures ops != [] && ops[|ops| - 1].Flush? ==> Pending() == []
    {
      ghost var was := socket.outgoing + Pending();
      assert was + BytesPut(ops[..0]) == was;
      for i := 0 to |ops|
        invariant Valid() && Sound() && old(socket.outgoing) <= socket.outgoing
        invariant socket.outgoing + Pending() == was + BytesPut(ops[..i])
        invariant 0 < i && ops[i - 1].Flush? ==> Pending() == []
      {
        assert ops[..i + 1][..i] == ops[..i];
        assert was + (BytesPut(ops[..i]) + BytesOf(ops[i])) == (was + BytesPut(ops[..i])) + BytesOf(ops[i]);
        PutOne(ops[i]);
      }
      assert ops[..|ops|] == ops;
    }

    /** Any sequence of bulk reads takes the bytes in order, as many as asked for while there are any. */
    method GetAll(sizes: seq<nat>) returns (got: seq<Byte>)
      requires Valid() && Sound()
      modifies socket`plan, socket`incoming, socket`failbit, socket`eofbit, this`gptr, this`egptr, inBuffer
      ensures Valid() && Sound()
      ensures got + Ahead() + socket.incoming == old(Ahead() + socket.incoming)
      ensures |got| == Min(Total(sizes), |old(Ahead() + socket.incoming)|)
    {
      got := [];
      ghost var all := Ahead() + socket.incoming;
      for i := 0 to |sizes|
        invariant Valid() && Sound() && got + (Ahead() + socket.incoming) == all
        invariant |got| == Min(Total(sizes[..i]), |all|)
      {
        assert sizes[..i + 1][..i] == sizes[..i];
        ghost var rest := Ahead() + socket.incoming;
        var s := Xsgetn(sizes[i]);
        Regroup(got, s, Ahead(), socket.incoming);
        got := got + s;
      }
      assert sizes[..|sizes|] == sizes;
      Regroup(got, Ahead(), socket.incoming, []);
    }
  }

  lemma Regroup(a: seq<Byte>, b: seq<Byte>, c: seq<Byte>, d: seq<Byte>)
    ensures a + (b + c + d) == (a + b) + (c + d)
    ensures d == [] ==> a + b + c == a + (b + c)
  {}

  datatype PutOp = PutByte(b: Byte) | PutBytes(bytes: seq<Byte>) | Flush

  function BytesOf(op: PutOp): seq<Byte> {
    match op
    case PutByte(b) => [b]
    case PutBytes(bytes) => bytes
    case Flush => []
  }

  function BytesPut(ops: seq<PutOp>): seq<Byte> {
    if ops == [] then [] else BytesPut(ops[..|ops| - 1]) + BytesOf(ops[|ops| - 1])
  }

  function Total(sizes: seq<nat>): nat {
    if sizes == [] then 0 else Total(sizes[..|sizes| - 1]) + sizes[|sizes| - 1]
  }

  /** A byte put into a full buffer whose socket refuses goes behind the buffer. */
  method ByteBehindTheBuffer() returns (b: SocketBuffer)
    ensures fresh(b) && b.overrun
  {
    var socket := new UnixSocket([], []);
    b := new SocketBuffer(socket, 1);
    var r := b.Overflow(65);
    socket.isOpen := false;
    r := b.Overflow(66);
  }

  /**
   Transparency: two buffers, the stream one sends being what the other receives. What is got
   is a prefix of what was put, whatever pieces the kernel moves, and all of it once the
   sender has flushed and the receiver has asked for enough.
   */
  method Transmit(a: SocketBuffer, b: SocketBuffer, ops: seq<PutOp>, sizes: seq<nat>) returns (got: seq<Byte>)
    requires a != b && a.socket != b.socket
    requires a.Valid() && a.Sound() && a.Pending() == [] && a.socket.outgoing == []
    requires b.Valid() && b.Sound() && b.Ahead() == []
    requires {a.inBuffer, a.outBuffer} !! {b.inBuffer, b.outBuffer}
    modifies a, a.socket, a.outBuffer, b, b.socket, b.inBuffer
    ensures got <= BytesPut(ops)
    ensures ops != [] && ops[|ops| - 1].Flush? ==> |got| == Min(Total(sizes), |BytesPut(ops)|)
    ensures ops != [] && ops[|ops| - 1].Flush? && Total(sizes) >= |BytesPut(ops)| ==> got == BytesPut(ops)
  {
    a.PutAll(ops);
    b.socket.incoming := a.socket.outgoing;
    assert b.Ahead() + b.socket.incoming == a.socket.outgoing;
    got := b.GetAll(sizes);
    assert got <= got + b.Ahead() <= a.socket.outgoing;
    assert a.socket.outgoing + a.Pending() == BytesPut(ops);
  }

  /** Operations at both ends, in the order in which they happen. */
  datatype TalkOp = Put(op: PutOp) | Take(n: nat)

  function BytesTalked(ops: seq<TalkOp>): seq<Byte> {
    if ops == [] then []
    else BytesTalked(ops[..|ops| - 1]) + if ops[|ops| - 1].Put? then BytesOf(ops[|ops| - 1].op) else []
  }

  /** What a socket has sent since it had sent `n` bytes arrives behind what is on its way. */
  method Carry(a: UnixSocket, b: UnixSocket, n: nat)
    requires a != b && n <= |a.outgoing|
    modifies b`incoming
    ensures b.incoming == old(b.incoming) + a.outgoing[n..]
  {
    b.incoming := b.incoming + a.outgoing[n..];
  }

  lemma Arrives(got: seq<Byte>, ahead: seq<Byte>, incoming: seq<Byte>, sent: seq<Byte>, outgoing: seq<Byte>)
    requires sent == got + (ahead + incoming) && sent <= outgoing
    ensures outgoing == got + (ahead + (incoming + outgoing[|sent|..]))
  {}

  /**
   Puts and gets in any order: at every moment, what is got is a prefix of what was put. A get
   happens when there is enough for it. What the receiver lacks is on its way or in the put area.
   */
  method Converse(a: SocketBuffer, b: SocketBuffer, ops: seq<TalkOp>) returns (got: seq<Byte>)
    requires a != b && a.socket != b.socket
    requires a.Valid() && a.Sound() && a.Pending() == [] && a.socket.outgoing == []
    requires b.Valid() && b.Sound() && b.Ahead() == [] && b.socket.incoming == []
    requires {a.inBuffer, a.outBuffer} !! {b.inBuffer, b.outBuffer}
    modifies a, a.socket, a.outBuffer, b, b.socket, b.inBuffer
    ensures a.Valid() && b.Valid()
    ensures got <= BytesTalked(ops)
    ensures BytesTalked(ops) == got + (b.Ahead() + b.socket.incoming) + a.Pending()
    ensures ops != [] && ops[|ops| - 1] == Put(Flush) ==> a.Pending() == []
  {
    got := [];
    for i := 0 to |ops|
      invariant a.Valid() && a.Sound() && b.Valid() && b.Sound()
      invariant a.socket.outgoing == got + (b.Ahead() + b.socket.incoming)
      invariant a.socket.outgoing + a.Pending() == BytesTalked(ops[..i])
      invariant 0 < i && ops[i - 1] == Put(Flush) ==> a.Pending() == []
    {
      assert ops[..i + 1][..i] == ops[..i];
      match ops[i]
      case Put(op) =>
        ghost var sent, incoming := a.socket.outgoing, b.socket.incoming;
        var n := |a.socket.outgoing|;
        a.PutOne(op);
        Carry(a.socket, b.socket, n);
        Arrives(got, b.Ahead(), incoming, sent, a.socket.outgoing);
      case Take(n) =>
        if n <= b.egptr - b.gptr + |b.socket.incoming| {
          var s := b.Xsgetn(n);
          Regroup(got, s, b.Ahead(), b.socket.incoming);
          got := got + s;
        }
    }
    assert ops[..|ops|] == ops;
  }
}
