/**
 The stream socket under UNIX. The kernel moves as many bytes at a time as it likes, is
 interrupted, or fails; the loops of the socket hide all but the failures.
 */
module UnixSockets {
  import opened Basics

  /** What the next system call does: `Moves` transfers at least one byte and at most `limit`. */
  datatype Answer = Interrupted | Fails | Moves(limit: nat)

  /** How many of `n` bytes a call moves. */
  function Portion(limit: nat, n: nat): (r: nat)
    ensures r <= n && (n > 0 ==> r > 0)
  {
    if limit >= n then n else if limit == 0 && n > 0 then 1 else limit
  }

  /** No call fails; there may be any chunking and any interruptions. */
  predicate NeverFails(plan: seq<Answer>) { Fails !in plan }

  /** What waiting for data with a time limit comes to. */
  datatype Wait = Ready | TimedOut | WaitFails

  /** What round `i` of waiting comes to. */
  function WaitAt(waits: seq<Wait>, limited: bool, i: nat): Wait {
    if limited && i < |waits| then waits[i] else Ready
  }

  /**
   The answers `before` were used up to `after`: none of them a failure if `ok`, and otherwise up
   to and including the first failure.
   */
  ghost predicate UsedUp(before: seq<Answer>, after: seq<Answer>, ok: bool) {
    exists k: nat :: UsedTo(before, after, ok, k)
  }

  predicate UsedTo(before: seq<Answer>, after: seq<Answer>, ok: bool, k: nat) {
    && k <= |before| && after == before[k..]
    && if ok then Fails !in before[..k] else k > 0 && before[k - 1] == Fails && Fails !in before[..k - 1]
  }

  lemma UsedFurther(a: seq<Answer>, b: seq<Answer>, c: seq<Answer>, ok: bool)
    requires UsedUp(a, b, true) && UsedUp(b, c, ok)
    ensures UsedUp(a, c, ok)
  {
    var j: nat :| UsedTo(a, b, true, j);
    var k: nat :| UsedTo(b, c, ok, k);
    assert c == a[j + k..] && a[..j + k] == a[..j] + b[..k];
    if !ok { assert a[..j + k - 1] == a[..j] + b[..k - 1] && a[j + k - 1] == b[k - 1]; }
    assert UsedTo(a, c, ok, j + k);
  }

  lemma NothingUsed(a: seq<Answer>)
    ensures UsedUp(a, a, true)
  {
    assert UsedTo(a, a, true, 0);
  }

  lemma Joined(a: seq<Byte>, b: seq<Byte>, c: seq<Byte>)
    ensures a + (b + c) == (a + b) + c
  {}

  class UnixSocket {
    var isOpen: bool
    var plan: seq<Answer>    // what system calls will do; at the end they move all they can
    var outgoing: seq<Byte>  // accepted by the kernel so far
    var incoming: seq<Byte>  // what the peer has sent or will send until it closes
    var failbit: bool
    var eofbit: bool

    constructor (plan: seq<Answer>, incoming: seq<Byte>)
      ensures isOpen && this.plan == plan && outgoing == [] && this.incoming == incoming
      ensures !failbit && !eofbit
    {
      this.plan, this.incoming := plan, incoming;
      isOpen, outgoing, failbit, eofbit := true, [], false, false;
    }

    method NextAnswer(n: nat) returns (a: Answer)
      modifies this`plan
      ensures if old(plan) == [] then a == Moves(n) && plan == [] else a == old(plan)[0] && plan == old(plan)[1..]
      ensures UsedUp(old(plan), plan, !a.Fails?)
    {
      if plan == [] {
        NothingUsed(plan);
      } else {
        assert UsedTo(plan, plan[1..], !plan[0].Fails?, 1);
      }
      if plan == [] {
        a := Moves(n);
      } else {
        a, plan := plan[0], plan[1..];
      }
    }

    /** The system call `send`, repeated while it is interrupted; a negative result is an error. */
    method Send(data: seq<Byte>) returns (rc: int)
      modifies this`plan, this`outgoing
      ensures rc >= 0 ==> rc <= |data| && (|data| > 0 ==> rc > 0) && outgoing == old(outgoing) + data[..rc]
      ensures rc < 0 ==> outgoing == old(outgoing) && !NeverFails(old(plan))
      ensures NeverFails(old(plan)) ==> NeverFails(plan)
      ensures UsedUp(old(plan), plan, rc >= 0)
    {
      var a := NextAnswer(|data|);
      while a.Interrupted?
        invariant outgoing == old(outgoing) && UsedUp(old(plan), plan, !a.Fails?)
        invariant NeverFails(old(plan)) ==> NeverFails(plan) && !a.Fails?
        decreases |plan|, a.Interrupted?
      {
        ghost var used := plan;
        a := NextAnswer(|data|);
        UsedFurther(old(plan), used, plan, !a.Fails?);
      }
      if a.Fails? {
        rc := -1;
      } else {
        rc := Portion(a.limit, |data|);
        outgoing := outgoing + data[..rc];
      }
    }

    /** The system call `read`, repeated while it is interrupted; 0 means that the peer has closed. */
    method Receive(n: nat) returns (rc: int, data: seq<Byte>)
      modifies this`plan, this`incoming
      ensures rc < 0 ==> data == [] && incoming == old(incoming) && !NeverFails(old(plan))
      ensures rc >= 0 ==> rc == |data| <= n && old(incoming) == data + incoming
      ensures rc == 0 ==> n == 0 || old(incoming) == []
      ensures NeverFails(old(plan)) ==> NeverFails(plan)
      ensures UsedUp(old(plan), plan, rc >= 0)
    {
      data := [];
      var a := NextAnswer(n);
      while a.Interrupted?
        invariant incoming == old(incoming) && UsedUp(old(plan), plan, !a.Fails?)
        invariant NeverFails(old(plan)) ==> NeverFails(plan) && !a.Fails?
        decreases |plan|, a.Interrupted?
      {
        ghost var used := plan;
        a := NextAnswer(n);
        UsedFurther(old(plan), used, plan, !a.Fails?);
      }
      if a.Fails? {
        rc := -1;
      } else {
        var k := Portion(a.limit, Min(n, |incoming|));
        rc, data, incoming := k, incoming[..k], incoming[k..];
      }
    }

    /** Sends what it can of `buf[at..last]`, `buf[first..at]` being sent already. */
    method SendPiece(buf: array<Byte>, first: nat, at: nat, last: nat, ghost before: seq<Byte>, ghost answers: seq<Answer>)
      returns (rc: int)
      requires first <= at <= last <= buf.Length && outgoing == before + buf[first..at]
      requires UsedUp(answers, plan, true)
      modifies this`plan, this`outgoing
      ensures rc <= last - at && (rc >= 0 && at < last ==> rc > 0)
      ensures rc >= 0 ==> outgoing == before + buf[first..at + rc]
      ensures rc < 0 ==> outgoing == old(outgoing) && !NeverFails(old(plan))
      ensures (NeverFails(old(plan)) ==> NeverFails(plan)) && UsedUp(answers, plan, rc >= 0)
    {
      ghost var used := plan;
      rc := Send(buf[at..last]);
      UsedFurther(answers, used, plan, rc >= 0);
      if rc >= 0 {
        assert buf[first..at] + buf[at..last][..rc] == buf[first..at + rc];
        Joined(before, buf[first..at], buf[at..last][..rc]);
      }
    }

    /** Writes `buf[first..last]`, in as many pieces as it takes; `sent` bytes were accepted. */
    method Write(buf: array<Byte>, first: nat, last: nat) returns (ok: bool, ghost sent: nat)
      requires first <= last <= buf.Length
      modifies this`plan, this`outgoing, this`failbit
      ensures sent <= last - first && outgoing == old(outgoing) + buf[first..first + sent]
      ensures ok ==> sent == last - first
      ensures !ok && first < last ==> sent < last - first
      ensures !old(isOpen) ==> !ok && sent == 0
      ensures NeverFails(old(plan)) ==> NeverFails(plan)
      ensures NeverFails(old(plan)) && isOpen ==> ok && failbit == old(failbit)
      ensures !ok ==> failbit
      ensures ok ==> failbit == old(failbit)
      ensures isOpen ==> UsedUp(old(plan), plan, ok)
    {
      sent := 0;
      NothingUsed(plan);
      if !isOpen {
        failbit := true;
        return false, 0;
      }
      var at := first;
      while true
        invariant first <= at <= last && sent == at - first && (at == last ==> first == last)
        invariant outgoing == old(outgoing) + buf[first..at] && failbit == old(failbit)
        invariant (NeverFails(old(plan)) ==> NeverFails(plan)) && UsedUp(old(plan), plan, true)
        decreases last - at
      {
        var rc := SendPiece(buf, first, at, last, old(outgoing), old(plan));
        if rc < 0 {
          failbit := true;
          return false, sent;
        }
        at := at + rc;
        sent := sent + rc;
        if at == last {
          break;
        }
      }
      ok := true;
    }

    /**
     Reads until `minSize` bytes are there; returns their number, or -1 if that is out of reach.
     With a time limit, `waits` is what waiting comes to, round by round; the bytes that are there
     when time is up are returned, fewer than asked for.
     */
    method Read(buf: array<Byte>, minSize: nat, maxSize: nat, limited: bool, waits: seq<Wait>)
      returns (size: int, ghost data: seq<Byte>, ghost rounds: nat)
      requires maxSize <= buf.Length
      modifies this`plan, this`incoming, this`failbit, this`eofbit, buf
      ensures old(incoming) == data + incoming && |data| <= maxSize && buf[..|data|] == data
      ensures size == -1 || size == |data|
      ensures size == -1 ==> failbit
      ensures size >= 0 ==> failbit == old(failbit) && eofbit == old(eofbit)
      ensures rounds == 0 <==> !isOpen
      ensures isOpen ==>
                && (forall i: nat | i < rounds - 1 :: WaitAt(waits, limited, i).Ready?)
                && match WaitAt(waits, limited, rounds - 1) {
                     case Ready => size == -1 || size >= minSize
                     case TimedOut => size == |data|
                     case WaitFails => size == -1
                   }
      ensures size >= 0 && (size < minSize || size == 0) ==> exists i: nat :: WaitAt(waits, limited, i).TimedOut?
      ensures NeverFails(old(plan)) ==> NeverFails(plan)
      ensures NeverFails(old(plan)) && isOpen && (forall i: nat :: WaitAt(waits, limited, i).Ready?) ==>
                (size == -1 <==> maxSize == 0 || minSize > maxSize || |old(incoming)| < minSize || old(incoming) == [])
      ensures NeverFails(old(plan)) && isOpen && (forall i: nat :: WaitAt(waits, limited, i).Ready?) && size == -1 ==> eofbit
      ensures minSize <= 1 && size == -1 ==> data == []
    {
      data, rounds := [], 0;
      if !isOpen {
        failbit := true;
        return -1, data, 0;
      }
      var n: nat, round: nat := 0, 0;
      while true
        invariant n == |data| <= maxSize && (n > 0 ==> n < minSize)
        invariant old(incoming) == data + incoming && buf[..n] == data
        invariant NeverFails(old(plan)) ==> NeverFails(plan)
        invariant failbit == old(failbit) && eofbit == old(eofbit) && rounds == round
        invariant forall i: nat | i < round :: WaitAt(waits, limited, i).Ready?
        decreases maxSize - n
      {
        var wait := WaitAt(waits, limited, round);
        round, rounds := round + 1, round + 1;
        if wait.WaitFails? {
          failbit := true;
          return -1, data, rounds;
        }
        if wait.TimedOut? {
          return n, data, rounds;
        }
        var rc, piece := Receive(maxSize - n);
        if rc < 0 {
          failbit := true;
          return -1, data, rounds;
        }
        if rc == 0 {
          failbit, eofbit := true, true;
          assert piece == [];
          return -1, data, rounds;
        }
        Fill(buf, n, piece);
        Joined(data, piece, incoming);
        data, n := data + piece, n + rc;
        if n >= minSize {
          break;
        }
      }
      size := n;
    }

    /** Reads exactly `size` bytes, with at least one system call. */
    method ReadExactly(buf: array<Byte>, size: nat) returns (ok: bool, ghost data: seq<Byte>)
      requires size <= buf.Length
      modifies this`plan, this`incoming, this`failbit, this`eofbit, buf
      ensures old(incoming) == data + incoming && |data| <= size && buf[..|data|] == data
      ensures ok ==> |data| == size > 0
      ensures NeverFails(old(plan)) ==> NeverFails(plan)
      ensures NeverFails(old(plan)) && isOpen ==> (ok <==> 0 < size <= |old(incoming)|)
      ensures !ok ==> failbit
      ensures ok ==> failbit == old(failbit) && eofbit == old(eofbit)
      ensures NeverFails(old(plan)) && isOpen && !ok ==> eofbit
    {
      data := [];
      if !isOpen {
        failbit := true;
        return false, data;
      }
      var n := 0;
      while true
        invariant n == |data| <= size && (n > 0 ==> n < size)
        invariant old(incoming) == data + incoming && buf[..n] == data
        invariant (NeverFails(old(plan)) ==> NeverFails(plan)) && failbit == old(failbit) && eofbit == old(eofbit)
        decreases size - n
      {
        var rc, piece := Receive(size - n);
        if rc <= 0 {
          failbit, eofbit := true, eofbit || rc == 0;
          return false, data;
        }
        Fill(buf, n, piece);
        Joined(data, piece, incoming);
        data, n := data + piece, n + rc;
        if n == size {
          break;
        }
      }
      ok := true;
    }
  }

  /** Copies `data` into `buf` from position `at` on. */
  method Fill(buf: array<Byte>, at: nat, data: seq<Byte>)
    requires at + |data| <= buf.Length
    modifies buf
    ensures buf[..] == old(buf[..at]) + data + old(buf[at + |data|..])
    ensures buf[..at + |data|] == old(buf[..at]) + data
  {
    forall k | 0 <= k < |data| {
      buf[at + k] := data[k];
    }
  }
}
