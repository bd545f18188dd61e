/** Notions shared by the parts of the model that move bytes and lines around. */
module Basics {

  // Values of type `size_t` are below this number.
  const SIZET: nat := 0x1_0000_0000_0000_0000

  // Values of type `uint32_t` and `unsigned int` are below this one.
  const U32: nat := 0x1_0000_0000

  newtype Byte = x: int | 0 <= x < 256

  function Min(a: nat, b: nat): nat { if a <= b then a else b }

  /** Conversion to `size_t`. */
  function SizeT(n: nat): (r: nat)
    ensures r < SIZET && r <= n
  {
    n % SIZET
  }

  lemma SizeTAdd(a: nat, b: nat)
    ensures SizeT(SizeT(a) + b) == SizeT(a + b)
  {}

  /** Conversion to `uint32_t`. */
  function Uint32(n: nat): (r: nat)
    ensures r < U32 && r <= n
  {
    n % U32
  }

  lemma Uint32Add(a: nat, b: nat)
    ensures Uint32(Uint32(a) + b) == Uint32(a + b)
  {}

  lemma Uint32Small(n: nat)
    requires n < U32
    ensures Uint32(n) == n
  {}

  /** What `f` makes of the elements, one after the other. */
  function Concat<T, U>(f: T --> seq<U>, ss: seq<T>): seq<U>
    requires forall i | 0 <= i < |ss| :: f.requires(ss[i])
  {
    if ss == [] then [] else f(ss[0]) + Concat(f, ss[1..])
  }

  lemma {:induction false} ConcatSnoc<T, U>(f: T --> seq<U>, ss: seq<T>, s: T)
    requires f.requires(s) && forall i | 0 <= i < |ss| :: f.requires(ss[i])
    ensures Concat(f, ss + [s]) == Concat(f, ss) + f(s)
    decreases |ss|
  {
    if ss == [] {
      assert ss + [s] == [s] && [s][1..] == [];
    } else {
      assert (ss + [s])[1..] == ss[1..] + [s];
      ConcatSnoc(f, ss[1..], s);
      assert f(ss[0]) + (Concat(f, ss[1..]) + f(s)) == (f(ss[0]) + Concat(f, ss[1..])) + f(s);
    }
  }

  /** All parts, one after the other. */
  function Flat<T>(parts: seq<seq<T>>): seq<T> {
    if parts == [] then [] else Flat(parts[..|parts| - 1]) + parts[|parts| - 1]
  }

  lemma FlatSnoc<T>(parts: seq<seq<T>>, p: seq<T>)
    ensures Flat(parts + [p]) == Flat(parts) + p
  {
    assert (parts + [p])[..|parts|] == parts;
  }

  lemma {:induction false} FlatAppend<T>(a: seq<seq<T>>, b: seq<seq<T>>)
    ensures Flat(a + b) == Flat(a) + Flat(b)
    decreases |b|
  {
    if b == [] {
      assert a + b == a;
    } else {
      assert a + b == (a + b[..|b| - 1]) + [b[|b| - 1]];
      FlatSnoc(a + b[..|b| - 1], b[|b| - 1]);
      FlatAppend(a, b[..|b| - 1]);
    }
  }
}
