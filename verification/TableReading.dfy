/**
 Reading a file of tables back. The writer of `TableFile` lays out a header and blocks of eight
 byte alignment; a reader that undoes the byte order of single numbers gets back every field of
 the header and every table, after any number of tables was written.
 */
module TableReading {
  import opened Basics
  import opened TableFile

  /** The reading side of an order of bytes. */
  datatype Undo = Undo(host16: seq<Byte> -> nat, host32: seq<Byte> -> nat)
  {
    ghost predicate Undoes(o: Order) {
      && o.Valid()
      && (forall v: nat {:trigger o.net16(v)} :: v < U16 ==> host16(o.net16(v)) == v)
      && (forall v: nat {:trigger o.net32(v)} :: v < U32 ==> host32(o.net32(v)) == v)
    }
  }

  // ----------------------------------------------------------------- the reader

  datatype Reading<+T> = TooShort | Read(value: T)

  function UpToZero(s: seq<Byte>): seq<Byte> {
    if s == [] || s[0] == 0 then [] else [s[0]] + UpToZero(s[1..])
  }

  function ReadHeader(u: Undo, file: seq<Byte>): Reading<Header> {
    if |file| < FIXEDHEADER then TooShort
    else
      var version := UpToZero(file[14..]);
      if |file| <= 14 + |version| then TooShort
      else
        Read(Header(u.host32(file[..4]), u.host32(file[4..8]), u.host32(file[8..12]), u.host16(file[12..14]),
                    version, UpToZero(file[14 + |version| + 1..])))
  }

  /** A number of `w` bytes with its sign. */
  function Signed(v: nat, w: nat): int { if v <= Largest(w) then v else v - 2 * (Largest(w) + 1) }

  function ReadElement(u: Undo, bytes: seq<Byte>, w: nat): int
    requires |bytes| == w && Width(w)
  {
    Signed(if w == 1 then bytes[0] as nat else if w == 2 then u.host16(bytes) else u.host32(bytes), w)
  }

  function ReadData(u: Undo, bytes: seq<Byte>, w: nat, count: nat): seq<int>
    requires Width(w) && w * count == |bytes|
  {
    if count == 0 then []
    else
      ReadData(u, bytes[..|bytes| - w], w, count - 1) + [ReadElement(u, bytes[|bytes| - w..], w)]
  }

  /** The width and the number of elements, which follow from the flags and the lengths. */
  datatype Shape = Shape(width: nat, count: nat)

  function ReadEntry(u: Undo, bytes: seq<Byte>, s: Shape): Reading<Entry> {
    var size := 12 + s.width * s.count;
    if !Width(s.width) || |bytes| < size then TooShort
    else
      Read(Entry(u.host16(bytes[..2]), u.host16(bytes[2..4]), u.host32(bytes[4..8]), u.host32(bytes[8..12]),
                 s.width, ReadData(u, bytes[12..size], s.width, s.count)))
  }

  /** Reads block after block; every block starts at a multiple of eight bytes. */
  function ReadBlocks(u: Undo, bytes: seq<Byte>, shapes: seq<Shape>): Reading<seq<Entry>> {
    if shapes == [] then Read([])
    else
      var size := 12 + shapes[0].width * shapes[0].count;
      match ReadEntry(u, bytes, shapes[0])
      case TooShort => TooShort
      case Read(e) =>
        if |bytes| < size + Pad64(size) then TooShort
        else
          match ReadBlocks(u, bytes[size + Pad64(size)..], shapes[1..])
          case TooShort => TooShort
          case Read(rest) => Read([e] + rest)
  }

  function ShapesOf(entries: seq<Entry>): seq<Shape> {
    if entries == [] then [] else [Shape(entries[0].width, |entries[0].data|)] + ShapesOf(entries[1..])
  }

  // ---------------------------------------------------------------- round trips

  /** The fields in front of the elements are where the reader looks for them. */
  lemma Fields(a: seq<Byte>, b: seq<Byte>, c: seq<Byte>, d: seq<Byte>, data: seq<Byte>, rest: seq<Byte>)
    requires |a| == 2 && |b| == 2 && |c| == 4 && |d| == 4
    ensures var s := a + (b + (c + (d + data))) + rest;
            && s[..2] == a && s[2..4] == b && s[4..8] == c && s[8..12] == d
            && s[12..12 + |data|] == data
  {}

  lemma Cut(a: seq<Byte>, b: seq<Byte>, c: seq<Byte>)
    ensures a + b + c == a + (b + c) && (a + b + c)[|a| + |b|..] == c
  {}

  lemma {:induction false} UpToZeroIs(s: seq<Byte>, rest: seq<Byte>)
    requires 0 !in s
    ensures UpToZero(s + [0] + rest) == s
  {
    if s != [] {
      assert (s + [0] + rest)[1..] == s[1..] + [0] + rest;
      UpToZeroIs(s[1..], rest);
    }
  }

  /** Every field of a header is read as it was written. */
  lemma {:induction false} HeaderReadsBack(o: Order, u: Undo, h: Header, rest: seq<Byte>)
    requires u.Undoes(o) && h.Valid()
    ensures ReadHeader(u, HeaderBytes(o, h) + rest) == Read(h)
  {
    var file := HeaderBytes(o, h) + rest;
    assert file[..4] == o.net32(h.magic) && file[4..8] == o.net32(h.hsize);
    assert file[8..12] == o.net32(h.ssize) && file[12..14] == o.net16(h.flags);
    assert file[14..] == h.version + [0] + (h.name + [0] + rest);
    UpToZeroIs(h.version, h.name + [0] + rest);
    assert file[14 + |h.version| + 1..] == h.name + [0] + rest;
    UpToZeroIs(h.name, rest);
  }

  lemma {:induction false} ElementReadsBack(o: Order, u: Undo, x: int, w: nat)
    requires u.Undoes(o) && Width(w) && Fits(x, w)
    ensures |ElementBytes(o, x, w)| == w && ReadElement(u, ElementBytes(o, x, w), w) == x
  {
    if w == 1 {
      assert x % 256 == if x >= 0 then x else x + 256;
    } else if w == 2 {
      assert x % U16 == if x >= 0 then x else x + U16;
    } else {
      assert x % U32 == if x >= 0 then x else x + U32;
    }
  }

  lemma LastRead(u: Undo, front: seq<Byte>, last: seq<Byte>, w: nat, count: nat)
    requires Width(w) && |last| == w && w * count == |front|
    ensures w * (count + 1) == |front + last|
    ensures ReadData(u, front + last, w, count + 1) == ReadData(u, front, w, count) + [ReadElement(u, last, w)]
  {
    var bytes := front + last;
    assert bytes[..|bytes| - w] == front && bytes[|bytes| - w..] == last;
  }

  /** All elements are there, and are read with their sign. */
  predicate ReadsBack(o: Order, u: Undo, data: seq<int>, w: nat)
    requires Width(w)
  {
    var bytes := DataBytes(o, data, w);
    w * |data| == |bytes| && ReadData(u, bytes, w, |data|) == data
  }

  lemma {:induction false} OneMoreRead(o: Order, u: Undo, before: seq<int>, x: int, w: nat)
    requires u.Undoes(o) && Width(w) && Fits(x, w) && ReadsBack(o, u, before, w)
    ensures ReadsBack(o, u, before + [x], w)
  {
    var data := before + [x];
    assert data[..|data| - 1] == before && data[|data| - 1] == x;
    ElementReadsBack(o, u, x, w);
    LastRead(u, DataBytes(o, before, w), ElementBytes(o, x, w), w, |before|);
  }

  lemma {:induction false} DataReadsBack(o: Order, u: Undo, data: seq<int>, w: nat)
    requires u.Undoes(o) && Width(w) && AllFit(data, w)
    ensures ReadsBack(o, u, data, w)
    decreases |data|
  {
    if data == [] {
      NothingRead(o, u, w);
    } else {
      var before, x := data[..|data| - 1], data[|data| - 1];
      DataReadsBack(o, u, before, w);
      OneMoreRead(o, u, before, x, w);
      assert before + [x] == data;
    }
  }

  lemma {:induction false} NothingRead(o: Order, u: Undo, w: nat)
    requires Width(w)
    ensures ReadsBack(o, u, [], w)
  {
    assert DataBytes(o, [], w) == [];
    assert w * 0 == 0;
  }

  /** A table is read back from its bytes, whatever follows them. */
  lemma {:induction false} EntryReadsBack(o: Order, u: Undo, e: Entry, rest: seq<Byte>)
    requires u.Undoes(o) && e.Valid()
    ensures ReadEntry(u, EntryBytes(o, e) + rest, Shape(e.width, |e.data|)) == Read(e)
  {
    EntrySize(o, e);
    DataReadsBack(o, u, e.data, e.width);
    Fields(o.net16(e.id), o.net16(e.flags), o.net32(e.hilen), o.net32(e.lolen), DataBytes(o, e.data, e.width), rest);
  }

  lemma {:induction false} BlockRead(o: Order, u: Undo, e: Entry, rest: seq<Byte>, shapes: seq<Shape>)
    requires u.Undoes(o) && e.Valid() && ReadBlocks(u, rest, shapes).Read?
    ensures ReadBlocks(u, Padded(EntryBytes(o, e)) + rest, [Shape(e.width, |e.data|)] + shapes)
         == Read([e] + ReadBlocks(u, rest, shapes).value)
  {
    var block, all := EntryBytes(o, e), [Shape(e.width, |e.data|)] + shapes;
    EntrySize(o, e);
    Cut(block, Zeros(Pad64(|block|)), rest);
    EntryReadsBack(o, u, e, Zeros(Pad64(|block|)) + rest);
    assert all[0] == Shape(e.width, |e.data|) && all[1..] == shapes;
  }

  lemma {:induction false} BlocksReadBack(o: Order, u: Undo, entries: seq<Entry>)
    requires u.Undoes(o) && forall e | e in entries :: e.Valid()
    ensures ReadBlocks(u, Blocks(o, entries), ShapesOf(entries)) == Read(entries)
  {
    if entries != [] {
      var e, rest := entries[0], entries[1..];
      BlocksReadBack(o, u, rest);
      BlockRead(o, u, e, Blocks(o, rest), ShapesOf(rest));
      assert entries == [e] + rest;
    }
  }

  /** Header and tables are read back from a file of any number of tables. */
  lemma {:induction false} FileReadsBack(o: Order, u: Undo, magic: nat, version: seq<Byte>, name: seq<Byte>,
                                         entries: seq<Entry>)
    requires u.Undoes(o) && magic < U32 && 0 !in version && 0 !in name && AnnouncedSize(version, name) < U32
    requires forall e | e in entries :: e.Valid()
    ensures var file, h := FileOf(o, magic, version, name, entries), HeaderFor(o, magic, version, name, entries);
            && ReadHeader(u, file) == Read(h)
            && h.hsize <= |file| && ReadBlocks(u, file[h.hsize..], ShapesOf(entries)) == Read(entries)
            && (entries != [] ==> h.ssize == |file| % U32)
  {
    var file, h := FileOf(o, magic, version, name, entries), HeaderFor(o, magic, version, name, entries);
    var bytes, blocks := HeaderBytes(o, h), Blocks(o, entries);
    var pad := Zeros(Pad64(|bytes|));
    HeaderLength(o, h);
    Cut(bytes, pad, blocks);
    HeaderReadsBack(o, u, h, pad + blocks);
    BlocksReadBack(o, u, entries);
  }
}
