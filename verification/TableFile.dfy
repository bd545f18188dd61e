/**
 Serialised scanner tables. Before a table is written its elements are narrowed to the fewest
 bytes that hold the largest absolute value; the file is padded to multiples of eight bytes,
 and a size field in its header is corrected after every table.
 */
module TableFile {
  import opened Basics

  const INT8MAX: int := 127
  const INT16MAX: int := 32767
  const INT32MAX: int := 2147483647
  const INT32MIN: int := -2147483648

  // ------------------------------------------------------------------ narrowing

  predicate Width(w: nat) { w == 1 || w == 2 || w == 4 }

  function Largest(w: nat): int { if w == 1 then INT8MAX else if w == 2 then INT16MAX else INT32MAX }

  /** The values a signed integer of `w` bytes can have. */
  predicate Fits(x: int, w: nat) { -Largest(w) - 1 <= x <= Largest(w) }

  /** Conversion to a signed integer of `w` bytes. */
  function Narrow(x: int, w: nat): (r: int)
    ensures Fits(r, w) && (Fits(x, w) ==> r == x)
  {
    var range := 2 * (Largest(w) + 1);
    var u := x % range;
    if u <= Largest(w) then u else u - range
  }

  /** The library function `abs`: the smallest integer has no absolute value and stays. */
  function Abs(x: int): int {
    if x == INT32MIN then x else if x < 0 then -x else x
  }

  function MaxAbs(data: seq<int>): nat {
    if data == [] then 0
    else
      var m, n := MaxAbs(data[..|data| - 1]), Abs(data[|data| - 1]);
      if n > m then n else m
  }

  function SizeFor(m: nat): (w: nat)
    ensures Width(w)
  {
    if m <= INT8MAX then 1 else if m <= INT16MAX then 2 else 4
  }

  function Narrowed(data: seq<int>, w: nat): (r: seq<int>)
    ensures |r| == |data| && forall i | 0 <= i < |data| :: r[i] == Narrow(data[i], w)
  {
    seq(|data|, i requires 0 <= i < |data| => Narrow(data[i], w))
  }

  /** The maximum is reached, and bounds all elements except the smallest integer. */
  lemma {:induction false} MaxAbsIs(data: seq<int>)
    ensures forall i | 0 <= i < |data| :: Abs(data[i]) <= MaxAbs(data)
    ensures MaxAbs(data) > 0 ==> exists i :: 0 <= i < |data| && Abs(data[i]) == MaxAbs(data)
    decreases |data|
  {
    if data != [] {
      var rest := data[..|data| - 1];
      MaxAbsIs(rest);
      forall i | 0 <= i < |data| ensures Abs(data[i]) <= MaxAbs(data) {
        if i < |rest| { assert data[i] == rest[i]; }
      }
      if MaxAbs(data) > 0 {
        if Abs(data[|data| - 1]) == MaxAbs(data) {
        } else {
          var i :| 0 <= i < |rest| && Abs(rest[i]) == MaxAbs(rest);
          assert data[i] == rest[i];
        }
      }
    }
  }

  predicate AllFit(data: seq<int>, w: nat) {
    forall i | 0 <= i < |data| :: Fits(data[i], w)
  }

  /** All absolute values, where there is one, are those of integers of `w` bytes. */
  predicate AllWithin(data: seq<int>, w: nat) {
    forall i | 0 <= i < |data| && data[i] != INT32MIN :: -Largest(w) <= data[i] <= Largest(w)
  }

  /** The size chosen is the least of one, two and four bytes for the largest absolute value. */
  lemma {:induction false} SizeIsLeast(data: seq<int>, w: nat)
    requires AllFit(data, 4) && Width(w)
    ensures AllWithin(data, w) <==> SizeFor(MaxAbs(data)) <= w
  {
    MaxAbsIs(data);
    if AllWithin(data, w) {
      if MaxAbs(data) > 0 {
        var i :| 0 <= i < |data| && Abs(data[i]) == MaxAbs(data);
        assert Abs(data[i]) <= Largest(w);
      }
    } else {
      var i :| 0 <= i < |data| && data[i] != INT32MIN && !(-Largest(w) <= data[i] <= Largest(w));
      assert Abs(data[i]) > Largest(w);
    }
  }

  /** Narrowing keeps every element exactly if the smallest integer is not among those narrowed. */
  lemma {:induction false} NarrowingKeepsExactly(data: seq<int>)
    requires AllFit(data, 4)
    ensures var w := SizeFor(MaxAbs(data));
            Narrowed(data, w) == data <==> w == 4 || INT32MIN !in data
  {
    var w := SizeFor(MaxAbs(data));
    SizeIsLeast(data, w);
    if w == 4 || INT32MIN !in data {
      forall i | 0 <= i < |data| ensures Narrow(data[i], w) == data[i] { assert Fits(data[i], w); }
      assert Narrowed(data, w) == data;
    } else {
      var i :| 0 <= i < |data| && data[i] == INT32MIN;
      assert Narrowed(data, w)[i] == Narrow(data[i], w);
      assert Fits(Narrow(data[i], w), w) && !Fits(data[i], w);
    }
  }

  /** A table already narrow is refused exactly if it holds the smallest integer of its width. */
  lemma {:induction false} RefusedExactly(data: seq<int>, w: nat)
    requires (w == 1 || w == 2) && AllFit(data, w)
    ensures SizeFor(MaxAbs(data)) > w <==> -Largest(w) - 1 in data
  {
    assert AllFit(data, 4);
    SizeIsLeast(data, w);
    if -Largest(w) - 1 in data {
      var i :| 0 <= i < |data| && data[i] == -Largest(w) - 1;
      assert !AllWithin(data, w);
    }
  }

  /** Narrowing loses the smallest integer: it becomes 0, as the largest absolute value counted is 0. */
  lemma NarrowingLoses()
    ensures var data := [INT32MIN, 0];
            SizeFor(MaxAbs(data)) == 1 && Narrowed(data, 1) == [0, 0]
  {
    var data := [INT32MIN, 0];
    assert data[..1] == [INT32MIN] && data[..1][..0] == [];
    assert MaxAbs([]) == 0 && MaxAbs(data[..1]) == 0 && MaxAbs(data) == 0;
    assert INT32MIN == -8388608 * 256;
  }

  /** A table of one byte that holds -128 is refused. */
  lemma NarrowTableRefused()
    ensures AllFit([-128], 1) && SizeFor(MaxAbs([-128])) == 2
  {
    assert [-128][..0] == [];
    assert MaxAbs([]) == 0 && MaxAbs([-128]) == 128;
  }

  class Table {
    const id: nat
    const otherFlags: nat // the flags without the bits for the width
    const hilen: nat
    const lolen: nat
    var width: nat // in bytes, kept in the flags too
    var data: array<int>

    function Flags(): nat
      reads this
    {
      otherFlags + width
    }

    ghost predicate Valid()
      reads this, data
    {
      Width(width) && AllFit(data[..], width)
    }

    constructor (id: nat, otherFlags: nat, hilen: nat, lolen: nat, data: seq<int>)
      requires AllFit(data, 4)
      ensures Valid() && width == 4 && this.data[..] == data && fresh(this.data)
      ensures this.id == id && this.otherFlags == otherFlags && this.hilen == hilen && this.lolen == lolen
    {
      this.id, this.otherFlags, this.hilen, this.lolen, width := id, otherFlags, hilen, lolen, 4;
      this.data := new int[|data|](i requires 0 <= i < |data| => data[i]);
    }

    method MinIntSize() returns (size: nat)
      ensures size == SizeFor(MaxAbs(data[..]))
    {
      var max: nat := 0;
      for i := 0 to data.Length
        invariant max == MaxAbs(data[..i])
      {
        assert data[..i + 1][..i] == data[..i];
        var n := Abs(data[i]);
        if n > max {
          max := n;
        }
      }
      assert data[..data.Length] == data[..];
      size := SizeFor(max);
    }

    /** Replaces the elements by narrower ones; `ok` is false when the program gives up instead. */
    method Compress() returns (ok: bool)
      requires Valid()
      modifies this`width, this`data
      ensures Valid() && (data == old(data) || fresh(data))
      ensures ok == (SizeFor(MaxAbs(old(data[..]))) <= old(width))
      ensures if ok then width == SizeFor(MaxAbs(old(data[..]))) && data[..] == Narrowed(old(data[..]), width)
              else width == old(width) && data == old(data)
    {
      var newsz := MinIntSize();
      if newsz == width {
        assert Narrowed(data[..], width) == data[..];
        return true;
      }
      if newsz > width {
        return false;
      }
      var narrow := new int[data.Length];
      for i := 0 to data.Length
        invariant data == old(data) && data[..] == old(data[..]) && fresh(narrow) && narrow.Length == data.Length
        invariant narrow[..i] == Narrowed(data[..i], newsz)
      {
        narrow[i] := Narrow(data[i], newsz);
        assert narrow[..i + 1] == narrow[..i] + [Narrow(data[i], newsz)];
      }
      assert narrow[..data.Length] == narrow[..] && data[..data.Length] == data[..];
      width, data := newsz, narrow;
      ok := true;
    }
  }

  // ------------------------------------------------------------------- the file

  // The header up to the version string takes this many bytes.
  const FIXEDHEADER: nat := 14

  /** Bytes missing to the next multiple of eight. */
  function Pad64(n: nat): (r: nat)
    ensures r < 8 && (n + r) % 8 == 0
  {
    (8 - n % 8) % 8
  }

  /** `bytes` written into a file from position `at` on. */
  function Overwritten(file: seq<Byte>, at: nat, bytes: seq<Byte>): (r: seq<Byte>)
    requires at <= |file|
    ensures |r| == Max(|file|, at + |bytes|)
    ensures at == |file| ==> r == file + bytes
  {
    if at + |bytes| <= |file| then file[..at] + bytes + file[at + |bytes|..] else file[..at] + bytes
  }

  function Max(a: nat, b: nat): nat { if a >= b then a else b }

  function Zeros(n: nat): (r: seq<Byte>)
    ensures |r| == n
  {
    if n == 0 then [] else Zeros(n - 1) + [0]
  }

  /** How the host turns numbers into bytes; the functions for 16 and 32 bits are its own. */
  datatype Order = Order(net16: nat -> seq<Byte>, net32: nat -> seq<Byte>)
  {
    ghost predicate Valid() {
      (forall v {:trigger net16(v)} :: |net16(v)| == 2) && (forall v {:trigger net32(v)} :: |net32(v)| == 4)
    }
  }

  /** An element as it is written with `w` bytes. */
  function ElementBytes(o: Order, x: int, w: nat): seq<Byte> {
    if w == 1 then [(x % 256) as Byte] else if w == 2 then o.net16(x % 65536) else o.net32(x % U32)
  }

  function DataBytes(o: Order, data: seq<int>, w: nat): seq<Byte> {
    if data == [] then [] else DataBytes(o, data[..|data| - 1], w) + ElementBytes(o, data[|data| - 1], w)
  }

  lemma {:induction false} DataSize(o: Order, data: seq<int>, w: nat)
    requires o.Valid() && Width(w)
    ensures |DataBytes(o, data, w)| == w * |data|
    decreases |data|
  {
    if data != [] {
      DataSize(o, data[..|data| - 1], w);
      assert w * |data| == w * (|data| - 1) + w;
    }
  }

  lemma Assoc(a: seq<Byte>, b: seq<Byte>, c: seq<Byte>)
    ensures a + b + c == a + (b + c)
  {}

  // Values of 16 bits are below this number.
  const U16: nat := 65536

  /** What is written of a table, and the width of its elements. */
  datatype Entry = Entry(id: nat, flags: nat, hilen: nat, lolen: nat, width: nat, data: seq<int>)
  {
    /** The fields are integers of the widths they have in the program. */
    predicate Valid() {
      id < U16 && flags < U16 && hilen < U32 && lolen < U32 && Width(width) && AllFit(data, width)
    }
  }

  /** A table as a value. */
  ghost function EntryOf(td: Table): Entry
    reads td, td.data
  {
    Entry(td.id, td.Flags(), td.hilen, td.lolen, td.width, td.data[..])
  }

  function EntryBytes(o: Order, e: Entry): seq<Byte> {
    o.net16(e.id) + (o.net16(e.flags) + (o.net32(e.hilen) + (o.net32(e.lolen) + DataBytes(o, e.data, e.width))))
  }

  function Padded(bytes: seq<Byte>): seq<Byte> { bytes + Zeros(Pad64(|bytes|)) }

  function Blocks(o: Order, entries: seq<Entry>): seq<Byte> {
    if entries == [] then [] else Padded(EntryBytes(o, entries[0])) + Blocks(o, entries[1..])
  }

  datatype Header = Header(magic: nat, hsize: nat, ssize: nat, flags: nat, version: seq<Byte>, name: seq<Byte>)
  {
    predicate Valid() {
      magic < U32 && hsize < U32 && ssize < U32 && flags < U16 && 0 !in version && 0 !in name
    }
  }

  function HeaderBytes(o: Order, h: Header): seq<Byte> {
    o.net32(h.magic) + o.net32(h.hsize) + (o.net32(h.ssize) + o.net16(h.flags)) + (h.version + [0]) + (h.name + [0])
  }

  /** The size announced in a header: that of the header, padding included. */
  function AnnouncedSize(version: seq<Byte>, name: seq<Byte>): (r: nat)
    ensures r % 8 == 0
  {
    var size := FIXEDHEADER + |version| + 1 + |name| + 1;
    size + Pad64(size)
  }

  /** The header of a file with these tables; the size field is filled in with the first table. */
  function HeaderFor(o: Order, magic: nat, version: seq<Byte>, name: seq<Byte>, entries: seq<Entry>): Header {
    var hsize := AnnouncedSize(version, name);
    Header(magic, hsize, if entries == [] then 0 else (hsize + |Blocks(o, entries)|) % U32, 0, version, name)
  }

  function FileOf(o: Order, magic: nat, version: seq<Byte>, name: seq<Byte>, entries: seq<Entry>): seq<Byte> {
    Padded(HeaderBytes(o, HeaderFor(o, magic, version, name, entries))) + Blocks(o, entries)
  }

  lemma HeaderLength(o: Order, h: Header)
    requires o.Valid()
    ensures |Padded(HeaderBytes(o, h))| == AnnouncedSize(h.version, h.name)
  {}

  lemma {:induction false} EntrySize(o: Order, e: Entry)
    requires o.Valid() && e.Valid()
    ensures |EntryBytes(o, e)| == 12 + e.width * |e.data|
  {
    DataSize(o, e.data, e.width);
  }

  lemma PaddedSize(bytes: seq<Byte>)
    ensures |Padded(bytes)| % 8 == 0
  {}

  lemma AlignedSum(a: seq<Byte>, b: seq<Byte>)
    requires |a| % 8 == 0 && |b| % 8 == 0
    ensures |a + b| % 8 == 0
  {}

  lemma {:induction false} BlocksAligned(o: Order, entries: seq<Entry>)
    ensures |Blocks(o, entries)| % 8 == 0
  {
    if entries != [] {
      PaddedSize(EntryBytes(o, entries[0]));
      BlocksAligned(o, entries[1..]);
      AlignedSum(Padded(EntryBytes(o, entries[0])), Blocks(o, entries[1..]));
    }
  }

  lemma {:induction false} BlocksSnoc(o: Order, entries: seq<Entry>, e: Entry)
    ensures Blocks(o, entries + [e]) == Blocks(o, entries) + Padded(EntryBytes(o, e))
  {
    var block := Padded(EntryBytes(o, e));
    if entries == [] {
      assert entries + [e] == [e] && [e][1..] == [];
      assert block + [] == block && [] + block == block;
    } else {
      assert (entries + [e])[0] == entries[0] && (entries + [e])[1..] == entries[1..] + [e];
      BlocksSnoc(o, entries[1..], e);
      Assoc(Padded(EntryBytes(o, entries[0])), Blocks(o, entries[1..]), block);
    }
  }

  lemma {:induction false} PadAfter(head: seq<Byte>, bytes: seq<Byte>)
    requires |head| % 8 == 0
    ensures Padded(head + bytes) == head + Padded(bytes)
  {
    assert |head + bytes| % 8 == |bytes| % 8;
    Assoc(head, bytes, Zeros(Pad64(|bytes|)));
  }

  lemma {:induction false} AddedBehind(head: seq<Byte>, blocks: seq<Byte>, bytes: seq<Byte>)
    requires |head| % 8 == 0 && |blocks| % 8 == 0
    ensures Padded(head + blocks + bytes) == head + (blocks + Padded(bytes))
  {
    PadAfter(head + blocks, bytes);
    Assoc(head, blocks, Padded(bytes));
  }

  /** Behind the size field nothing changes, and before it. */
  lemma SizeReplaced(a: seq<Byte>, size: seq<Byte>, size': seq<Byte>, b: seq<Byte>)
    requires |a| == 8 && |size| == |size'| == 4
    ensures Overwritten(a + (size + b), 8, size') == a + (size' + b)
  {}

  /** What is behind the size field in a file. */
  function Behind(o: Order, h: Header, blocks: seq<Byte>): seq<Byte> {
    o.net16(h.flags) + (h.version + [0]) + (h.name + [0]) + Zeros(Pad64(|HeaderBytes(o, h)|)) + blocks
  }

  lemma {:induction false} HeaderSplit(o: Order, h: Header, blocks: seq<Byte>)
    requires o.Valid()
    ensures Padded(HeaderBytes(o, h)) + blocks == (o.net32(h.magic) + o.net32(h.hsize)) + (o.net32(h.ssize) + Behind(o, h, blocks))
  {
    var a, size, flags, version, name := o.net32(h.magic) + o.net32(h.hsize), o.net32(h.ssize), o.net16(h.flags), h.version + [0], h.name + [0];
    Regroup(a, size, flags, version, name, Zeros(Pad64(|HeaderBytes(o, h)|)), blocks);
  }

  lemma Regroup(a: seq<Byte>, b: seq<Byte>, c: seq<Byte>, d: seq<Byte>, e: seq<Byte>, f: seq<Byte>, g: seq<Byte>)
    ensures a + (b + c) + d + e + f + g == a + (b + (c + d + e + f + g))
  {}

  lemma {:induction false} SizeFilledIn(o: Order, h: Header, h': Header, blocks: seq<Byte>)
    requires o.Valid() && h' == h.(ssize := h'.ssize)
    ensures Padded(HeaderBytes(o, h')) + blocks
         == Overwritten(Padded(HeaderBytes(o, h)) + blocks, 8, o.net32(h'.ssize))
  {
    HeaderSplit(o, h, blocks);
    HeaderSplit(o, h', blocks);
    SizeReplaced(o.net32(h.magic) + o.net32(h.hsize), o.net32(h.ssize), o.net32(h'.ssize), Behind(o, h, blocks));
  }

  /** Writing one more table, padding and correcting the size field gives the file with that table. */
  lemma {:induction false} TableAdded(o: Order, magic: nat, version: seq<Byte>, name: seq<Byte>, entries: seq<Entry>,
                                      e: Entry)
    requires o.Valid()
    ensures var file, after := FileOf(o, magic, version, name, entries), FileOf(o, magic, version, name, entries + [e]);
            var written := Padded(file + EntryBytes(o, e));
            after == Overwritten(written, 8, o.net32(|written| % U32))
  {
    var h, h' := HeaderFor(o, magic, version, name, entries), HeaderFor(o, magic, version, name, entries + [e]);
    HeaderLength(o, h);
    BlocksAligned(o, entries);
    BlocksSnoc(o, entries, e);
    AddedBehind(Padded(HeaderBytes(o, h)), Blocks(o, entries), EntryBytes(o, e));
    SizeFilledIn(o, h, h', Blocks(o, entries + [e]));
  }

  lemma NoTables(o: Order, magic: nat, version: seq<Byte>, name: seq<Byte>)
    ensures var bytes := HeaderBytes(o, Header(magic, AnnouncedSize(version, name), 0, 0, version, name));
            FileOf(o, magic, version, name, []) == bytes + Zeros(Pad64(|bytes|))
  {}

  class TableWriter {
    const o: Order
    const magic: nat
    var file: seq<Byte>
    var pos: nat
    var totalWritten: nat
    var ssizePos: nat

    /** Between calls the position is the end of the file, and all bytes are accounted for. */
    ghost predicate Valid()
      reads this
    {
      o.Valid() && pos == totalWritten == |file|
    }

    /** The header is there, with its size field, and the file is padded. */
    ghost predicate Ready()
      reads this
    {
      Valid() && |file| % 8 == 0 && ssizePos + 4 <= |file|
    }

    constructor (o: Order, magic: nat)
      requires o.Valid()
      ensures Valid() && file == [] && this.o == o && this.magic == magic
    {
      this.o, this.magic, file, pos, totalWritten, ssizePos := o, magic, [], 0, 0, 0;
    }

    method Writen(bytes: seq<Byte>) returns (n: nat)
      requires pos <= |file|
      modifies this`file, this`pos, this`totalWritten
      ensures n == |bytes| && file == Overwritten(old(file), old(pos), bytes)
      ensures pos == old(pos) + n && totalWritten == old(totalWritten) + n
    {
      file, pos, totalWritten, n := Overwritten(file, pos, bytes), pos + |bytes|, totalWritten + |bytes|, |bytes|;
    }

    method Append(bytes: seq<Byte>) returns (n: nat)
      requires Valid()
      modifies this`file, this`pos, this`totalWritten
      ensures Valid() && n == |bytes| && file == old(file) + bytes
    {
      n := Writen(bytes);
    }

    method WritePad64() returns (bwritten: nat)
      requires Valid()
      modifies this`file, this`pos, this`totalWritten
      ensures Valid() && file == old(file) + Zeros(bwritten) && bwritten == Pad64(|old(file)|)
    {
      bwritten := 0;
      var pad := Pad64(totalWritten);
      while bwritten < pad
        invariant Valid() && bwritten <= pad && file == old(file) + Zeros(bwritten)
      {
        var n := Append([0]);
        assert old(file) + Zeros(bwritten) + [0] == old(file) + (Zeros(bwritten) + [0]);
        bwritten := bwritten + n;
      }
    }

    /** Writes the header of a new file; its size agrees with the one announced. */
    method WriteHeader(version: seq<Byte>, name: seq<Byte>) returns (ok: bool, bwritten: nat)
      requires Valid() && file == []
      modifies this
      ensures ok && Ready() && ssizePos == 8 && bwritten == |file| == AnnouncedSize(version, name)
      ensures file == FileOf(o, magic, version, name, [])
    {
      var hsize := FIXEDHEADER + |version| + 1 + |name| + 1;
      hsize := hsize + Pad64(hsize);
      bwritten := WriteFields(hsize, version, name);
      var n := WritePad64();
      bwritten := bwritten + n;
      ok := bwritten == hsize;
      NoTables(o, magic, version, name);
    }

    /** Everything of a header but the padding. */
    method WriteFields(hsize: nat, version: seq<Byte>, name: seq<Byte>) returns (bwritten: nat)
      requires Valid() && file == []
      modifies this
      ensures Valid() && ssizePos == 8 && bwritten == |file|
      ensures file == HeaderBytes(o, Header(magic, hsize, 0, 0, version, name))
    {
      var n := Append(o.net32(magic));
      n := Append(o.net32(hsize));
      bwritten := 8;
      ssizePos := pos;
      n := Append(o.net32(0));
      n := Append(o.net16(0));
      bwritten := bwritten + 6;
      n := Append(version + [0]);
      bwritten := bwritten + n;
      n := Append(name + [0]);
      bwritten := bwritten + n;
      Assoc(o.net32(magic) + o.net32(hsize), o.net32(0), o.net16(0));
    }

    /**
     Writes a table behind what is there, pads, and corrects the size field: the file is what
     it was, the table and padding, with the length of it all in the size field. A file of a
     header and tables becomes the one with this table too.
     */
    method WriteData(td: Table) returns (ok: bool, bwritten: nat)
      requires Ready() && td.Valid()
      modifies this
      ensures ok && Ready() && ssizePos == old(ssizePos)
      ensures bwritten == |file| - |old(file)|
      ensures var written := old(file) + EntryBytes(o, EntryOf(td));
              file == Overwritten(written + Zeros(Pad64(|written|)), ssizePos, o.net32(|file| % U32))
      ensures file[ssizePos..ssizePos + 4] == o.net32(totalWritten % U32)
      ensures forall version, name, entries | old(file) == FileOf(o, magic, version, name, entries) && ssizePos == 8 ::
                file == FileOf(o, magic, version, name, entries + [EntryOf(td)])
    {
      ok, bwritten := WriteTable(td);
      var n := WritePad64();
      bwritten := bwritten + n;
      PatchSize();
      forall version, name, entries | old(file) == FileOf(o, magic, version, name, entries) && ssizePos == 8
        ensures file == FileOf(o, magic, version, name, entries + [EntryOf(td)])
      {
        TableAdded(o, magic, version, name, entries, EntryOf(td));
      }
    }

    /** Everything of a table but the padding. */
    method WriteTable(td: Table) returns (ok: bool, bwritten: nat)
      requires Valid() && td.Valid()
      modifies this`file, this`pos, this`totalWritten
      ensures ok && Valid() && file == old(file) + EntryBytes(o, EntryOf(td)) && bwritten == |EntryBytes(o, EntryOf(td))|
    {
      var n := Append(o.net16(td.id));
      bwritten := n;
      n := Append(o.net16(td.Flags()));
      bwritten := bwritten + n;
      n := Append(o.net32(td.hilen));
      bwritten := bwritten + n;
      n := Append(o.net32(td.lolen));
      bwritten := bwritten + n;
      n := WriteElements(td);
      bwritten := bwritten + n;
      DataSize(o, td.data[..], td.width);
      ok := bwritten == 12 + td.data.Length * td.width;
    }

    /** Puts the length of the file into the size field and returns to the end. */
    method PatchSize()
      requires Ready()
      modifies this`file, this`pos, this`totalWritten
      ensures Ready() && file == Overwritten(old(file), ssizePos, o.net32(|old(file)| % U32))
      ensures |file| == |old(file)| && file[ssizePos..ssizePos + 4] == o.net32(|file| % U32)
    {
      var end := pos;
      pos := ssizePos;
      var n := Writen(o.net32(totalWritten % U32));
      pos := end;
      totalWritten := totalWritten - 4;
    }

    method WriteElements(td: Table) returns (bwritten: nat)
      requires Valid() && td.Valid()
      modifies this`file, this`pos, this`totalWritten
      ensures Valid() && file == old(file) + DataBytes(o, td.data[..], td.width)
      ensures bwritten == td.data.Length * td.width
    {
      bwritten := 0;
      for i := 0 to td.data.Length
        invariant Valid() && file == old(file) + DataBytes(o, td.data[..i], td.width)
        invariant bwritten == |file| - |old(file)|
      {
        assert td.data[..i + 1][..i] == td.data[..i];
        ghost var before := DataBytes(o, td.data[..i], td.width);
        var n := Append(ElementBytes(o, td.data[i], td.width));
        assert old(file) + before + ElementBytes(o, td.data[i], td.width)
            == old(file) + (before + ElementBytes(o, td.data[i], td.width));
        bwritten := bwritten + n;
      }
      assert td.data[..td.data.Length] == td.data[..];
      DataSize(o, td.data[..], td.width);
    }
  }
}
