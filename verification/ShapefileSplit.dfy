/**
 Splitting an ESRI shapefile into parts. Shapes are dealt out in order until a part has more
 than its share of bytes, and get record numbers of their own; the rows of the dBASE file that
 belong to them are dealt out by the same counts.
 */
module ShapefileSplit {
  import opened Basics

  const HEADERSIZE: nat := 100

  // --------------------------------------------------------------- byte order

  /** A 32-bit number as four bytes, in the order of the host or in the one of the main file. */
  function ToBytes(v: nat, little: bool): (r: seq<Byte>)
    requires v < U32
    ensures |r| == 4
  {
    var b0, b1, b2, b3 := (v % 256) as Byte, (v / 256 % 256) as Byte, (v / 65536 % 256) as Byte, (v / 16777216) as Byte;
    if little then [b0, b1, b2, b3] else [b3, b2, b1, b0]
  }

  function FromBytes(b: seq<Byte>, little: bool): (r: nat)
    requires |b| == 4
    ensures r < U32
  {
    if little then b[0] as nat + b[1] as nat * 256 + b[2] as nat * 65536 + b[3] as nat * 16777216
    else b[3] as nat + b[2] as nat * 256 + b[1] as nat * 65536 + b[0] as nat * 16777216
  }

  function ConvertEndian(v: nat): nat
    requires v < U32
  {
    FromBytes(ToBytes(v, true), false)
  }

  lemma Digits(v: nat)
    requires v < U32
    ensures v == v % 256 + v / 256 % 256 * 256 + v / 65536 % 256 * 65536 + v / 16777216 * 16777216
  {
    assert v / 65536 == v / 256 / 256;
    assert v / 16777216 == v / 256 / 256 / 256;
  }

  /** Big-endian means the most significant byte first, and little-endian the same bytes in reverse. */
  lemma ByteOrders(v: nat)
    requires v < U32
    ensures var b := ToBytes(v, false);
            && ((b[0] as nat * 256 + b[1] as nat) * 256 + b[2] as nat) * 256 + b[3] as nat == v
            && ToBytes(v, true) == [b[3], b[2], b[1], b[0]]
  {
    Digits(v);
  }

  lemma BytesRoundTrip(v: nat, little: bool)
    requires v < U32
    ensures FromBytes(ToBytes(v, little), little) == v
  {
    Digits(v);
  }

  /** On a little-endian host converting turns one byte order into the other, both ways. */
  lemma ConvertsOrder(v: nat)
    requires v < U32
    ensures ToBytes(ConvertEndian(v), true) == ToBytes(v, false)
    ensures ConvertEndian(FromBytes(ToBytes(v, false), true)) == v
  {
    Digits(v);
    var w := ConvertEndian(v);
    var b := ToBytes(v, true);
    Unique(w, b[3], b[2], b[1], b[0]);
    var u := FromBytes(ToBytes(v, false), true);
    Unique(u, b[3], b[2], b[1], b[0]);
    assert ToBytes(u, true) == [b[3], b[2], b[1], b[0]];
  }

  lemma Unique(v: nat, b0: Byte, b1: Byte, b2: Byte, b3: Byte)
    requires v == b0 as nat + b1 as nat * 256 + b2 as nat * 65536 + b3 as nat * 16777216
    ensures v < U32 && ToBytes(v, true) == [b0, b1, b2, b3]
  {
    var v1 := b1 as nat + b2 as nat * 256 + b3 as nat * 65536;
    assert v == b0 as nat + 256 * v1;
    assert v / 256 == v1 && v % 256 == b0 as nat;
    var v2 := b2 as nat + b3 as nat * 256;
    assert v1 == b1 as nat + 256 * v2;
    assert v1 / 256 == v2 && v1 % 256 == b1 as nat;
    assert v2 / 256 == b3 as nat && v2 % 256 == b2 as nat;
    assert v / 65536 == v / 256 / 256 && v / 16777216 == v / 256 / 256 / 256;
  }

  lemma ReadWrite(b: seq<Byte>, little: bool)
    requires |b| == 4
    ensures ToBytes(FromBytes(b, little), little) == b
  {
    if little { Unique(FromBytes(b, little), b[0], b[1], b[2], b[3]); }
    else {
      Unique(FromBytes(b, little), b[3], b[2], b[1], b[0]);
      assert ToBytes(FromBytes(b, false), false) == [b[0], b[1], b[2], b[3]];
    }
  }

  // ------------------------------------------------------------- the main file

  /** A record: its number, and its content, whose length is counted in 16-bit words. */
  datatype Shape = Shape(number: nat, content: seq<Byte>)

  predicate ShapeOk(s: Shape) { s.number < U32 && |s.content| < U32 && |s.content| % 2 == 0 }

  predicate ShapesOk(ss: seq<Shape>) { |ss| < U32 && forall i | 0 <= i < |ss| :: ShapeOk(ss[i]) }

  function Encode(s: Shape): seq<Byte>
    requires ShapeOk(s)
  {
    ToBytes(s.number, false) + ToBytes(|s.content| / 2, false) + s.content
  }

  function EncodeAll(ss: seq<Shape>): seq<Byte>
    requires ShapesOk(ss)
  {
    Concat(Encode, ss)
  }

  function Size(ss: seq<Shape>): nat {
    if ss == [] then 0 else Size(ss[..|ss| - 1]) + 8 + |ss[|ss| - 1].content|
  }

  function Renumber(ss: seq<Shape>): (r: seq<Shape>)
    ensures |r| == |ss| && forall i | 0 <= i < |ss| :: r[i] == Shape(i + 1, ss[i].content)
  {
    if ss == [] then [] else Renumber(ss[..|ss| - 1]) + [Shape(|ss|, ss[|ss| - 1].content)]
  }

  lemma EncodeSnoc(ss: seq<Shape>, s: Shape)
    requires ShapesOk(ss) && ShapeOk(s) && |ss| + 1 < U32
    ensures EncodeAll(ss + [s]) == EncodeAll(ss) + Encode(s)
  {
    ConcatSnoc(Encode, ss, s);
  }

  lemma SizeSnoc(ss: seq<Shape>, s: Shape)
    ensures Size(ss + [s]) == Size(ss) + 8 + |s.content|
  {
    assert (ss + [s])[..|ss|] == ss;
  }

  lemma {:induction false} SizeAppend(a: seq<Shape>, b: seq<Shape>)
    ensures Size(a + b) == Size(a) + Size(b)
    decreases |b|
  {
    if b == [] {
      assert a + b == a;
    } else {
      assert a + b == (a + b[..|b| - 1]) + [b[|b| - 1]];
      SizeSnoc(a + b[..|b| - 1], b[|b| - 1]);
      SizeAppend(a, b[..|b| - 1]);
    }
  }

  lemma {:induction false} SizeIsLength(ss: seq<Shape>)
    requires ShapesOk(ss)
    ensures |EncodeAll(ss)| == Size(ss)
    decreases |ss|
  {
    if ss != [] {
      assert ss == [ss[0]] + ss[1..];
      SizeAppend([ss[0]], ss[1..]);
      SizeSnoc([], ss[0]);
      assert [] + [ss[0]] == [ss[0]];
      SizeIsLength(ss[1..]);
    }
  }

  /** What the loop makes of a record header it has read. */
  lemma HeaderRead(s: Shape, little: bool)
    requires ShapeOk(s)
    ensures var len := FromBytes(ToBytes(|s.content| / 2, false), little);
            && (if little then ConvertEndian(len) else len) * 2 % U32 == |s.content|
            && ToBytes(len, little) == ToBytes(|s.content| / 2, false)
    ensures ToBytes(FromBytes(ToBytes(s.number, false), little), little) == ToBytes(s.number, false)
  {
    var words := |s.content| / 2;
    ReadWrite(ToBytes(words, false), little);
    ReadWrite(ToBytes(s.number, false), little);
    if little { ConvertsOrder(words); } else { BytesRoundTrip(words, false); }
  }

  /** An input stream. Reading past the end gives what is left and sets `eof` for good. */
  class InFile {
    var rest: seq<Byte>
    var eof: bool

    constructor (data: seq<Byte>)
      ensures rest == data && !eof
    {
      rest, eof := data, false;
    }

    method Read(k: nat) returns (got: seq<Byte>)
      modifies this
      ensures if !old(eof) && k <= |old(rest)|
              then !eof && got == old(rest)[..k] && rest == old(rest)[k..]
              else eof && |got| <= |old(rest)| && rest == (if old(eof) then old(rest) else [])
    {
      if eof {
        got := [];
      } else if k <= |rest| {
        got, rest := rest[..k], rest[k..];
      } else {
        got, rest, eof := rest, [], true;
      }
    }
  }

  /** The stream holds exactly these records. */
  ghost predicate Holds(file: InFile, shapes: seq<Shape>)
    reads file
  {
    ShapesOk(shapes) && file.rest == EncodeAll(shapes) && (file.eof ==> shapes == [])
  }

  /** Counted in 32 bits, no earlier record exceeded the share of the part. */
  predicate StopsInTime(group: seq<Shape>, share: nat) {
    forall c | 0 < c < |group| :: Uint32(Size(group[..c])) <= share
  }

  /** A record as it is written when it comes to be number `recnum` of its part. */
  function Piece(s: Shape, recnum: nat, little: bool): seq<Byte>
    requires ShapeOk(s) && recnum < U32
  {
    Encode(if little then s.(number := recnum) else s)
  }

  lemma FirstRecord(rest: seq<Byte>, shapes: seq<Shape>)
    requires ShapesOk(shapes) && shapes != [] && rest == EncodeAll(shapes)
    ensures var content := shapes[0].content;
            && |rest| >= 8 + |content|
            && rest[..4] == ToBytes(shapes[0].number, false)
            && rest[4..][..4] == ToBytes(|content| / 2, false)
            && rest[4..][4..][..|content|] == content
            && rest[4..][4..][|content|..] == EncodeAll(shapes[1..])
  {
    var a, b, content, tail := ToBytes(shapes[0].number, false), ToBytes(|shapes[0].content| / 2, false),
      shapes[0].content, EncodeAll(shapes[1..]);
    assert rest == a + (b + (content + tail));
    assert rest[4..] == b + (content + tail);
    assert rest[4..][4..] == content + tail;
  }

  /** The header of a record as it is written, and the length of the content in bytes. */
  method ConvertHeader(numberBytes: seq<Byte>, lengthBytes: seq<Byte>, recnum: nat, little: bool, ghost s: Shape)
    returns (out: seq<Byte>, contLength: nat)
    requires |numberBytes| == |lengthBytes| == 4 && recnum < U32
    ensures contLength < U32
    ensures ShapeOk(s) && numberBytes == ToBytes(s.number, false) && lengthBytes == ToBytes(|s.content| / 2, false) ==>
              contLength == |s.content| && out + s.content == Piece(s, recnum, little)
  {
    var contLengthBin := FromBytes(lengthBytes, little);
    var recnumHeader := FromBytes(numberBytes, little);
    if little {
      contLength := ConvertEndian(contLengthBin) * 2 % U32;
      recnumHeader := ConvertEndian(recnum);
      ConvertsOrder(recnum);
    } else {
      contLength := contLengthBin * 2 % U32;
    }
    out := ToBytes(recnumHeader, little) + ToBytes(contLengthBin, little);
    if ShapeOk(s) { HeaderRead(s, little); }
  }

  /** One record copied from file to file, or nothing at the end; `size` is what is counted for it. */
  method CopyRecord(file: InFile, little: bool, recnum: nat, contLength: nat, ghost shapes: seq<Shape>)
    returns (out: seq<Byte>, copied: bool, contLength': nat)
    requires recnum < U32 && contLength < U32
    modifies file
    ensures contLength' < U32
    ensures !file.eof ==> |file.rest| + 8 <= |old(file.rest)|
    ensures old(Holds(file, shapes)) && shapes != [] ==>
              && Holds(file, shapes[1..]) && !file.eof && copied && contLength' == |shapes[0].content|
              && out == Piece(shapes[0], recnum, little)
    ensures old(Holds(file, shapes)) && shapes == [] ==> Holds(file, shapes) && file.eof && out == [] && !copied
  {
    out, copied, contLength' := [], false, contLength;
    var numberBytes := file.Read(4);
    var lengthBytes := file.Read(4);
    if !file.eof {
      ghost var s := if shapes == [] then Shape(0, []) else shapes[0];
      if old(Holds(file, shapes)) && shapes != [] {
        FirstRecord(old(file.rest), shapes);
      }
      out, contLength' := ConvertHeader(numberBytes, lengthBytes, recnum, little, s);
    }
    var dataset := file.Read(contLength');
    if !file.eof {
      out := out + dataset;
      copied := true;
    }
  }

  // ----------------------------------------------------------------- the parts

  /** A group of records as it is written: only a little-endian host numbers records anew. */
  function Encoded(group: seq<Shape>, little: bool): seq<Byte>
    requires ShapesOk(group)
  {
    EncodeAll(if little then Renumber(group) else group)
  }

  lemma EncodedSnoc(group: seq<Shape>, s: Shape, little: bool)
    requires ShapesOk(group) && ShapeOk(s) && |group| + 1 < U32
    ensures Encoded(group + [s], little) == Encoded(group, little) + Piece(s, |group| + 1, little)
  {
    if little {
      assert (group + [s])[..|group|] == group;
      EncodeSnoc(Renumber(group), Shape(|group| + 1, s.content));
    } else {
      EncodeSnoc(group, s);
    }
  }

  /** Counting up and down in 32 bits. */
  function Next(v: nat): nat { if v + 1 == U32 then 0 else v + 1 }

  function Previous(v: nat): nat { if v == 0 then U32 - 1 else v - 1 }

  /** A part on its way: its records, its bytes, the next record number, the bytes counted. */
  ghost predicate Written(group: seq<Shape>, shapes: seq<Shape>, out: seq<Byte>, recnum: nat, writeBytes: nat, little: bool) {
    && ShapesOk(shapes) && group <= shapes && ShapesOk(group)
    && out == Encoded(group, little)
    && recnum == Next(|group|) && writeBytes == Uint32(Size(group))
  }

  lemma PrefixGrows(group: seq<Shape>, shapes: seq<Shape>)
    requires group < shapes && ShapesOk(shapes)
    ensures group + [shapes[|group|]] <= shapes && ShapesOk(group + [shapes[|group|]])
  {
    forall i | 0 <= i < |group| + 1 ensures (group + [shapes[|group|]])[i] == shapes[i] && ShapeOk(shapes[i]) {}
  }

  lemma WrittenGrows(group: seq<Shape>, shapes: seq<Shape>, out: seq<Byte>, recnum: nat, writeBytes: nat, little: bool)
    requires Written(group, shapes, out, recnum, writeBytes, little) && group < shapes
    ensures var s := shapes[|group|];
            && ShapeOk(s) && recnum < U32
            && Written(group + [s], shapes, out + Piece(s, recnum, little), Next(recnum),
                       Uint32(writeBytes + 8 + |s.content|), little)
  {
    var s := shapes[|group|];
    assert ShapeOk(s);
    EncodedSnoc(group, s, little);
    SizeSnoc(group, s);
    Uint32Add(Size(group), 8 + |s.content|);
    PrefixGrows(group, shapes);
  }

  /** At no earlier record the bytes counted, in 32 bits, exceeded the share. */
  ghost predicate WithinShare(group: seq<Shape>, share: nat) {
    forall c | 0 < c <= |group| :: Uint32(Size(group[..c])) <= share
  }

  lemma StaysWithin(was: seq<Shape>, group: seq<Shape>, share: nat)
    requires WithinShare(was, share) && was <= group && |group| <= |was| + 1
    ensures StopsInTime(group, share)
    ensures group == was || Uint32(Size(group)) <= share ==> WithinShare(group, share)
  {
    forall c | 0 < c <= |was| ensures Uint32(Size(group[..c])) <= share { SamePrefix(was, group, c); }
    if group == was || Uint32(Size(group)) <= share {
      forall c | 0 < c <= |group| ensures Uint32(Size(group[..c])) <= share {
        if c == |group| { assert group[..c] == group; }
      }
    }
  }

  lemma SamePrefix(was: seq<Shape>, group: seq<Shape>, c: nat)
    requires was <= group && c <= |was|
    ensures group[..c] == was[..c]
  {}

  lemma TailStep(shapes: seq<Shape>, k: nat)
    requires k < |shapes|
    ensures shapes[k..][0] == shapes[k] && shapes[k..][1..] == shapes[k + 1..]
  {}

  /** Another record for the part, if there is one. */
  method AddRecord(file: InFile, little: bool, out: seq<Byte>, recnum: nat, writeBytes: nat, contLength: nat,
                   ghost shapes: seq<Shape>, ghost group: seq<Shape>)
    returns (out': seq<Byte>, recnum': nat, writeBytes': nat, contLength': nat, ghost group': seq<Shape>)
    requires recnum < U32 && contLength < U32
    modifies file
    ensures recnum' < U32 && contLength' < U32 && group <= group' && |group'| <= |group| + 1
    ensures !file.eof ==> |file.rest| + 8 <= |old(file.rest)|
    ensures Written(group, shapes, out, recnum, writeBytes, little) && old(Holds(file, shapes[|group|..])) ==>
              && group' <= shapes && Holds(file, shapes[|group'|..])
              && (if group == shapes then group' == group && out' == out && recnum' == recnum && file.eof
                  else |group'| == |group| + 1 && Written(group', shapes, out', recnum', writeBytes', little))
  {
    ghost var ok := Written(group, shapes, out, recnum, writeBytes, little) && Holds(file, shapes[|group|..]);
    ghost var rest := if ok then shapes[|group|..] else [];
    group' := group;
    if ok && rest != [] {
      WrittenGrows(group, shapes, out, recnum, writeBytes, little);
      group' := group + [rest[0]];
      TailStep(shapes, |group|);
    }
    var piece, copied;
    piece, copied, contLength' := CopyRecord(file, little, recnum, contLength, rest);
    out' := out + piece;
    writeBytes' := Uint32(writeBytes + 8 + contLength');
    recnum' := if copied then Next(recnum) else recnum;
  }

  /** A finished part: the next records in order, until its share is exceeded or all are taken. */
  ghost predicate PartOk(group: seq<Shape>, shapes: seq<Shape>, out: seq<Byte>, count: nat, share: nat, little: bool) {
    && group <= shapes && ShapesOk(group)
    && out == Encoded(group, little) && count == |group|
    && StopsInTime(group, share) && (Size(group) > share || group == shapes)
  }

  /** Fills one part with records until it exceeds its share or the file ends. */
  method WriteGroup(file: InFile, share: nat, little: bool, ghost shapes: seq<Shape>)
    returns (out: seq<Byte>, count: nat, ghost group: seq<Shape>)
    requires share < U32
    modifies file
    ensures count < U32
    ensures old(Holds(file, shapes)) ==>
              PartOk(group, shapes, out, count, share, little) && Holds(file, shapes[|group|..])
  {
    out, group := [], [];
    var writeBytes: nat, recnum: nat, contLength: nat := 0, 1, 0;
    ghost var ok := Holds(file, shapes);
    assert shapes[0..] == shapes;
    while true
      invariant recnum < U32 && contLength < U32
      invariant ok ==>
                  && Written(group, shapes, out, recnum, writeBytes, little)
                  && Holds(file, shapes[|group|..]) && WithinShare(group, share)
      decreases |file.rest|
    {
      ghost var was := group;
      out, recnum, writeBytes, contLength, group :=
        AddRecord(file, little, out, recnum, writeBytes, contLength, shapes, group);
      if ok { StaysWithin(was, group, share); }
      if file.eof || writeBytes > share {
        break;
      }
    }
    count := Previous(recnum);
  }

  // ------------------------------------------------------------ splitting it all

  /** The parts of the main file, and for a well-formed one how they hold its records. */
  ghost predicate PartsOk(groups: seq<seq<Shape>>, header: seq<Byte>, outs: seq<seq<Byte>>, counts: seq<nat>,
                          share: nat, little: bool) {
    && |groups| == |outs| == |counts|
    && forall i | 0 <= i < |groups| ::
         && ShapesOk(groups[i]) && outs[i] == header + Encoded(groups[i], little)
         && counts[i] == |groups[i]| && StopsInTime(groups[i], share)
  }

  function Share(dataSize: nat, n: nat): nat
    requires n > 0
  {
    Uint32(dataSize / n)
  }

  /** What `i` parts hold at least when each of them exceeds the share. */
  function Quota(i: nat, share: nat): nat { i * (share + 1) }

  lemma QuotaStep(i: nat, share: nat)
    ensures Quota(i + 1, share) == Quota(i, share) + share + 1
  {}

  /** `n` parts beyond their share hold more than there is. */
  lemma QuotaExceeds(total: nat, n: nat)
    requires n > 0 && total / n < U32
    ensures Quota(n, Share(total, n)) > total
  {
    assert Share(total, n) == total / n;
    assert total == n * (total / n) + total % n;
  }

  /** `i` groups are the first records, and beyond `i` shares of bytes unless all are dealt out. */
  ghost predicate Dealt(groups: seq<seq<Shape>>, shapes: seq<Shape>, i: nat, share: nat) {
    Flat(groups) <= shapes && (Size(Flat(groups)) >= Quota(i, share) || Flat(groups) == shapes)
  }

  lemma TakesNext(taken: seq<Shape>, group: seq<Shape>, shapes: seq<Shape>)
    requires taken <= shapes && group <= shapes[|taken|..]
    ensures taken + group <= shapes && shapes[|taken|..][|group|..] == shapes[|taken + group|..]
    ensures group == shapes[|taken|..] ==> taken + group == shapes
  {
    assert shapes == taken + shapes[|taken|..];
    assert shapes[|taken|..] == group + shapes[|taken|..][|group|..];
  }

  lemma DealtGrows(groups: seq<seq<Shape>>, group: seq<Shape>, shapes: seq<Shape>, i: nat, share: nat)
    requires Dealt(groups, shapes, i, share)
    requires var left := shapes[|Flat(groups)|..]; group <= left && (Size(group) > share || group == left)
    ensures Dealt(groups + [group], shapes, i + 1, share)
    ensures shapes[|Flat(groups)|..][|group|..] == shapes[|Flat(groups + [group])|..]
  {
    FlatSnoc(groups, group);
    TakesNext(Flat(groups), group, shapes);
    SizeAppend(Flat(groups), group);
    QuotaStep(i, share);
  }

  lemma AllDealt(groups: seq<seq<Shape>>, shapes: seq<Shape>, n: nat)
    requires n > 0 && ShapesOk(shapes) && |EncodeAll(shapes)| / n < U32
    requires Dealt(groups, shapes, n, Share(|EncodeAll(shapes)|, n))
    ensures Flat(groups) == shapes
  {
    SizeIsLength(shapes);
    var taken := Flat(groups);
    assert shapes == taken + shapes[|taken|..];
    SizeAppend(taken, shapes[|taken|..]);
    QuotaExceeds(Size(shapes), n);
  }

  /** The bytes of the largest record are no more than what 32 bits hold beyond the share. */
  predicate SmallRecords(shapes: seq<Shape>, share: nat) {
    forall i | 0 <= i < |shapes| :: share + 8 + |shapes[i].content| < U32
  }

  /** With small records no count of bytes runs over, so no part holds more than 32 bits count. */
  lemma {:induction false} PartBounded(group: seq<Shape>, share: nat, c: nat)
    requires SmallRecords(group, share) && StopsInTime(group, share) && c <= |group|
    ensures Size(group[..c]) < U32
    decreases c
  {
    if c > 0 {
      PartBounded(group, share, c - 1);
      assert group[..c] == group[..c - 1] + [group[c - 1]];
      SizeSnoc(group[..c - 1], group[c - 1]);
      if c > 1 { Uint32Small(Size(group[..c - 1])); }
      assert share + 8 + |group[c - 1].content| < U32;
    }
  }

  /** What `i` parts hold at most. */
  function Room(i: nat): nat { i * (U32 - 1) }

  lemma {:induction false} PartsBounded(groups: seq<seq<Shape>>, share: nat)
    requires forall i | 0 <= i < |groups| :: SmallRecords(groups[i], share) && StopsInTime(groups[i], share)
    ensures Size(Flat(groups)) <= Room(|groups|)
    decreases |groups|
  {
    if groups != [] {
      var k := |groups| - 1;
      PartsBounded(groups[..k], share);
      SizeAppend(Flat(groups[..k]), groups[k]);
      PartBounded(groups[k], share, |groups[k]|);
      assert groups[k][..|groups[k]|] == groups[k];
      assert Room(k + 1) == Room(k) + U32 - 1;
    }
  }

  lemma {:induction false} PartsSmall(groups: seq<seq<Shape>>, shapes: seq<Shape>, share: nat)
    requires Flat(groups) <= shapes && SmallRecords(shapes, share)
    ensures forall i | 0 <= i < |groups| :: SmallRecords(groups[i], share)
    decreases |groups|
  {
    if groups != [] {
      var k := |groups| - 1;
      var before := Flat(groups[..k]);
      assert Flat(groups) == before + groups[k];
      assert before <= shapes;
      PartsSmall(groups[..k], shapes, share);
      forall j | 0 <= j < |groups[k]| ensures share + 8 + |groups[k][j].content| < U32 {
        assert groups[k][j] == Flat(groups)[|before| + j] == shapes[|before| + j];
      }
    }
  }

  /** With small records all are dealt out if and only if the share of a part fits into 32 bits. */
  lemma {:induction false} AllDealtExactly(groups: seq<seq<Shape>>, header: seq<Byte>, outs: seq<seq<Byte>>, counts: seq<nat>,
                                           shapes: seq<Shape>, n: nat, little: bool)
    requires n > 0 && ShapesOk(shapes) && |groups| == n
    requires var share := Share(|EncodeAll(shapes)|, n);
             && PartsOk(groups, header, outs, counts, share, little)
             && Dealt(groups, shapes, n, share) && SmallRecords(shapes, share)
    ensures Flat(groups) == shapes <==> |EncodeAll(shapes)| / n < U32
  {
    var total := |EncodeAll(shapes)|;
    if total / n < U32 {
      AllDealt(groups, shapes, n);
    } else {
      PartsSmall(groups, shapes, Share(total, n));
      PartsBounded(groups, Share(total, n));
      SizeIsLength(shapes);
      RoomExceeded(total, n);
    }
  }

  lemma RoomExceeded(total: nat, n: nat)
    requires n > 0 && total / n >= U32
    ensures total > Room(n)
  {
    assert total == n * (total / n) + total % n;
    assert n * (total / n) >= n * U32;
  }

  /** A file with as many empty records as fill 32 bits: in one part, the share is counted as 0. */
  function LongFile(): seq<Shape> { Empties(0x2000_0000) }

  function Empties(k: nat): (r: seq<Shape>)
    ensures |r| == k && forall i | 0 <= i < k :: r[i] == Shape(0, [])
  {
    seq(k, i => Shape(0, []))
  }

  lemma {:induction false} SizeOfEmpties(k: nat)
    ensures Size(Empties(k)) == 8 * k
  {
    if k > 0 {
      SizeOfEmpties(k - 1);
      assert Empties(k) == Empties(k - 1) + [Shape(0, [])];
      SizeSnoc(Empties(k - 1), Shape(0, []));
    }
  }

  lemma LongFileSize()
    ensures ShapesOk(LongFile()) && |EncodeAll(LongFile())| == U32
  {
    SizeIsLength(LongFile());
    SizeOfEmpties(0x2000_0000);
  }

  /** Of that file only the first record is kept in a single part: the rest is lost. */
  lemma {:induction false} LongFileLosesRecords(group: seq<Shape>, out: seq<Byte>, count: nat, little: bool)
    requires PartOk(group, LongFile(), out, count, Share(U32, 1), little)
    ensures |group| == 1 && group != LongFile()
  {
    assert Share(U32, 1) == 0;
    if |group| > 0 { FirstEmpty(group); }
  }

  lemma FirstEmpty(group: seq<Shape>)
    requires 0 < |group| && group <= LongFile()
    ensures Uint32(Size(group[..1])) == 8
  {
    assert group[..1] == Empties(1);
    SizeOfEmpties(1);
    Uint32Small(8);
  }

  /** One more part. */
  lemma PartsGrow(groups: seq<seq<Shape>>, header: seq<Byte>, outs: seq<seq<Byte>>, counts: seq<nat>, share: nat, little: bool,
                  group: seq<Shape>, left: seq<Shape>, out: seq<Byte>, count: nat)
    requires PartsOk(groups, header, outs, counts, share, little) && PartOk(group, left, out, count, share, little)
    ensures PartsOk(groups + [group], header, outs + [header + out], counts + [count], share, little)
  {}

  /** Writes `n` parts, each behind the header. */
  method DealShapes(file: InFile, header: seq<Byte>, n: nat, share: nat, little: bool, ghost shapes: seq<Shape>)
    returns (outs: seq<seq<Byte>>, counts: seq<nat>, ghost groups: seq<seq<Shape>>)
    requires share < U32
    modifies file
    ensures |outs| == |counts| == n && forall i | 0 <= i < n :: counts[i] < U32
    ensures old(Holds(file, shapes)) ==>
              PartsOk(groups, header, outs, counts, share, little) && Dealt(groups, shapes, n, share)
  {
    outs, counts, groups := [], [], [];
    ghost var good := Holds(file, shapes);
    assert shapes[0..] == shapes;
    for i := 0 to n
      invariant |outs| == |counts| == |groups| == i && forall k | 0 <= k < i :: counts[k] < U32
      invariant good ==> PartsOk(groups, header, outs, counts, share, little)
      invariant good ==> Dealt(groups, shapes, i, share) && Holds(file, shapes[|Flat(groups)|..])
    {
      ghost var left := if good then shapes[|Flat(groups)|..] else [];
      var out, count;
      ghost var group;
      out, count, group := WriteGroup(file, share, little, left);
      if good {
        DealtGrows(groups, group, shapes, i, share);
        PartsGrow(groups, header, outs, counts, share, little, group, left, out, count);
      }
      outs, counts, groups := outs + [header + out], counts + [count], groups + [group];
    }
  }

  /** The main file is a header and these records. */
  predicate Consists(data: seq<Byte>, shapes: seq<Shape>) {
    |data| >= HEADERSIZE && ShapesOk(shapes) && data[HEADERSIZE..] == EncodeAll(shapes)
  }

  lemma QuotientSmall(total: nat, n: nat)
    requires n > 0 && total < U32
    ensures total / n < U32
  {}

  /** Its length field, a signed 32-bit number of 16-bit words at byte 24, says how long it is. */
  predicate WellFormed(data: seq<Byte>, shapes: seq<Shape>) {
    && Consists(data, shapes)
    && 2 * FromBytes(data[24..28], false) == |data| && 2 * FromBytes(data[24..28], false) < U32
  }

  /**
   Splits the main file into `n` parts of records. The parts hold every record of a well-formed
   file once and in order. If records are small, those of a longer file are all kept exactly if
   the share of a part fits into 32 bits.
   */
  method SplitShapes(data: seq<Byte>, n: nat, little: bool, ghost shapes: seq<Shape>)
    returns (ok: bool, outs: seq<seq<Byte>>, counts: seq<nat>, ghost groups: seq<seq<Shape>>)
    requires n > 0
    ensures ok == (|data| >= HEADERSIZE)
    ensures forall i | 0 <= i < |counts| :: counts[i] < U32
    ensures Consists(data, shapes) ==>
              var share := Share(|data| - HEADERSIZE, n);
              && |outs| == n && Flat(groups) <= shapes
              && PartsOk(groups, data[..HEADERSIZE], outs, counts, share, little)
              && (SmallRecords(shapes, share) ==> (Flat(groups) == shapes <==> (|data| - HEADERSIZE) / n < U32))
    ensures WellFormed(data, shapes) ==> Flat(groups) == shapes
  {
    outs, counts, groups := [], [], [];
    if |data| < HEADERSIZE {
      return false, outs, counts, groups;
    }
    ok := true;
    var bytesPerFile := Share(|data| - HEADERSIZE, n);
    var file := new InFile(data);
    var header := file.Read(HEADERSIZE);
    outs, counts, groups := DealShapes(file, header, n, bytesPerFile, little, shapes);
    if Consists(data, shapes) {
      if SmallRecords(shapes, bytesPerFile) {
        AllDealtExactly(groups, header, outs, counts, shapes, n, little);
      }
      if WellFormed(data, shapes) {
        QuotientSmall(|data| - HEADERSIZE, n);
        AllDealt(groups, shapes, n);
      }
    }
  }

  // ------------------------------------------------------------ the dBASE file

  function U16At(data: seq<Byte>, i: nat): nat
    requires i + 2 <= |data|
  {
    data[i] as nat + data[i + 1] as nat * 256
  }

  predicate HeaderLengthOk(length: nat) { length % 32 == 1 && length >= 65 }

  /** The fields of the dBASE header are little-endian numbers of 16 bits. */
  lemma U16AtReads(before: seq<Byte>, v: nat, after: seq<Byte>)
    requires v < 65536
    ensures U16At(before + [(v % 256) as Byte, (v / 256) as Byte] + after, |before|) == v
  {
    var data := before + [(v % 256) as Byte, (v / 256) as Byte] + after;
    assert data[|before|] == (v % 256) as Byte && data[|before| + 1] == (v / 256) as Byte;
  }

  /** A header is 32 bytes, at least one field of 32 bytes, and a closing byte. */
  lemma HeaderLengthExactly(length: nat)
    ensures HeaderLengthOk(length) <==> exists fields: nat :: fields >= 1 && length == 32 + Fields(fields) + 1
  {
    if HeaderLengthOk(length) {
      var fields: nat := length / 32 - 1;
      assert length == 32 + Fields(fields) + 1;
    }
  }

  /** The size of the descriptions of that many fields. */
  function Fields(n: nat): nat { 32 * n }

  type Row = seq<Byte>

  /** The stream goes on with these rows; what follows them does not matter. */
  ghost predicate RowsAhead(file: InFile, rows: seq<Row>, recordSize: nat)
    reads file
  {
    !file.eof && Flat(rows) <= file.rest && forall i | 0 <= i < |rows| :: |rows[i]| == recordSize
  }

  lemma FirstRow(rows: seq<Row>, rest: seq<Byte>)
    requires rows != [] && Flat(rows) <= rest
    ensures |rows[0]| <= |rest| && rest[..|rows[0]|] == rows[0] && Flat(rows[1..]) <= rest[|rows[0]|..]
  {
    FlatCons(rows);
    SplitPrefix(rows[0], Flat(rows[1..]), rest);
  }

  lemma FlatCons(rows: seq<Row>)
    requires rows != []
    ensures Flat(rows) == rows[0] + Flat(rows[1..])
  {
    assert rows == [rows[0]] + rows[1..];
    FlatAppend([rows[0]], rows[1..]);
    FlatSnoc([], rows[0]);
    assert [] + [rows[0]] == [rows[0]] && Flat<Byte>([]) + rows[0] == rows[0];
  }

  lemma SplitPrefix(a: seq<Byte>, b: seq<Byte>, s: seq<Byte>)
    requires a + b <= s
    ensures |a| <= |s| && s[..|a|] == a && b <= s[|a|..]
  {
    assert s == a + (b + s[|a + b|..]);
  }

  /** Copies `count` rows. */
  method CopyRows(file: InFile, recordSize: nat, count: nat, ghost rows: seq<Row>) returns (out: seq<Byte>)
    modifies file
    ensures old(RowsAhead(file, rows, recordSize)) && count <= |rows| ==>
              RowsAhead(file, rows[count..], recordSize) && out == Flat(rows[..count])
  {
    out := [];
    ghost var ok := RowsAhead(file, rows, recordSize) && count <= |rows|;
    assert rows[0..] == rows;
    for j := 0 to count
      invariant ok ==> RowsAhead(file, rows[j..], recordSize) && out == Flat(rows[..j])
    {
      if ok {
        FirstRow(rows[j..], file.rest);
        assert rows[j..][1..] == rows[j + 1..];
        FlatSnoc(rows[..j], rows[j]);
        assert rows[..j] + [rows[j]] == rows[..j + 1];
      }
      var record := file.Read(recordSize);
      out := out + record;
    }
  }

  /** The header of a part: that of the file, with a record count of its own. */
  function Patched(header: seq<Byte>, count: nat): seq<Byte>
    requires |header| >= 8 && count < U32
  {
    header[..4] + ToBytes(count, true) + header[8..]
  }

  /** The count is read back from the four bytes at 4, in little-endian order, and nothing else is changed. */
  lemma PatchedReads(header: seq<Byte>, count: nat)
    requires |header| >= 8 && count < U32
    ensures var h := Patched(header, count);
            && |h| == |header| && FromBytes(h[4..8], true) == count
            && forall i | 0 <= i < |h| && !(4 <= i < 8) :: h[i] == header[i]
  {
    var h := Patched(header, count);
    assert h[4..8] == ToBytes(count, true);
    BytesRoundTrip(count, true);
  }

  /** The dBASE file consists of its header and these rows, perhaps with something behind them. */
  predicate RowsOf(data: seq<Byte>, rows: seq<Row>) {
    && |data| >= 12 && U16At(data, 8) <= |data|
    && Flat(rows) <= data[U16At(data, 8)..]
    && forall i | 0 <= i < |rows| :: |rows[i]| == U16At(data, 10)
  }

  function Sum(counts: seq<nat>): nat {
    if counts == [] then 0 else Sum(counts[..|counts| - 1]) + counts[|counts| - 1]
  }

  lemma {:induction false} SumPrefix(counts: seq<nat>, i: nat)
    requires i < |counts|
    ensures Sum(counts[..i]) + counts[i] == Sum(counts[..i + 1]) <= Sum(counts)
    decreases |counts|
  {
    assert counts[..i + 1][..i] == counts[..i];
    if i + 1 == |counts| {
      assert counts[..i + 1] == counts;
    } else {
      SumPrefix(counts[..|counts| - 1], i);
      assert counts[..|counts| - 1][..i] == counts[..i] && counts[..|counts| - 1][..i + 1] == counts[..i + 1];
    }
  }

  /** Groups of rows, the next rows in order, as many as each part has shapes; and the parts made of them. */
  ghost predicate RowParts(rowGroups: seq<seq<Row>>, counts: seq<nat>, rows: seq<Row>, outs: seq<seq<Byte>>) {
    && |rowGroups| == |outs| <= |counts| && Flat(rowGroups) <= rows
    && |Flat(rowGroups)| == Sum(counts[..|outs|])
    && forall i | 0 <= i < |outs| :: |rowGroups[i]| == counts[i] && outs[i] == Flat(rowGroups[i])
  }

  lemma RowPartsGrow(rowGroups: seq<seq<Row>>, counts: seq<nat>, rows: seq<Row>, outs: seq<seq<Byte>>)
    requires RowParts(rowGroups, counts, rows, outs) && |outs| < |counts| && Sum(counts) <= |rows|
    ensures var i, left := |outs|, rows[|Flat(rowGroups)|..];
            && counts[i] <= |left|
            && RowParts(rowGroups + [left[..counts[i]]], counts, rows, outs + [Flat(left[..counts[i]])])
            && left[counts[i]..] == rows[|Flat(rowGroups + [left[..counts[i]]])|..]
  {
    var i, left := |outs|, rows[|Flat(rowGroups)|..];
    SumPrefix(counts, i);
    FlatSnoc(rowGroups, left[..counts[i]]);
    TakeMore(rows, Flat(rowGroups), counts[i]);
  }

  lemma TakeMore(rows: seq<Row>, taken: seq<Row>, k: nat)
    requires taken <= rows && |taken| + k <= |rows|
    ensures var more := rows[|taken|..][..k];
            taken + more <= rows && rows[|taken|..][k..] == rows[|taken + more|..]
  {
    assert rows == taken + rows[|taken|..];
    assert rows[|taken|..] == rows[|taken|..][..k] + rows[|taken|..][k..];
  }

  /** Deals the rows out by the counts. */
  method DealRows(file: InFile, recordSize: nat, counts: seq<nat>, ghost rows: seq<Row>)
    returns (outs: seq<seq<Byte>>, ghost rowGroups: seq<seq<Row>>)
    modifies file
    ensures |outs| == |counts|
    ensures old(RowsAhead(file, rows, recordSize)) && Sum(counts) <= |rows| ==> RowParts(rowGroups, counts, rows, outs)
  {
    outs, rowGroups := [], [];
    ghost var good := RowsAhead(file, rows, recordSize) && Sum(counts) <= |rows|;
    assert rows[0..] == rows && counts[..0] == [];
    for i := 0 to |counts|
      invariant |outs| == i
      invariant good ==>
                  RowParts(rowGroups, counts, rows, outs) && RowsAhead(file, rows[|Flat(rowGroups)|..], recordSize)
    {
      ghost var left := if good then rows[|Flat(rowGroups)|..] else [];
      if good { RowPartsGrow(rowGroups, counts, rows, outs); }
      var records := CopyRows(file, recordSize, counts[i], left);
      outs := outs + [records];
      rowGroups := if good then rowGroups + [left[..counts[i]]] else [];
    }
  }

  /** Puts the header before every part, with the number of records of that part. */
  method AddHeaders(header: seq<Byte>, parts: seq<seq<Byte>>, counts: seq<nat>) returns (outs: seq<seq<Byte>>)
    requires |parts| == |counts| && |header| >= 8 && forall i | 0 <= i < |counts| :: counts[i] < U32
    ensures |outs| == |parts| && forall i | 0 <= i < |outs| :: outs[i] == Patched(header, counts[i]) + parts[i]
  {
    outs := [];
    for i := 0 to |counts|
      invariant |outs| == i
      invariant forall k | 0 <= k < i :: outs[k] == Patched(header, counts[k]) + parts[k]
    {
      var out := header + parts[i];
      PatchHeader(header, parts[i], counts[i]);
      outs := outs + [out[..4] + ToBytes(counts[i], true) + out[8..]];
    }
  }

  lemma PatchHeader(header: seq<Byte>, rows: seq<Byte>, count: nat)
    requires |header| >= 8 && count < U32
    ensures var out := header + rows;
            out[..4] + ToBytes(count, true) + out[8..] == Patched(header, count) + rows
  {
    var out := header + rows;
    assert out[8..] == header[8..] + rows && out[..4] == header[..4];
  }

  /** The two lengths in the fixed header; of a file without one, what the variables held before. */
  function LengthsOf(data: seq<Byte>, before: (nat, nat)): (nat, nat) {
    if |data| >= 12 then (U16At(data, 8), U16At(data, 10)) else before
  }

  /** Splits the dBASE file as the shapes were split. */
  method SplitRows(data: seq<Byte>, before: (nat, nat), counts: seq<nat>, ghost rows: seq<Row>)
    returns (ok: bool, outs: seq<seq<Byte>>, ghost rowGroups: seq<seq<Row>>)
    requires forall i | 0 <= i < |counts| :: counts[i] < U32
    ensures ok ==> data != []
    ensures data != [] ==> ok == ((data[0] == 0x03 || data[0] == 0x83) && HeaderLengthOk(LengthsOf(data, before).0))
    ensures ok && Sum(counts) <= |rows| && RowsOf(data, rows) ==>
              && |outs| == |counts| == |rowGroups| && Flat(rowGroups) <= rows
              && forall i | 0 <= i < |counts| ::
                   && |rowGroups[i]| == counts[i]
                   && outs[i] == Patched(data[..U16At(data, 8)], counts[i]) + Flat(rowGroups[i])
  {
    outs, rowGroups := [], [];
    var (headerLength, recordSize) := LengthsOf(data, before);
    if data == [] || (data[0] != 0x03 && data[0] != 0x83) || !HeaderLengthOk(headerLength) {
      return false, outs, rowGroups;
    }
    ok := true;
    var file := new InFile(data);
    var header := file.Read(headerLength);
    var parts;
    parts, rowGroups := DealRows(file, recordSize, counts, rows);
    if |header| >= 8 {
      outs := AddHeaders(header, parts, counts);
    }
    assert counts[..|counts|] == counts;
  }

  /** Part `i` of one file holds exactly the shapes, part `i` of the other exactly the rows, of one stretch. */
  ghost predicate Aligned(groups: seq<seq<Shape>>, rowGroups: seq<seq<Row>>, shpHeader: seq<Byte>, dbfHeader: seq<Byte>,
                          shpParts: seq<seq<Byte>>, dbfParts: seq<seq<Byte>>, little: bool) {
    && |groups| == |rowGroups| == |shpParts| == |dbfParts| && |dbfHeader| >= 8
    && forall i | 0 <= i < |groups| ::
         && ShapesOk(groups[i]) && |groups[i]| == |rowGroups[i]|
         && shpParts[i] == shpHeader + Encoded(groups[i], little)
         && dbfParts[i] == Patched(dbfHeader, |rowGroups[i]|) + Flat(rowGroups[i])
  }

  /**
   Splits both files. For a well-formed shapefile and a dBASE file with a row for every shape
   the parts are aligned, and together they hold all shapes and all rows in order.
   */
  method SplitShp(shp: seq<Byte>, dbf: seq<Byte>, before: (nat, nat), n: nat, little: bool,
                  ghost shapes: seq<Shape>, ghost rows: seq<Row>)
    returns (ok: bool, shpParts: seq<seq<Byte>>, dbfParts: seq<seq<Byte>>,
             ghost groups: seq<seq<Shape>>, ghost rowGroups: seq<seq<Row>>)
    requires n > 0
    ensures ok ==> |shp| >= HEADERSIZE && dbf != [] && HeaderLengthOk(LengthsOf(dbf, before).0)
    ensures |shp| >= HEADERSIZE && dbf != [] ==>
              ok == ((dbf[0] == 0x03 || dbf[0] == 0x83) && HeaderLengthOk(LengthsOf(dbf, before).0))
    ensures ok && WellFormed(shp, shapes) && |rows| == |shapes| && RowsOf(dbf, rows) ==>
              && |shpParts| == n && Flat(groups) == shapes && Flat(rowGroups) == rows
              && Aligned(groups, rowGroups, shp[..HEADERSIZE], dbf[..U16At(dbf, 8)], shpParts, dbfParts, little)
  {
    rowGroups, dbfParts := [], [];
    var counts;
    ok, shpParts, counts, groups := SplitShapes(shp, n, little, shapes);
    if !ok {
      return;
    }
    ok, dbfParts, rowGroups := SplitRows(dbf, before, counts, rows);
    if ok && WellFormed(shp, shapes) && |rows| == |shapes| && RowsOf(dbf, rows) {
      SumIsLength(groups, counts);
      SumIsLength(rowGroups, counts);
    }
  }

  lemma {:induction false} SumIsLength<T>(groups: seq<seq<T>>, counts: seq<nat>)
    requires |groups| == |counts| && forall i | 0 <= i < |groups| :: counts[i] == |groups[i]|
    ensures |Flat(groups)| == Sum(counts)
    decreases |groups|
  {
    if groups != [] { SumIsLength(groups[..|groups| - 1], counts[..|counts| - 1]); }
  }
}
