/**
 Splitting a CSV file into parts. Lines are dealt out in order; in multiline mode a part does
 not end inside a quoted field. One file more than asked for takes what the division leaves.
 */
module CsvSplit {
  import opened Basics

  type Line = string

  /** Whether quotes are balanced over some lines. */
  predicate Even(ls: seq<Line>) {
    ls == [] || (Even(ls[..|ls| - 1]) == EvenLine(ls[|ls| - 1]))
  }

  predicate EvenLine(l: Line) {
    l == "" || (EvenLine(l[..|l| - 1]) == (l[|l| - 1] != '"'))
  }

  lemma EvenSnoc(ls: seq<Line>, l: Line)
    ensures Even(ls + [l]) == (Even(ls) == EvenLine(l))
  {
    assert (ls + [l])[..|ls|] == ls;
  }

  lemma {:induction false} EvenAppend(a: seq<Line>, b: seq<Line>)
    ensures Even(a + b) == (Even(a) == Even(b))
    decreases |b|
  {
    if b == [] {
      assert a + b == a;
    } else {
      assert a + b == (a + b[..|b| - 1]) + [b[|b| - 1]];
      EvenSnoc(a + b[..|b| - 1], b[|b| - 1]);
      EvenAppend(a, b[..|b| - 1]);
    }
  }

  /** Lines per part; the subtraction is one of unsigned numbers. */
  function LinesPerFile(count: nat, headersize: nat, n: nat): nat
    requires n > 0 && headersize < U32
  {
    (if count >= headersize then count - headersize else SIZET + count - headersize) / n
  }

  /** A part ends with the first record that reaches the number of lines per part. */
  ghost predicate StopsInTime(part: seq<Line>, multiline: bool, q: nat) {
    part == [] || exists b: nat :: b < |part| && b < q && IsLastRecord(part, multiline, b)
  }

  /** The lines from `b` on are one record: quotes balance there, and nowhere in between. */
  ghost predicate IsLastRecord(part: seq<Line>, multiline: bool, b: nat)
    requires b < |part|
  {
    if multiline then Even(part[..b]) && Even(part) && forall c | b < c < |part| :: !Even(part[..c])
    else b == |part| - 1
  }

  /** The file after its header. */
  function Data(lines: seq<Line>, headersize: nat): seq<Line> {
    if headersize <= |lines| then lines[headersize..] else []
  }

  /** An input file with the lines still ahead; `bad` is the state after the end was hit. */
  class LineFile {
    const terminated: bool // whether the last line has its newline
    var ahead: seq<Line>
    var bad: bool

    constructor (lines: seq<Line>, terminated: bool)
      ensures ahead == lines && this.terminated == terminated && !bad && Valid()
    {
      ahead, this.terminated, bad := lines, terminated, false;
    }

    ghost predicate Valid()
      reads this
    {
      bad ==> ahead == []
    }

    /** A line was read last; the end is hit only if it has no newline. */
    ghost predicate JustRead()
      reads this
    {
      bad == (ahead == [] && !terminated)
    }

    /** The number of newline characters. */
    function Newlines(): (r: nat)
      reads this
      requires !terminated ==> ahead != []
      ensures r <= |ahead| <= r + 1 && (terminated ==> r == |ahead|)
    {
      if terminated then |ahead| else |ahead| - 1
    }

    /** At the end `line` becomes empty, or, if the end was hit before, stays what it was. */
    method GetLine(line: Line) returns (ok: bool, line': Line)
      requires Valid()
      modifies this
      ensures Valid() && ok == (old(ahead) != [])
      ensures ok ==> line' == old(ahead)[0] && ahead == old(ahead)[1..] && JustRead()
      ensures !ok ==> line' == (if old(bad) then line else "") && ahead == [] && bad
    {
      if bad {
        return false, line;
      }
      if ahead != [] {
        line', ahead := ahead[0], ahead[1..];
        bad := ahead == [] && !terminated;
        ok := true;
      } else {
        ok, line', bad := false, "", true;
      }
    }
  }

  /** Each quote switches the mode. */
  method ScanQuotes(line: Line, mode: nat) returns (mode': nat)
    requires mode <= 1
    ensures mode' <= 1 && ((mode' == mode) == EvenLine(line))
  {
    mode' := mode;
    for lc := 0 to |line|
      invariant mode' <= 1 && ((mode' == mode) == EvenLine(line[..lc]))
    {
      assert line[..lc + 1][..lc] == line[..lc];
      if line[lc] == '"' {
        mode' := if mode' == 1 then 0 else 1;
      }
    }
    assert line[..|line|] == line;
  }

  // -------------------------------------------------------- where parts end

  /** A part may end before line `k`: quotes balance up to there, or nobody asks for that. */
  predicate Boundary(data: seq<Line>, multiline: bool, k: nat)
    requires k <= |data|
  {
    multiline ==> Even(data[..k])
  }

  /** The first boundary from `k` on, or the end. */
  function NextBoundary(data: seq<Line>, multiline: bool, k: nat): (c: nat)
    ensures Min(k, |data|) <= c <= |data| && (c < |data| ==> Boundary(data, multiline, c))
    ensures forall j | k <= j < c :: !Boundary(data, multiline, j)
    decreases |data| - k
  {
    if k >= |data| then |data|
    else if Boundary(data, multiline, k) then k
    else NextBoundary(data, multiline, k + 1)
  }

  lemma NextIs(data: seq<Line>, multiline: bool, k: nat, c: nat)
    requires c <= |data| && (c == |data| || (k <= c && Boundary(data, multiline, c)))
    requires forall j | k <= j < c :: !Boundary(data, multiline, j)
    ensures NextBoundary(data, multiline, k) == c
  {}

  /** A part runs to the end of the file inside a quoted field. */
  predicate CutOff(rest: seq<Line>, multiline: bool, q: nat) {
    !Boundary(rest, multiline, NextBoundary(rest, multiline, q))
  }

  /** The next part takes `q` lines and what is left of the record it is in; one that is cut off has its last line twice. */
  function FirstPart(rest: seq<Line>, multiline: bool, q: nat): seq<Line> {
    if CutOff(rest, multiline, q) then rest + [rest[|rest| - 1]] else rest[..NextBoundary(rest, multiline, q)]
  }

  /** What the next part leaves. */
  function Left(rest: seq<Line>, multiline: bool, q: nat): seq<Line> {
    rest[NextBoundary(rest, multiline, q)..]
  }

  /** `n` parts. */
  function Parts(rest: seq<Line>, multiline: bool, q: nat, n: nat): (parts: seq<seq<Line>>)
    ensures |parts| == n
    decreases n
  {
    if n == 0 then [] else [FirstPart(rest, multiline, q)] + Parts(Left(rest, multiline, q), multiline, q, n - 1)
  }

  /** Among `n` parts is one that reads a record without end forever. */
  predicate Endless(rest: seq<Line>, terminated: bool, multiline: bool, q: nat, n: nat)
    decreases n
  {
    && n > 0
    && if CutOff(rest, multiline, q) then terminated || EvenLine(rest[|rest| - 1])
       else Endless(Left(rest, multiline, q), terminated, multiline, q, n - 1)
  }

  // ------------------------------------------------ what that means for the parts

  /** How many lines `n` parts take. */
  function Reach(rest: seq<Line>, multiline: bool, q: nat, n: nat): (r: nat)
    ensures r <= |rest|
    decreases n
  {
    if n == 0 then 0 else NextBoundary(rest, multiline, q) + Reach(Left(rest, multiline, q), multiline, q, n - 1)
  }

  /** What `i` full parts hold. */
  function Full(i: nat, q: nat): nat { i * q }

  lemma FullStep(i: nat, q: nat)
    ensures Full(i + 1, q) == Full(i, q) + q
  {}

  /** Parts are full unless the file ends; without multiline mode no part is more than full. */
  lemma {:induction false} PartsFull(rest: seq<Line>, multiline: bool, q: nat, n: nat)
    ensures Reach(rest, multiline, q, n) >= Min(|rest|, Full(n, q))
    ensures !multiline ==> Reach(rest, multiline, q, n) == Min(|rest|, Full(n, q))
    decreases n
  {
    if n > 0 {
      PartsFull(Left(rest, multiline, q), multiline, q, n - 1);
      FullStep(n - 1, q);
    }
  }

  /** What is left is closed exactly if everything is. */
  lemma LeftCloses(rest: seq<Line>, multiline: bool, q: nat)
    requires !CutOff(rest, multiline, q)
    ensures var left := Left(rest, multiline, q);
            Boundary(left, multiline, |left|) == Boundary(rest, multiline, |rest|)
  {
    var c, left := NextBoundary(rest, multiline, q), Left(rest, multiline, q);
    assert rest == rest[..c] + left;
    EvenAppend(rest[..c], left);
    assert rest[..|rest|] == rest && left[..|left|] == left;
  }

  lemma ClosedNotCutOff(rest: seq<Line>, multiline: bool, q: nat)
    requires Boundary(rest, multiline, |rest|)
    ensures !CutOff(rest, multiline, q)
  {}

  lemma {:induction false} NothingLeft(multiline: bool, q: nat, n: nat, terminated: bool)
    ensures !Endless([], terminated, multiline, q, n) && Reach([], multiline, q, n) == 0
    decreases n
  {
    if n > 0 { NothingLeft(multiline, q, n - 1, terminated); }
  }

  /**
   The loop runs forever exactly if quotes are not closed in the end, the parts reach the record
   that is open then, and the last line has its newline or balanced quotes.
   */
  lemma {:induction false} EndlessExactly(rest: seq<Line>, terminated: bool, multiline: bool, q: nat, n: nat)
    ensures Endless(rest, terminated, multiline, q, n) <==>
              && !Boundary(rest, multiline, |rest|) && Reach(rest, multiline, q, n) == |rest|
              && (terminated || EvenLine(rest[|rest| - 1]))
    decreases n
  {
    if n > 0 {
      if CutOff(rest, multiline, q) {
        NothingLeft(multiline, q, n - 1, terminated);
      } else {
        var left := Left(rest, multiline, q);
        LeftCloses(rest, multiline, q);
        EndlessExactly(left, terminated, multiline, q, n - 1);
        if left != [] { assert left[|left| - 1] == rest[|rest| - 1]; }
      }
    }
  }

  lemma Stretch(rest: seq<Line>, c: nat, r: nat)
    requires c + r <= |rest|
    ensures rest[..c] + rest[c..][..r] == rest[..c + r]
  {}

  /** If quotes are closed, the parts side by side are what they reach. */
  lemma {:induction false} PartsJoin(rest: seq<Line>, multiline: bool, q: nat, n: nat)
    requires Boundary(rest, multiline, |rest|)
    ensures Flat(Parts(rest, multiline, q, n)) == rest[..Reach(rest, multiline, q, n)]
    decreases n
  {
    if n > 0 {
      var c, left := NextBoundary(rest, multiline, q), Left(rest, multiline, q);
      var r := Reach(left, multiline, q, n - 1);
      ClosedNotCutOff(rest, multiline, q);
      LeftCloses(rest, multiline, q);
      PartsJoin(left, multiline, q, n - 1);
      FlatCons(rest[..c], Parts(left, multiline, q, n - 1));
      Stretch(rest, c, r);
    }
  }

  lemma FlatCons(part: seq<Line>, parts: seq<seq<Line>>)
    ensures Flat([part] + parts) == part + Flat(parts)
  {
    FlatAppend([part], parts);
    assert Flat([part]) == part by { FlatSnoc([], part); assert [] + [part] == [part]; }
  }

  /** The start of the record that line `k - 1` is in. */
  function RecordStart(data: seq<Line>, multiline: bool, k: nat): (b: nat)
    requires 0 < k <= |data|
    ensures b < k && Boundary(data, multiline, b) && forall j | b < j < k :: !Boundary(data, multiline, j)
  {
    if Boundary(data, multiline, k - 1) then k - 1
    else
      assert k > 1 by { assert Even(data[..0]); }
      RecordStart(data, multiline, k - 1)
  }

  /** A part that is not cut off stops in time. */
  lemma PartStops(rest: seq<Line>, multiline: bool, q: nat)
    requires !CutOff(rest, multiline, q)
    ensures var part := FirstPart(rest, multiline, q); StopsInTime(part, multiline, q) && (multiline ==> Even(part))
  {
    var part, e := FirstPart(rest, multiline, q), NextBoundary(rest, multiline, q);
    if e > 0 {
      if multiline {
        var b := RecordStart(rest, true, Min(q, e));
        assert part[..b] == rest[..b];
        forall c | b < c < e ensures !Even(part[..c]) {
          assert !Boundary(rest, true, c) && part[..c] == rest[..c];
        }
        assert IsLastRecord(part, multiline, b);
      } else {
        assert IsLastRecord(part, multiline, e - 1);
      }
    }
  }

  lemma {:induction false} PartsStop(rest: seq<Line>, multiline: bool, q: nat, n: nat)
    requires Boundary(rest, multiline, |rest|)
    ensures forall i | 0 <= i < n ::
              var part := Parts(rest, multiline, q, n)[i]; StopsInTime(part, multiline, q) && (multiline ==> Even(part))
    decreases n
  {
    if n > 0 {
      ClosedNotCutOff(rest, multiline, q);
      LeftCloses(rest, multiline, q);
      PartStops(rest, multiline, q);
      PartsStop(Left(rest, multiline, q), multiline, q, n - 1);
    }
  }

  // ------------------------------------------------------------------ records

  /** After `c` more lines the quote that `first` opened is still open. */
  predicate OpenAfter(first: Line, rest: seq<Line>, c: nat)
    requires c <= |rest|
  {
    !Even([first] + rest[..c])
  }

  /** The record that starts with `first` ends after `c` more lines. */
  ghost predicate ClosesAt(first: Line, rest: seq<Line>, c: nat) {
    c <= |rest| && !OpenAfter(first, rest, c) && forall k | 0 <= k < c :: OpenAfter(first, rest, k)
  }

  /** The file ends while the quote is open. */
  ghost predicate NeverCloses(first: Line, rest: seq<Line>) {
    forall k | 0 <= k <= |rest| :: OpenAfter(first, rest, k)
  }

  lemma OpenNext(first: Line, rest: seq<Line>, c: nat)
    requires c < |rest|
    ensures OpenAfter(first, rest, c + 1) == (OpenAfter(first, rest, c) == EvenLine(rest[c]))
  {
    assert [first] + rest[..c + 1] == ([first] + rest[..c]) + [rest[c]];
    EvenSnoc([first] + rest[..c], rest[c]);
  }

  lemma OpenFirst(first: Line, rest: seq<Line>)
    ensures OpenAfter(first, rest, 0) == !EvenLine(first)
  {
    assert [first] + rest[..0] == [] + [first];
    EvenSnoc([], first);
  }

  /** Behind a boundary, records end where the next boundary is. */
  lemma OpenIsNoBoundary(data: seq<Line>, b: nat, c: nat)
    requires b < |data| && Even(data[..b]) && c <= |data| - b - 1
    ensures OpenAfter(data[b], data[b + 1..], c) == !Boundary(data, true, b + 1 + c)
  {
    assert data[..b + 1 + c] == data[..b] + ([data[b]] + data[b + 1..][..c]);
    EvenAppend(data[..b], [data[b]] + data[b + 1..][..c]);
  }

  function LastLine(first: Line, rest: seq<Line>): Line {
    if rest == [] then first else rest[|rest| - 1]
  }

  /** If all quotes are closed in the end, every record that is started ends. */
  lemma ClosedCloses(data: seq<Line>, b: nat)
    requires Even(data) && b < |data| && Even(data[..b])
    ensures !NeverCloses(data[b], data[b + 1..])
  {
    var rest := data[b + 1..];
    OpenIsNoBoundary(data, b, |rest|);
    assert data[..|data|] == data;
    assert !OpenAfter(data[b], rest, |rest|);
  }

  /**
   Reads on while a quoted field is open. If the file ends before it closes, the loop runs forever
   exactly if the last line has its newline or balanced quotes; otherwise it writes that line
   twice. Else it stops with the line that closes the field.
   */
  method FinishRecord(file: LineFile, first: Line, start: seq<Line>)
    returns (part: seq<Line>, endless: bool, ghost c: nat)
    requires file.Valid() && file.JustRead()
    modifies file
    ensures file.Valid() && |file.ahead| <= old(|file.ahead|)
    ensures var rest := old(file.ahead);
            if NeverCloses(first, rest)
            then endless == (file.terminated || EvenLine(LastLine(first, rest)))
                 && (!endless ==> part == start + rest + [LastLine(first, rest)] && file.ahead == [])
            else !endless && ClosesAt(first, rest, c) && part == start + rest[..c] && file.ahead == rest[c..]
  {
    c := 0;
    part, endless := start, false;
    var line, mode := first, 0;
    ghost var doubled: bool := false;
    ghost var rest := file.ahead;
    OpenFirst(first, rest);
    mode := ScanQuotes(line, mode);
    while mode == 1
      invariant file.Valid() && mode <= 1 && c <= |rest| && file.ahead == rest[c..]
      invariant forall k | 0 <= k < c :: OpenAfter(first, rest, k)
      invariant !doubled ==> file.JustRead() && line == LastLine(first, rest[..c]) && part == start + rest[..c]
      invariant !doubled ==> (mode == 1 <==> OpenAfter(first, rest, c))
      invariant doubled ==> mode == 0 && c == |rest| && NeverCloses(first, rest) && !file.terminated
      invariant doubled ==> !EvenLine(LastLine(first, rest)) && part == start + rest + [LastLine(first, rest)]
      decreases |file.ahead|, mode
    {
      var ok;
      ok, line := file.GetLine(line);
      part := part + [line];
      if ok {
        OpenNext(first, rest, c);
        assert rest[..c + 1] == rest[..c] + [line];
        c := c + 1;
      } else {
        assert rest[..c] == rest;
        doubled := !EvenLine(line);
        if EvenLine(line) {
          return part, true, c;
        }
      }
      mode := ScanQuotes(line, mode);
    }
    if !doubled { assert ClosesAt(first, rest, c); }
  }

  /** Whole records have been read, not more than asked for. */
  ghost predicate Underway(rest: seq<Line>, multiline: bool, q: nat, part: seq<Line>) {
    && part <= rest && Boundary(rest, multiline, |part|)
    && forall k | q <= k < |part| :: !Boundary(rest, multiline, k)
  }

  /** The file ended inside a quoted field, and its last line was written twice. */
  ghost predicate Doubled(rest: seq<Line>, terminated: bool, multiline: bool, q: nat, part: seq<Line>) {
    && rest != [] && part == rest + [rest[|rest| - 1]] && !terminated && !EvenLine(rest[|rest| - 1])
    && CutOff(rest, multiline, q)
  }

  /** The boundaries behind the record that starts at `b`. */
  lemma RecordRead(rest: seq<Line>, b: nat)
    requires b < |rest| && Boundary(rest, true, b)
    ensures forall k | b < k <= |rest| :: Boundary(rest, true, k) == !OpenAfter(rest[b], rest[b + 1..], k - b - 1)
  {
    forall k | b < k <= |rest|
      ensures Boundary(rest, true, k) == !OpenAfter(rest[b], rest[b + 1..], k - b - 1)
    {
      OpenIsNoBoundary(rest, b, k - b - 1);
    }
  }

  lemma TakeOn(rest: seq<Line>, part: seq<Line>, c: nat)
    requires part <= rest && |part| + 1 + c <= |rest|
    ensures part + [rest[|part|]] + rest[|part| + 1..][..c] == rest[..|part| + 1 + c]
  {
    var k := |part|;
    assert rest[..k + 1 + c] == rest[..k] + [rest[k]] + rest[k + 1..k + 1 + c];
    assert rest[k + 1..][..c] == rest[k + 1..k + 1 + c];
  }

  lemma RecordCloses(rest: seq<Line>, q: nat, part: seq<Line>, c: nat)
    requires Underway(rest, true, q, part) && |part| < q && |part| < |rest|
    requires ClosesAt(rest[|part|], rest[|part| + 1..], c)
    ensures Underway(rest, true, q, part + [rest[|part|]] + rest[|part| + 1..][..c])
  {
    RecordRead(rest, |part|);
    TakeOn(rest, part, c);
  }

  lemma RecordNeverCloses(rest: seq<Line>, q: nat, part: seq<Line>)
    requires Underway(rest, true, q, part) && |part| < q && |part| < |rest|
    requires NeverCloses(rest[|part|], rest[|part| + 1..])
    ensures CutOff(rest, true, q)
    ensures part + [rest[|part|]] + rest[|part| + 1..] == rest
  {
    RecordRead(rest, |part|);
    NextIs(rest, true, q, |rest|);
  }

  /**
   Fills one part: records until it has `q` lines or the file ends. It takes what is left up to the
   first boundary from `q` on; if the file ends inside a quoted field instead, the loop runs
   forever, or the last line is written twice.
   */
  method WritePart(file: LineFile, multiline: bool, q: nat) returns (part: seq<Line>, endless: bool)
    requires file.Valid()
    modifies file
    ensures file.Valid()
    ensures var rest := old(file.ahead);
            && (endless <==> CutOff(rest, multiline, q) && (file.terminated || EvenLine(rest[|rest| - 1])))
            && (!endless ==> part == FirstPart(rest, multiline, q) && file.ahead == Left(rest, multiline, q))
  {
    part, endless := [], false;
    var line := "";
    ghost var rest := file.ahead;
    assert Boundary(rest, multiline, 0);
    ghost var doubled := false;
    while |part| < q
      invariant file.Valid()
      invariant doubled ==> file.ahead == [] && Doubled(rest, file.terminated, multiline, q, part)
      invariant !doubled ==> Underway(rest, multiline, q, part) && file.ahead == rest[|part|..]
      decreases |file.ahead|
    {
      var ok;
      ok, line := file.GetLine(line);
      if !ok {
        break;
      }
      ghost var before := part;
      part := part + [line];
      assert part <= rest && file.ahead == rest[|part|..];
      if multiline {
        part, endless, doubled := FinishPart(file, q, line, part, rest, before);
        if endless {
          return;
        }
      }
    }
    if !doubled { NextIs(rest, multiline, q, |part|); }
  }

  /** The record that was started behind `before`. */
  method FinishPart(file: LineFile, q: nat, line: Line, start: seq<Line>, ghost rest: seq<Line>, ghost before: seq<Line>)
    returns (part: seq<Line>, endless: bool, ghost doubled: bool)
    requires file.Valid() && file.JustRead() && |before| < q && |before| < |rest|
    requires Underway(rest, true, q, before) && line == rest[|before|] && start == before + [line]
    requires file.ahead == rest[|before| + 1..]
    modifies file
    ensures file.Valid() && |file.ahead| <= old(|file.ahead|)
    ensures endless ==> CutOff(rest, true, q) && (file.terminated || EvenLine(rest[|rest| - 1]))
    ensures !endless && doubled ==> file.ahead == [] && Doubled(rest, file.terminated, true, q, part)
    ensures !endless && !doubled ==> Underway(rest, true, q, part) && file.ahead == rest[|part|..]
  {
    ghost var c;
    part, endless, c := FinishRecord(file, line, start);
    doubled := NeverCloses(line, rest[|before| + 1..]);
    if doubled {
      RecordNeverCloses(rest, q, before);
    } else {
      RecordCloses(rest, q, before, c);
    }
  }

  /** A file of a single quote: with its newline the loop runs forever, without it the quote is written twice. */
  method UnclosedQuote(terminated: bool) returns (part: seq<Line>, endless: bool)
    ensures endless == terminated
    ensures !terminated ==> part == ["\"", "\""]
  {
    var file := new LineFile(["\""], terminated);
    var ok, line := file.GetLine("");
    assert !EvenLine("\"") by { assert "\""[..0] == ""; }
    OpenFirst("\"", []);
    assert NeverCloses("\"", []);
    ghost var c;
    part, endless, c := FinishRecord(file, line, [line]);
    assert !endless ==> [line] + [] + ["\""] == ["\"", "\""];
  }

  /** What is read when no line is left: nothing, or once more a last line without its newline. */
  function Filler(lines: seq<Line>, terminated: bool): Line {
    if terminated || lines == [] then "" else lines[|lines| - 1]
  }

  /** The header, filled up if the file is too short for it. */
  ghost predicate HeaderOf(headerlines: seq<Line>, lines: seq<Line>, terminated: bool, headersize: nat) {
    && |headerlines| == headersize
    && forall i | 0 <= i < headersize :: headerlines[i] == if i < |lines| then lines[i] else Filler(lines, terminated)
  }

  method ReadHeader(file: LineFile, headersize: nat) returns (headerlines: seq<Line>)
    requires file.Valid() && !file.bad
    modifies file
    ensures file.Valid() && file.ahead == Data(old(file.ahead), headersize)
    ensures HeaderOf(headerlines, old(file.ahead), file.terminated, headersize)
  {
    headerlines := [];
    var line := "";
    for i := 0 to headersize
      invariant file.Valid() && file.ahead == Data(old(file.ahead), i)
      invariant HeaderOf(headerlines, old(file.ahead), file.terminated, i)
      invariant i > 0 ==> line == headerlines[i - 1]
      invariant 0 < i <= old(|file.ahead|) ==> file.JustRead()
      invariant i == 0 ==> !file.bad
      invariant i > old(|file.ahead|) ==> file.bad
    {
      var ok;
      ok, line := file.GetLine(line);
      headerlines := headerlines + [line];
    }
  }

  /** The header before each part. */
  predicate BehindHeader(headerlines: seq<Line>, outputs: seq<seq<Line>>, parts: seq<seq<Line>>) {
    |outputs| == |parts| && forall i | 0 <= i < |parts| :: outputs[i] == headerlines + parts[i]
  }

  lemma BehindSnoc(headerlines: seq<Line>, outputs: seq<seq<Line>>, parts: seq<seq<Line>>, part: seq<Line>)
    requires BehindHeader(headerlines, outputs, parts)
    ensures BehindHeader(headerlines, outputs + [headerlines + part], parts + [part])
  {}

  /** What the parts hold if quotes are closed. */
  lemma PartsOfClosed(data: seq<Line>, multiline: bool, q: nat, n: nat)
    requires Boundary(data, multiline, |data|)
    ensures var parts := Parts(data, multiline, q, n);
            && Flat(parts) <= data
            && (forall i | 0 <= i < n :: StopsInTime(parts[i], multiline, q) && (multiline ==> Even(parts[i])))
            && (|data| <= Full(n, q) ==> Flat(parts) == data)
            && (!multiline ==> |Flat(parts)| == Min(|data|, Full(n, q)))
  {
    PartsStop(data, multiline, q, n);
    PartsJoin(data, multiline, q, n);
    PartsFull(data, multiline, q, n);
  }

  /** One part more is written. */
  lemma PartsOn(rest: seq<Line>, terminated: bool, multiline: bool, q: nat, n: nat, before: seq<seq<Line>>)
    requires n > 0 && (CutOff(rest, multiline, q) ==> !terminated && !EvenLine(rest[|rest| - 1]))
    ensures var left := Left(rest, multiline, q);
            && Endless(rest, terminated, multiline, q, n) == Endless(left, terminated, multiline, q, n - 1)
            && before + Parts(rest, multiline, q, n) == before + [FirstPart(rest, multiline, q)] + Parts(left, multiline, q, n - 1)
  {
    if CutOff(rest, multiline, q) { NothingLeft(multiline, q, n - 1, terminated); }
  }

  /**
   Writes `n` parts behind the header, each of them exactly as specified. The loop runs forever
   if and only if a part reaches a record that is never closed and the last line has its newline
   or balanced quotes.
   */
  method DealLines(file: LineFile, headerlines: seq<Line>, multiline: bool, n: nat, q: nat)
    returns (outputs: seq<seq<Line>>, endless: bool, ghost parts: seq<seq<Line>>)
    requires file.Valid()
    modifies file
    ensures file.Valid()
    ensures endless <==> Endless(old(file.ahead), file.terminated, multiline, q, n)
    ensures !endless ==> parts == Parts(old(file.ahead), multiline, q, n) && BehindHeader(headerlines, outputs, parts)
  {
    parts, outputs, endless := [], [], false;
    ghost var data := file.ahead;
    for i := 0 to n
      invariant file.Valid() && Parts(data, multiline, q, n) == parts + Parts(file.ahead, multiline, q, n - i)
      invariant Endless(data, file.terminated, multiline, q, n) == Endless(file.ahead, file.terminated, multiline, q, n - i)
      invariant BehindHeader(headerlines, outputs, parts)
    {
      ghost var rest := file.ahead;
      var part;
      part, endless := WritePart(file, multiline, q);
      if endless {
        return;
      }
      PartsOn(rest, file.terminated, multiline, q, n - i, parts);
      BehindSnoc(headerlines, outputs, parts, part);
      outputs := outputs + [headerlines + part];
      parts := parts + [part];
    }
  }

  /**
   Splits a file into `n` parts and one more, whatever its quotes. If they are closed, the parts
   hold a prefix of the data in order, and all of it whenever there are not more lines than n + 1
   parts hold; without multiline mode they hold exactly as many as fit. If they are not, the loop
   runs forever exactly if the open record is reached and the last line has its newline or
   balanced quotes; otherwise the part that reaches it has the last line twice.
   */
  method Split(file: LineFile, headersize: nat, multiline: bool, n: nat)
    returns (outputs: seq<seq<Line>>, endless: bool, ghost headers: seq<Line>, ghost parts: seq<seq<Line>>)
    requires file.Valid() && !file.bad && (!file.terminated ==> file.ahead != []) && n > 0 && headersize < U32
    modifies file
    ensures HeaderOf(headers, old(file.ahead), file.terminated, headersize)
    ensures var data := Data(old(file.ahead), headersize);
            var q := LinesPerFile(old(file.Newlines()), headersize, n);
            && (endless <==> Endless(data, file.terminated, multiline, q, n + 1))
            && (!endless ==> parts == Parts(data, multiline, q, n + 1) && BehindHeader(headers, outputs, parts))
    ensures var data := Data(old(file.ahead), headersize);
            var q := LinesPerFile(old(file.Newlines()), headersize, n);
            !multiline || Even(data) ==>
              && !endless && |outputs| == |parts| == n + 1
              && (forall i | 0 <= i <= n :: outputs[i] == headers + parts[i])
              && Flat(parts) <= data
              && (forall i | 0 <= i <= n :: StopsInTime(parts[i], multiline, q) && (multiline ==> Even(parts[i])))
              && (|data| <= Full(n + 1, q) ==> Flat(parts) == data)
              && (!multiline ==> |Flat(parts)| == Min(|data|, Full(n + 1, q)))
  {
    var linesPerFile := LinesPerFile(file.Newlines(), headersize, n);
    headers := [];
    var headerlines := ReadHeader(file, headersize);
    headers := headerlines;
    ghost var data := file.ahead;
    outputs, endless, parts := DealLines(file, headerlines, multiline, n + 1, linesPerFile);
    if !multiline || Even(data) {
      assert data[..|data|] == data;
      PartsOfClosed(data, multiline, linesPerFile, n + 1);
      EndlessExactly(data, file.terminated, multiline, linesPerFile, n + 1);
    }
  }

  /**
   When every line ends with a newline, nothing is lost exactly if the remainder of the
   division is at most the quotient.
   */
  lemma {:induction false} NothingLostExactly(lines: nat, headersize: nat, n: nat)
    requires headersize <= lines && n > 0 && headersize < U32
    ensures var d := lines - headersize;
            Min(d, Full(n + 1, LinesPerFile(lines, headersize, n))) == d <==> d % n <= d / n
  {
    var d := lines - headersize;
    assert d == n * (d / n) + d % n;
    assert (n + 1) * (d / n) == n * (d / n) + d / n;
  }
}
