/** The lines RandomAccessFile.readLine yields from a snapshot of the log
    file's bytes, starting at a byte offset and ending at end of file.

    readLine itself is library code; this module states the behaviour the
    servlet relies on: a line ends at LF, at CR or at CR LF, the terminator is
    consumed but not returned, a final unterminated segment is still a line,
    and each byte becomes the character with the same code. */
module LineReader {

  newtype byte = x: int | 0 <= x < 0x100

  const LF: byte := 10
  const CR: byte := 13

  predicate IsTerminator(b: byte)
  {
    b == LF || b == CR
  }

  /** Bytes read one character per byte, code for code. */
  function Latin1(bs: seq<byte>): (s: string)
    ensures |s| == |bs|
    ensures forall k :: 0 <= k < |bs| ==> s[k] as int == bs[k] as int
  {
    seq(|bs|, k requires 0 <= k < |bs| => (bs[k] as int) as char)
  }

  /** The index of the first terminator at or after `i`, or |file| if none. */
  function LineEnd(file: seq<byte>, i: nat): (e: nat)
    requires i <= |file|
    ensures i <= e <= |file|
    ensures forall k :: i <= k < e ==> !IsTerminator(file[k])
    ensures e < |file| ==> IsTerminator(file[e])
    decreases |file| - i
  {
    if i == |file| || IsTerminator(file[i]) then i else LineEnd(file, i + 1)
  }

  /** A line read from the file and the position just after its terminator. */
  datatype Line = Line(text: string, next: nat)

  /** How the terminator that starts at `e` is consumed, ending at `next`. */
  predicate ConsumesTerminator(file: seq<byte>, e: nat, next: nat)
  {
    || (e == |file| && next == e)
    || (e < |file| && file[e] == LF && next == e + 1)
    || (e < |file| && file[e] == CR && e + 1 < |file| && file[e + 1] == LF && next == e + 2)
    || (e < |file| && file[e] == CR && (e + 1 == |file| || file[e + 1] != LF) && next == e + 1)
  }

  /** One readLine call at position `pos` (which is before end of file; at end
      of file readLine returns null). */
  function ReadLine(file: seq<byte>, pos: nat): (l: Line)
    requires pos < |file|
    ensures pos < l.next <= |file|
    ensures pos + |l.text| <= l.next
    ensures l.text == Latin1(file[pos..pos + |l.text|])
    ensures forall k :: pos <= k < pos + |l.text| ==> !IsTerminator(file[k])
    ensures ConsumesTerminator(file, pos + |l.text|, l.next)
    ensures forall k :: 0 <= k < |l.text| ==> l.text[k] != '\n' && l.text[k] != '\r'
  {
    var e := LineEnd(file, pos);
    var next :=
      if e == |file| then e
      else if file[e] == CR && e + 1 < |file| && file[e + 1] == LF then e + 2
      else e + 1;
    var text := Latin1(file[pos..e]);
    assert forall k :: 0 <= k < |text| ==> text[k] as int == file[pos + k] as int;
    Line(text, next)
  }

  /** Every line readLine returns from `pos` until it returns null. */
  function Lines(file: seq<byte>, pos: nat): (ls: seq<string>)
    ensures ls == [] || pos + |ls| <= |file|
    ensures forall i, k :: 0 <= i < |ls| && 0 <= k < |ls[i]| ==> ls[i][k] != '\n' && ls[i][k] != '\r'
    decreases |file| - pos
  {
    if pos >= |file| then []
    else
      var l := ReadLine(file, pos);
      [l.text] + Lines(file, l.next)
  }

  lemma {:induction false} LineEndShift(file: seq<byte>, q: nat, i: nat)
    requires q <= i <= |file|
    ensures LineEnd(file, i) == q + LineEnd(file[q..], i - q)
    decreases |file| - i
  {
    if i < |file| && !IsTerminator(file[i]) {
      LineEndShift(file, q, i + 1);
    }
  }

  lemma ReadLineShift(file: seq<byte>, q: nat, pos: nat)
    requires q <= pos < |file|
    ensures ReadLine(file[q..], pos - q) == Line(ReadLine(file, pos).text, ReadLine(file, pos).next - q)
  {
    var rest := file[q..];
    LineEndShift(file, q, pos);
    var e := LineEnd(file, pos);
    assert rest[pos - q..e - q] == file[pos..e];
    assert e < |file| ==> rest[e - q] == file[e];
    assert e + 1 < |file| ==> rest[e + 1 - q] == file[e + 1];
  }

  /** The lines from `pos` depend only on the bytes from `q <= pos` on. */
  lemma {:induction false} LinesShift(file: seq<byte>, q: nat, pos: nat)
    requires q <= pos <= |file|
    ensures Lines(file, pos) == Lines(file[q..], pos - q)
    decreases |file| - pos
  {
    if pos < |file| {
      ReadLineShift(file, q, pos);
      LinesShift(file, q, ReadLine(file, pos).next);
    }
  }

  /** A poll that starts where the previous snapshot ended reads only the
      appended bytes. */
  lemma LinesOfAppended(a: seq<byte>, b: seq<byte>)
    ensures Lines(a + b, |a|) == Lines(b, 0)
  {
    LinesShift(a + b, |a|, |a|);
    assert (a + b)[|a|..] == b;
  }

  /** The snapshot `a`, later grown by `b`, ends on a line boundary: it is
      empty, or its last byte ends a line no matter what `b` adds. */
  predicate EndsOnLineBoundary(a: seq<byte>, b: seq<byte>)
  {
    || |a| == 0
    || a[|a| - 1] == LF
    || (a[|a| - 1] == CR && (b == [] || b[0] != LF))
  }

  lemma {:induction false} LineEndBeforeBoundary(a: seq<byte>, b: seq<byte>, i: nat)
    requires i < |a| && IsTerminator(a[|a| - 1])
    ensures LineEnd(a + b, i) == LineEnd(a, i) < |a|
    decreases |a| - i
  {
    if !IsTerminator(a[i]) {
      LineEndBeforeBoundary(a, b, i + 1);
    }
  }

  /** Reading a grown file in one go gives the lines of the old snapshot
      followed by the lines of the appended bytes, provided the snapshot ended
      on a line boundary. */
  lemma {:induction false} LinesSplit(a: seq<byte>, b: seq<byte>, pos: nat)
    requires pos <= |a| && EndsOnLineBoundary(a, b)
    ensures Lines(a + b, pos) == Lines(a, pos) + Lines(b, 0)
    decreases |a| - pos
  {
    if pos == |a| {
      LinesOfAppended(a, b);
    } else {
      var ab := a + b;
      LineEndBeforeBoundary(a, b, pos);
      var e := LineEnd(a, pos);
      assert ab[pos..e] == a[pos..e];
      assert ab[e] == a[e];
      assert e + 1 < |a| ==> ab[e + 1] == a[e + 1];
      var l := ReadLine(a, pos);
      assert ReadLine(ab, pos) == l;
      LinesSplit(a, b, l.next);
    }
  }

  /** Without the boundary the split is visible: a line still being written
      when the first snapshot was taken comes back as two lines. */
  lemma PartialLineIsSplit()
    ensures Lines([97, 98] + [99, 10], 0) == ["abc"]
    ensures Lines([97, 98], 0) + Lines([99, 10], 0) == ["ab", "c"]
  {
    var ab: seq<byte> := [97, 98, 99, 10];
    assert [97, 98] + [99, 10] == ab;
    assert LineEnd(ab, 0) == 3;
    assert Latin1(ab[0..3]) == "abc";
    var a: seq<byte> := [97, 98];
    assert LineEnd(a, 0) == 2;
    assert Latin1(a[0..2]) == "ab";
    var b: seq<byte> := [99, 10];
    assert LineEnd(b, 0) == 1;
    assert Latin1(b[0..1]) == "c";
  }
}
