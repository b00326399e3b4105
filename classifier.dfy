/**
 * The response classifier: turns the raw chunks the serial port delivers
 * into lines (line mode) or into one binary blob per capture window
 * (binary mode).
 *
 * Line mode appends the chunk, read as a binary string, to an accumulator,
 * splits it on `\n`, keeps the last piece as the new accumulator and emits
 * the others in order. Binary mode copies chunks into a fixed 512-byte
 * buffer at a cursor; when the capture window elapses the bytes before the
 * cursor are emitted, the cursor returns to 0 and binary mode ends.
 */
module Classifier {
  import opened Framer

  const BinaryCapacity: nat := 512

  /** `buffer.toString('binary')`: one character per byte. */
  function BinaryString(b: seq<Byte>): (s: string)
    ensures |s| == |b| && forall i :: 0 <= i < |b| ==> s[i] as int == b[i]
  {
    seq(|b|, i requires 0 <= i < |b| => b[i] as char)
  }

  predicate NoNewline(s: string) {
    forall i :: 0 <= i < |s| ==> s[i] != '\n'
  }

  predicate AllLines(ls: seq<string>) {
    forall i :: 0 <= i < |ls| ==> NoNewline(ls[i])
  }

  lemma AppendAssoc(a: string, b: string, c: string)
    ensures (a + b) + c == a + (b + c)
  {
  }

  /** Each line followed by its delimiter, in order. */
  function Joined(ls: seq<string>): string {
    if ls == [] then "" else ls[0] + "\n" + Joined(ls[1..])
  }

  /** `s.split("\n")`: the pieces between delimiters, always at least one. */
  function Split(s: string): (parts: seq<string>)
    ensures |parts| >= 1 && AllLines(parts)
    ensures Joined(parts[..|parts| - 1]) + parts[|parts| - 1] == s
  {
    if s == [] then [""]
    else
      var r := Split(s[1..]);
      assert s == [s[0]] + s[1..];
      if s[0] == '\n' then
        StartsNewPiece(r, s[1..]);
        [""] + r
      else
        ExtendsFirstPiece(s[0], r, s[1..]);
        [[s[0]] + r[0]] + r[1..]
  }

  /** A delimiter in front of a text adds an empty first piece. */
  lemma StartsNewPiece(r: seq<string>, rest: string)
    requires |r| >= 1 && AllLines(r) && Joined(r[..|r| - 1]) + r[|r| - 1] == rest
    ensures var parts := [""] + r;
            AllLines(parts) && Joined(parts[..|parts| - 1]) + parts[|parts| - 1] == "\n" + rest
  {
    var parts := [""] + r;
    assert parts[..|parts| - 1] == [""] + r[..|r| - 1];
    assert Joined(parts[..|parts| - 1]) == "" + "\n" + Joined(r[..|r| - 1]);
  }

  /** Any other character in front of a text joins the first piece. */
  lemma ExtendsFirstPiece(c: char, r: seq<string>, rest: string)
    requires c != '\n' && |r| >= 1 && AllLines(r) && Joined(r[..|r| - 1]) + r[|r| - 1] == rest
    ensures var parts := [[c] + r[0]] + r[1..];
            AllLines(parts) && Joined(parts[..|parts| - 1]) + parts[|parts| - 1] == [c] + rest
  {
    var parts := [[c] + r[0]] + r[1..];
    if |r| > 1 {
      var mid := r[1..|r| - 1];
      assert parts[..|parts| - 1] == [[c] + r[0]] + mid;
      assert r[..|r| - 1] == [r[0]] + mid;
      assert ([[c] + r[0]] + mid)[1..] == mid && ([r[0]] + mid)[1..] == mid;
    }
  }

  datatype LineSplit = LineSplit(lines: seq<string>, rest: string)

  /**
   * One line-mode read: the complete lines of accumulator + chunk, and the
   * partial line retained for the next read.
   */
  function Feed(pending: string, chunk: string): (r: LineSplit)
    ensures AllLines(r.lines) && NoNewline(r.rest)
    ensures Joined(r.lines) + r.rest == pending + chunk
  {
    var parts := Split(pending + chunk);
    LineSplit(parts[..|parts| - 1], parts[|parts| - 1])
  }

  lemma {:induction false} JoinedAppend(a: seq<string>, b: seq<string>)
    ensures Joined(a + b) == Joined(a) + Joined(b)
    decreases |a|
  {
    if a != [] {
      assert (a + b)[1..] == a[1..] + b;
      JoinedAppend(a[1..], b);
    } else {
      assert a + b == b;
    }
  }

  lemma {:induction false} SplitSingle(r: string)
    requires NoNewline(r)
    ensures Split(r) == [r]
    decreases |r|
  {
    if r != [] {
      SplitSingle(r[1..]);
      assert [r[0]] + r[1..] == r;
    }
  }

  lemma {:induction false} SplitLine(l: string, t: string)
    requires NoNewline(l)
    ensures Split(l + "\n" + t) == [l] + Split(t)
    decreases |l|
  {
    if l == [] {
      assert l + "\n" + t == "\n" + t;
      assert ("\n" + t)[1..] == t;
    } else {
      var s := l + "\n" + t;
      assert s[1..] == l[1..] + "\n" + t;
      SplitLine(l[1..], t);
      assert [l[0]] + l[1..] == l;
    }
  }

  /** Splitting is unique: lines without delimiters, joined and followed by a partial line, split back into exactly those. */
  lemma {:induction false} SplitJoined(ls: seq<string>, r: string)
    requires AllLines(ls) && NoNewline(r)
    ensures Split(Joined(ls) + r) == ls + [r]
    decreases |ls|
  {
    if ls == [] {
      SplitSingle(r);
    } else {
      assert AllLines(ls[1..]);
      SplitJoined(ls[1..], r);
      SplitCons(ls, r);
    }
  }

  /** The inductive step of `SplitJoined`: one more complete line in front. */
  lemma SplitCons(ls: seq<string>, r: string)
    requires ls != [] && NoNewline(ls[0])
    requires Split(Joined(ls[1..]) + r) == ls[1..] + [r]
    ensures Split(Joined(ls) + r) == ls + [r]
  {
    var t := Joined(ls[1..]) + r;
    var whole := Joined(ls) + r;
    assert Joined(ls) == ls[0] + "\n" + Joined(ls[1..]);
    AppendAssoc(ls[0] + "\n", Joined(ls[1..]), r);
    assert whole == ls[0] + "\n" + t;
    SplitLine(ls[0], t);
    assert Split(whole) == [ls[0]] + (ls[1..] + [r]);
    HeadTail(ls, r);
  }

  lemma HeadTail(ls: seq<string>, r: string)
    requires ls != []
    ensures [ls[0]] + (ls[1..] + [r]) == ls + [r]
  {
    assert ls == [ls[0]] + ls[1..];
  }

  /** Feeding a then b yields the same lines, in the same order, as feeding a + b at once. */
  lemma ChunkBoundary(pending: string, a: string, b: string)
    ensures Feed(pending, a + b)
      == LineSplit(Feed(pending, a).lines + Feed(Feed(pending, a).rest, b).lines,
                   Feed(Feed(pending, a).rest, b).rest)
  {
    var first := Feed(pending, a);
    var second := Feed(first.rest, b);
    JoinedAppend(first.lines, second.lines);
    calc {
      Joined(first.lines + second.lines) + second.rest;
      { AppendAssoc(Joined(first.lines), Joined(second.lines), second.rest); }
      Joined(first.lines) + (Joined(second.lines) + second.rest);
      Joined(first.lines) + (first.rest + b);
      { AppendAssoc(Joined(first.lines), first.rest, b); }
      (Joined(first.lines) + first.rest) + b;
      { AppendAssoc(pending, a, b); }
      pending + (a + b);
    }
    SplitJoined(first.lines + second.lines, second.rest);
  }

  /** All the lines emitted while the chunks arrive one by one. */
  function FeedAll(pending: string, chunks: seq<string>): LineSplit
    decreases |chunks|
  {
    if chunks == [] then LineSplit([], pending)
    else
      var first := Feed(pending, chunks[0]);
      var later := FeedAll(first.rest, chunks[1..]);
      LineSplit(first.lines + later.lines, later.rest)
  }

  function Concat(chunks: seq<string>): string {
    if chunks == [] then "" else chunks[0] + Concat(chunks[1..])
  }

  /** Chunk independence: however a stream is cut into chunks, the same lines come out in the same order. */
  lemma {:induction false} ChunkIndependence(pending: string, chunks: seq<string>)
    requires NoNewline(pending)
    ensures FeedAll(pending, chunks) == Feed(pending, Concat(chunks))
    decreases |chunks|
  {
    if chunks == [] {
      SplitSingle(pending);
      assert pending + "" == pending;
    } else {
      var first := Feed(pending, chunks[0]);
      ChunkIndependence(first.rest, chunks[1..]);
      ChunkBoundary(pending, chunks[0], Concat(chunks[1..]));
      assert pending + Concat(chunks) == pending + (chunks[0] + Concat(chunks[1..]));
    }
  }

  function Min(a: nat, b: nat): nat {
    if a < b then a else b
  }

  class ResponseClassifier {
    var data: string            // the partial line carried between reads
    var binaryMode: bool
    const binaryBuffer: array<Byte>
    var bufferCounter: nat      // the capture cursor
    ghost var Captured: seq<Byte>   // every byte read since the last flush

    /** Bytes of the capture the fixed buffer actually holds. */
    function Held(): nat
      reads this
    {
      Min(bufferCounter, BinaryCapacity)
    }

    ghost predicate Valid()
      reads this, binaryBuffer
    {
      && binaryBuffer.Length == BinaryCapacity
      && NoNewline(data)
      && bufferCounter == |Captured|
      && binaryBuffer[..Held()] == Captured[..Held()]
    }

    constructor ()
      ensures Valid() && fresh(binaryBuffer)
      ensures data == "" && !binaryMode && bufferCounter == 0 && Captured == []
    {
      data := "";
      binaryMode := false;
      binaryBuffer := new Byte[BinaryCapacity];
      bufferCounter := 0;
      Captured := [];
    }

    /** Starts a capture window; the caller delivers `Flush` when the window elapses. */
    method EnableBinaryMode()
      requires Valid()
      modifies this
      ensures Valid() && binaryMode
      ensures data == old(data) && bufferCounter == old(bufferCounter) && Captured == old(Captured)
    {
      binaryMode := true;
    }

    /**
     * One chunk from the port. In binary mode it is copied at the cursor
     * (as far as the buffer reaches) and the cursor grows by its whole
     * length; in line mode it yields the complete lines, in arrival order.
     */
    method Read(chunk: seq<Byte>) returns (lines: seq<string>)
      requires Valid()
      modifies this, binaryBuffer
      ensures Valid() && binaryMode == old(binaryMode)
      ensures old(binaryMode) ==> lines == [] && data == old(data)
                                  && bufferCounter == old(bufferCounter) + |chunk|
                                  && Captured == old(Captured) + chunk
      ensures !old(binaryMode) ==> LineSplit(lines, data) == Feed(old(data), BinaryString(chunk))
                                   && bufferCounter == old(bufferCounter) && Captured == old(Captured)
                                   && binaryBuffer[..] == old(binaryBuffer[..])
    {
      if binaryMode {
        var n := if bufferCounter >= BinaryCapacity then 0 else Min(|chunk|, BinaryCapacity - bufferCounter);
        forall j | 0 <= j < n {
          binaryBuffer[bufferCounter + j] := chunk[j];
        }
        ghost var held := Held();
        bufferCounter := bufferCounter + |chunk|;
        Captured := Captured + chunk;
        assert Held() == held + n;
        forall i | 0 <= i < Held() ensures binaryBuffer[i] == Captured[i] {
          if i >= held {
            assert binaryBuffer[held + (i - held)] == chunk[i - held];
          } else {
            assert binaryBuffer[..held][i] == old(Captured)[..held][i];
          }
        }
        lines := [];
      } else {
        var split := Feed(data, BinaryString(chunk));
        data := split.rest;
        lines := split.lines;
      }
    }

    /**
     * The capture window elapsed: emits bytes [0, cursor) of the buffer
     * (all of them when the capture fitted), resets the cursor and leaves
     * binary mode.
     */
    method Flush() returns (blob: seq<Byte>)
      requires Valid()
      modifies this
      ensures Valid()
      ensures blob == old(Captured)[..old(Held())]
      ensures old(bufferCounter) <= BinaryCapacity ==> blob == old(Captured)
      ensures bufferCounter == 0 && Captured == [] && !binaryMode && data == old(data)
    {
      blob := binaryBuffer[..Held()];
      bufferCounter := 0;
      Captured := [];
      binaryMode := false;
    }
  }
}
