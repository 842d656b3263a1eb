/** Reassembly of an extended attribute that arrives in chunks: a buffer of the declared size
    and the list of byte ranges written so far, kept merged. */
module XattrBuffer {
  import opened Wrappers
  import opened Bytes
  import opened Seqs

  /** The bytes from `start` up to, not including, `end`. */
  datatype Range = Range(start: nat, end: nat)

  datatype XattrWriteState = XattrWriteState(name: seq<Byte>, flags: nat, expectedSize: nat,
                                             data: seq<Byte>, written: seq<Range>, committed: bool)

  predicate Within(r: Range, i: int) {
    r.start <= i < r.end
  }

  ghost predicate Covered(rs: seq<Range>, i: int) {
    exists k :: 0 <= k < |rs| && Within(rs[k], i)
  }

  /** Sorted, without empty ranges, and with a gap between neighbours. */
  ghost predicate Normal(rs: seq<Range>) {
    && (forall k :: 0 <= k < |rs| ==> rs[k].start < rs[k].end)
    && (forall k, l :: 0 <= k < l < |rs| ==> rs[k].end < rs[l].start)
  }

  lemma CoveredAppend(rs: seq<Range>, r: Range)
    ensures forall i :: Covered(rs + [r], i) <==> Covered(rs, i) || Within(r, i)
  {
    forall i ensures Covered(rs + [r], i) <==> Covered(rs, i) || Within(r, i) {
      if Covered(rs, i) {
        var k :| 0 <= k < |rs| && Within(rs[k], i);
        assert (rs + [r])[k] == rs[k];
      }
      if Within(r, i) { assert (rs + [r])[|rs|] == r; }
    }
  }

  lemma NormalAppend(rs: seq<Range>, r: Range)
    requires Normal(rs) && r.start < r.end && (rs != [] ==> rs[|rs| - 1].end < r.start)
    ensures Normal(rs + [r])
  {
  }

  /** Adds a range to the list, merging it with every range it overlaps or touches. */
  method RecordWrite(written: seq<Range>, range: Range) returns (merged: seq<Range>)
    requires Normal(written)
    ensures Normal(merged)
    ensures forall i :: Covered(merged, i) <==> Covered(written, i) || Within(range, i)
  {
    if range.start >= range.end {
      return written;
    }
    var start: nat, end: nat := range.start, range.end;
    merged := [];
    var inserted := false;
    for k := 0 to |written|
      invariant Normal(merged) && range.start < range.end && start < end
      invariant !inserted ==> forall i :: Covered(merged, i) || Within(Range(start, end), i) <==>
        Covered(written[..k], i) || Within(range, i)
      invariant inserted ==> forall i :: Covered(merged, i) <==> Covered(written[..k], i) || Within(range, i)
      invariant !inserted && merged != [] ==> merged[|merged| - 1].end < start
      invariant k < |written| && merged != [] ==> merged[|merged| - 1].end < written[k].start
      invariant inserted ==> merged != [] && (k < |written| ==> end < written[k].start && start < written[k].start)
    {
      var existing := written[k];
      TakeStep(written, k);
      CoveredAppend(written[..k], existing);
      if existing.end < start {
        CoveredAppend(merged, existing);
        NormalAppend(merged, existing);
        merged := merged + [existing];
      } else if end < existing.start {
        if !inserted {
          CoveredAppend(merged, Range(start, end));
          NormalAppend(merged, Range(start, end));
          merged := merged + [Range(start, end)];
          inserted := true;
        }
        CoveredAppend(merged, existing);
        NormalAppend(merged, existing);
        merged := merged + [existing];
      } else {
        start := if existing.start < start then existing.start else start;
        end := if existing.end > end then existing.end else end;
      }
    }
    TakeAll(written);
    if !inserted {
      CoveredAppend(merged, Range(start, end));
      NormalAppend(merged, Range(start, end));
      merged := merged + [Range(start, end)];
    }
  }

  /** A list in this form is determined by the bytes it covers. */
  lemma {:induction false} NormalIsUnique(a: seq<Range>, b: seq<Range>)
    requires Normal(a) && Normal(b)
    requires forall i :: Covered(a, i) <==> Covered(b, i)
    ensures a == b
    decreases |a|
  {
    if a != [] { FirstCovered(a); }
    if b != [] { FirstCovered(b); }
    if a != [] && b != [] {
      FirstRange(a, b);
      FirstRange(b, a);
      RestCovers(a);
      RestCovers(b);
      NormalIsUnique(a[1..], b[1..]);
      assert a == [a[0]] + a[1..] && b == [b[0]] + b[1..];
    }
  }

  lemma FirstCovered(a: seq<Range>)
    requires Normal(a) && a != []
    ensures Covered(a, a[0].start) && !Covered([], a[0].start)
  {
    assert Within(a[0], a[0].start);
  }

  lemma FirstRange(a: seq<Range>, b: seq<Range>)
    requires Normal(a) && Normal(b) && a != [] && b != []
    requires forall i :: Covered(a, i) <==> Covered(b, i)
    ensures b[0].start <= a[0].start && (a[0].start == b[0].start ==> a[0].end <= b[0].end)
  {
    assert Within(a[0], a[0].start) && Covered(a, a[0].start);
    if a[0].start == b[0].start && a[0].end > b[0].end {
      assert Within(a[0], b[0].end) && Covered(a, b[0].end);
      var k :| 0 <= k < |b| && Within(b[k], b[0].end);
    }
  }

  lemma RestCovers(a: seq<Range>)
    requires Normal(a) && a != []
    ensures Normal(a[1..])
    ensures forall i :: Covered(a[1..], i) <==> Covered(a, i) && !Within(a[0], i)
  {
    forall i ensures Covered(a[1..], i) <==> Covered(a, i) && !Within(a[0], i) {
      if Covered(a[1..], i) {
        var k :| 0 <= k < |a[1..]| && Within(a[1..][k], i);
        assert a[k + 1] == a[1..][k];
      }
      if Covered(a, i) && !Within(a[0], i) {
        var k :| 0 <= k < |a| && Within(a[k], i);
        assert a[1..][k - 1] == a[k];
      }
    }
  }

  predicate IsComplete(w: XattrWriteState) {
    w.expectedSize == 0 || (|w.written| == 1 && w.written[0] == Range(0, w.expectedSize))
  }

  ghost predicate Valid(w: XattrWriteState) {
    && |w.data| == w.expectedSize && Normal(w.written)
    && forall i :: Covered(w.written, i) ==> i < w.expectedSize
  }

  lemma {:induction false} CompleteIffAllWritten(w: XattrWriteState)
    requires Valid(w)
    ensures IsComplete(w) <==> forall i :: 0 <= i < w.expectedSize ==> Covered(w.written, i)
  {
    if w.expectedSize > 0 {
      var whole := [Range(0, w.expectedSize)];
      if IsComplete(w) {
        assert w.written == whole;
        forall i | 0 <= i < w.expectedSize ensures Covered(w.written, i) { assert Within(w.written[0], i); }
      } else if forall i :: 0 <= i < w.expectedSize ==> Covered(w.written, i) {
        forall i ensures Covered(w.written, i) <==> Covered(whole, i) {
          assert 0 <= i < w.expectedSize <==> Within(whole[0], i);
        }
        NormalIsUnique(w.written, whole);
      }
    }
  }

  function NewState(name: seq<Byte>, flags: nat, size: nat): XattrWriteState {
    XattrWriteState(name, flags, size, seq(size, _ => 0), [], false)
  }

  /** `now` is `was` after `chunk` was written at `offset`. */
  ghost predicate Wrote(was: XattrWriteState, offset: nat, chunk: seq<Byte>, now: XattrWriteState) {
    && offset + |chunk| <= was.expectedSize == |was.data|
    && now == was.(data := was.data[..offset] + chunk + was.data[offset + |chunk|..], written := now.written)
    && Normal(now.written)
    && forall i :: Covered(now.written, i) <==> Covered(was.written, i) || offset <= i < offset + |chunk|
  }

  method WriteAt(w: XattrWriteState, offset: nat, chunk: seq<Byte>) returns (now: XattrWriteState, r: Result<nat>)
    requires Valid(w)
    ensures Valid(now)
    ensures r == if offset + |chunk| <= w.expectedSize then Ok(|chunk|) else Err(Invalid)
    ensures if r.Ok? then Wrote(w, offset, chunk, now) else now == w
  {
    var end := offset + |chunk|;
    if end > w.expectedSize {
      return w, Err(Invalid);
    }
    var written := RecordWrite(w.written, Range(offset, end));
    now := w.(data := w.data[..offset] + chunk + w.data[end..], written := written);
    forall i ensures Within(Range(offset, end), i) <==> offset <= i < end {}
    return now, Ok(|chunk|);
  }

  // ----- any sequence of writes -----

  datatype Chunk = Chunk(offset: nat, bytes: seq<Byte>)

  /** The byte that the latest chunk covering position `i` carries there. */
  function Latest(history: seq<Chunk>, i: nat): Option<Byte> {
    if history == [] then None
    else
      var last := history[|history| - 1];
      if last.offset <= i < last.offset + |last.bytes| then Some(last.bytes[i - last.offset])
      else Latest(history[..|history| - 1], i)
  }

  /** The buffer after the accepted chunks of `history`, in order. */
  ghost predicate Holds(w: XattrWriteState, history: seq<Chunk>) {
    && Valid(w)
    && forall i :: 0 <= i < w.expectedSize ==>
         && (Covered(w.written, i) <==> Latest(history, i).Some?)
         && w.data[i] == if Latest(history, i).Some? then Latest(history, i).value else 0
  }

  lemma NewHoldsNothing(name: seq<Byte>, flags: nat, size: nat)
    ensures Holds(NewState(name, flags, size), [])
  {
  }

  /** Whatever order the chunks come in, the buffer holds the latest byte at every position. */
  lemma WriteKeepsHolds(w: XattrWriteState, history: seq<Chunk>, offset: nat, chunk: seq<Byte>, now: XattrWriteState)
    requires Holds(w, history) && Wrote(w, offset, chunk, now)
    ensures Holds(now, history + [Chunk(offset, chunk)])
  {
    var h := history + [Chunk(offset, chunk)];
    assert h[..|h| - 1] == history;
    forall i | 0 <= i < now.expectedSize
      ensures Covered(now.written, i) <==> Latest(h, i).Some?
      ensures now.data[i] == if Latest(h, i).Some? then Latest(h, i).value else 0
    {
      if i < offset || offset + |chunk| <= i { assert now.data[i] == w.data[i]; }
    }
  }

  /** The chunks that lie within the declared size; the others are refused. */
  function Accepted(size: nat, chunks: seq<Chunk>): seq<Chunk> {
    if chunks == [] then []
    else
      var front, last := Accepted(size, chunks[..|chunks| - 1]), chunks[|chunks| - 1];
      if last.offset + |last.bytes| <= size then front + [last] else front
  }

  /** Any chunks in any order: the buffer holds the latest accepted byte at every position, it is
      complete exactly when every byte has been written, and then it is the value whose bytes came
      last everywhere. */
  method WriteChunks(name: seq<Byte>, flags: nat, size: nat, chunks: seq<Chunk>) returns (w: XattrWriteState)
    ensures Holds(w, Accepted(size, chunks)) && w.expectedSize == size
    ensures IsComplete(w) <==> AllLatest(Accepted(size, chunks), size)
    ensures IsComplete(w) ==> forall i :: 0 <= i < size ==> Latest(Accepted(size, chunks), i) == Some(w.data[i])
  {
    w := NewState(name, flags, size);
    NewHoldsNothing(name, flags, size);
    for i := 0 to |chunks|
      invariant Holds(w, Accepted(size, chunks[..i])) && w.expectedSize == size
    {
      assert chunks[..i + 1][..i] == chunks[..i];
      var now, r := WriteAt(w, chunks[i].offset, chunks[i].bytes);
      if r.Ok? { WriteKeepsHolds(w, Accepted(size, chunks[..i]), chunks[i].offset, chunks[i].bytes, now); }
      w := now;
    }
    TakeAll(chunks);
    CompleteIffLatest(w, Accepted(size, chunks));
  }

  /** Every position has been written by some chunk of the history. */
  ghost predicate AllLatest(history: seq<Chunk>, size: nat) {
    forall i :: 0 <= i < size ==> Latest(history, i).Some?
  }

  lemma CompleteIffLatest(w: XattrWriteState, history: seq<Chunk>)
    requires Holds(w, history)
    ensures IsComplete(w) <==> AllLatest(history, w.expectedSize)
  {
    CompleteIffAllWritten(w);
    if IsComplete(w) {
      forall i | 0 <= i < w.expectedSize ensures Latest(history, i).Some? { assert Covered(w.written, i); }
    } else {
      var i :| 0 <= i < w.expectedSize && !Covered(w.written, i);
      assert Latest(history, i).None?;
    }
  }
}
