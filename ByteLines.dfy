/** `byte_lines`: the newline splitter that feeds the header scan.

    It walks the buffer with two counters, `start` (where the current chunk
    began) and `pos` (the byte being looked at). On a `\n` at `pos` it emits
    `data[start:pos + 1]`, restarts the chunk after the newline and then steps
    `pos` once more, so the byte right after every detected newline is never
    looked at: in `\n\n` the second newline is not a split point. After the
    walk the remainder is emitted, but only if some newline was seen. */
module ByteLines {
  import opened Bytes

  /** The chunks the walk still emits from state (`start`, `pos`); Python's
      `data[start:pos]` clamps `pos` to the length, which is `data[start..]` here. */
  function Walk(data: seq<byte>, start: nat, pos: nat): seq<seq<byte>>
    requires start <= pos <= |data| + 1 && start <= |data|
    decreases |data| + 1 - pos
  {
    if pos < |data| then
      if data[pos] == LF then [data[start..pos + 1]] + Walk(data, pos + 1, pos + 2)
      else Walk(data, start, pos + 1)
    else if start > 0 && pos > start then [data[start..]]
    else []
  }

  /** Everything `byte_lines(data)` yields, in order. */
  function Lines(data: seq<byte>): seq<seq<byte>>
  {
    Walk(data, 0, 0)
  }

  /** The generator, with the source's counters; it returns the list of
      chunks it would yield. */
  method ByteLines(data: seq<byte>) returns (chunks: seq<seq<byte>>)
    ensures chunks == Lines(data)
  {
    var start: nat := 0;
    var pos: nat := 0;
    chunks := [];
    while pos < |data|
      invariant start <= pos <= |data| + 1 && start <= |data|
      invariant chunks + Walk(data, start, pos) == Lines(data)
      decreases |data| + 1 - pos
    {
      if data[pos] == LF {
        pos := pos + 1;
        chunks := chunks + [data[start..pos]];
        start := pos;
      }
      pos := pos + 1;
    }
    if start > 0 && pos > start {
      chunks := chunks + [data[start..]];
    }
  }

  // ---------------------------------------------------------------------
  // What the splitter promises

  /** A buffer without a newline yields nothing at all. */
  lemma LinesWithoutNewline(data: seq<byte>)
    requires LF !in data
    ensures Lines(data) == []
  {
    WalkWithoutNewline(data, 0);
  }

  lemma {:induction false} WalkWithoutNewline(data: seq<byte>, pos: nat)
    requires pos <= |data|
    requires forall i :: pos <= i < |data| ==> data[i] != LF
    ensures Walk(data, 0, pos) == []
    decreases |data| - pos
  {
    if pos < |data| {
      WalkWithoutNewline(data, pos + 1);
    }
  }

  /** A buffer holding a newline is cut into pieces that put together give the buffer back. */
  lemma LinesConcat(data: seq<byte>)
    requires LF in data
    ensures Flatten(Lines(data)) == data
  {
    var i :| 0 <= i < |data| && data[i] == LF;
    WalkConcat(data, 0, 0);
  }

  lemma {:induction false} WalkConcat(data: seq<byte>, start: nat, pos: nat)
    requires start <= pos <= |data| + 1 && start <= |data|
    requires start > 0 ==> start < pos
    requires start == 0 ==> exists i :: pos <= i < |data| && data[i] == LF
    ensures Flatten(Walk(data, start, pos)) == data[start..]
    decreases |data| + 1 - pos
  {
    if pos < |data| {
      if data[pos] == LF {
        var rest := Walk(data, pos + 1, pos + 2);
        WalkConcat(data, pos + 1, pos + 2);
        assert Walk(data, start, pos) == [data[start..pos + 1]] + rest;
        assert ([data[start..pos + 1]] + rest)[1..] == rest;
        assert data[start..] == data[start..pos + 1] + data[pos + 1..];
      } else {
        WalkConcat(data, start, pos + 1);
      }
    } else if start > 0 {
      assert Walk(data, start, pos) == [data[start..]];
      assert [data[start..]][1..] == [];
    }
  }

  /** A chunk closed by a newline. */
  predicate EndsInNewline(chunk: seq<byte>)
  {
    |chunk| > 0 && chunk[|chunk| - 1] == LF
  }

  /** Every chunk but the last ends in the newline that closed it. */
  lemma LinesEndInNewline(data: seq<byte>)
    ensures forall i :: 0 <= i < |Lines(data)| - 1 ==> EndsInNewline(Lines(data)[i])
  {
    WalkEndInNewline(data, 0, 0);
  }

  lemma {:induction false} WalkEndInNewline(data: seq<byte>, start: nat, pos: nat)
    requires start <= pos <= |data| + 1 && start <= |data|
    ensures forall i :: 0 <= i < |Walk(data, start, pos)| - 1 ==> EndsInNewline(Walk(data, start, pos)[i])
    decreases |data| + 1 - pos
  {
    if pos < |data| {
      if data[pos] == LF {
        WalkEndInNewline(data, pos + 1, pos + 2);
        var rest := Walk(data, pos + 1, pos + 2);
        var w := [data[start..pos + 1]] + rest;
        assert Walk(data, start, pos) == w;
        forall i | 0 <= i < |w| - 1
          ensures EndsInNewline(w[i])
        {
          if i == 0 {
            assert w[0][|w[0]| - 1] == data[pos];
          } else {
            assert w[i] == rest[i - 1];
          }
        }
      } else {
        WalkEndInNewline(data, start, pos + 1);
      }
    }
  }

  /** When a buffer ends in a newline that is not itself right after another
      newline, that newline is seen and an empty last chunk follows it. */
  lemma LinesTrailingEmptyChunk(data: seq<byte>)
    requires |data| > 0 && data[|data| - 1] == LF
    requires |data| == 1 || data[|data| - 2] != LF
    ensures |Lines(data)| >= 2 && Lines(data)[|Lines(data)| - 1] == []
  {
    WalkTrailingEmptyChunk(data, 0, 0);
  }

  lemma {:induction false} WalkTrailingEmptyChunk(data: seq<byte>, start: nat, pos: nat)
    requires start <= pos <= |data| - 1 && start <= |data|
    requires data[|data| - 1] == LF
    requires |data| == 1 || data[|data| - 2] != LF
    ensures var w := Walk(data, start, pos); |w| >= 2 && w[|w| - 1] == []
    decreases |data| - pos
  {
    if pos == |data| - 1 {
      assert Walk(data, pos + 1, pos + 2) == [data[|data|..]];
    } else if data[pos] == LF {
      WalkTrailingEmptyChunk(data, pos + 1, pos + 2);
    } else {
      WalkTrailingEmptyChunk(data, start, pos + 1);
    }
  }

  /** The skip after a newline: in `\n\nx` the second newline starts the
      second chunk instead of being a chunk of its own, and `\n\n` alone ends
      in a chunk holding the unexamined newline rather than an empty one. */
  lemma DoubleNewlineNotSplit(x: byte)
    requires x != LF
    ensures Lines([LF, LF, x]) == [[LF], [LF, x]]
    ensures Lines([LF, LF]) == [[LF], [LF]]
  {
    var d := [LF, LF, x];
    assert Walk(d, 1, 3) == [d[1..]];
    assert Walk(d, 1, 2) == Walk(d, 1, 3);
    assert Walk(d, 0, 0) == [d[0..1]] + Walk(d, 1, 2);
    assert d[0..1] == [LF] && d[1..] == [LF, x];
    var e := [LF, LF];
    assert Walk(e, 1, 2) == [e[1..]];
    assert Walk(e, 0, 0) == [e[0..1]] + Walk(e, 1, 2);
    assert e[0..1] == [LF] && e[1..] == [LF];
  }
}
