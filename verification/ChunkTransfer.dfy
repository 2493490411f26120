/** The byte loops of readEntry and writeChunks (src/fs/sql-file-handles.ts:250-293, 330-385). */
module ChunkTransfer {
  import opened Sequences
  import opened ChunkRows
  import opened InodeTables

  /** Typed arrays' `set`: copies `source` into the buffer at `at`. */
  method SetAt(buffer: array<Byte>, source: Bytes, at: nat)
    requires at + |source| <= buffer.Length
    modifies buffer
    ensures Copied(old(buffer[..]), buffer[..], source, at)
  {
    forall i | 0 <= i < |source| { buffer[at + i] := source[i]; }
    forall p | at <= p < at + |source| ensures buffer[p] == source[p - at] {
      assert buffer[at + (p - at)] == source[p - at];
    }
  }

  /** `now` is `was` with `source` copied in at `at`. */
  ghost predicate Copied(was: Bytes, now: Bytes, source: Bytes, at: nat) {
    && |now| == |was|
    && forall p | 0 <= p < |now| :: now[p] == if at <= p < at + |source| then source[p - at] else was[p]
  }

  /** The first `n` bytes of the buffer are those of the file from `offset`. */
  ghost predicate Filled(buffer: Bytes, flat: Bytes, offset: nat, n: nat)
    requires n <= |buffer| && offset + n <= |flat|
  {
    forall p | 0 <= p < n :: buffer[p] == flat[offset + p]
  }

  lemma SegmentFills(was: Bytes, now: Bytes, flat: Bytes, offset: nat, n: nat, at: nat, body: Bytes, base: nat, from: nat, to: nat)
    requires n <= |was| && offset + n <= |flat| && Filled(was, flat, offset, n)
    requires base + |body| <= |flat| && body == flat[base..base + |body|] && from <= to <= |body|
    requires at == n && base + from == offset + n && n + (to - from) <= |was|
    requires Copied(was, now, body[from..to], at)
    ensures Filled(now, flat, offset, n + (to - from))
  {
    forall p | 0 <= p < n + (to - from) ensures now[p] == flat[offset + p] {
      if p >= n {
        var i := p - n;
        assert body[from..to][i] == body[from + i];
        assert body[from + i] == flat[base + (from + i)];
      }
    }
  }

  /** Copies the part of one row that lies in the range to where the output filled so far ends. */
  method ReadRow(output: array<Byte>, body: Bytes, base: nat, offset: nat, selected: nat, consumed: nat, ghost flat: Bytes)
    returns (filled: nat)
    requires base + |body| <= |flat| && body == flat[base..base + |body|]
    requires output.Length == selected && offset + selected <= |flat|
    requires base < offset + selected && offset < base + |body| && consumed == Max(base - offset, 0)
    requires Filled(output[..], flat, offset, consumed)
    modifies output
    ensures filled == Min(base + |body| - offset, selected) && Filled(output[..], flat, offset, filled)
  {
    filled := consumed;
    var from, to := Max(0, offset - base), Min(|body|, offset + selected - base);
    if to > from {
      ghost var was := output[..];
      SetAt(output, body[from..to], base + from - offset);
      filled := consumed + (to - from);
      SegmentFills(was, output[..], flat, offset, consumed, base + from - offset, body, base, from, to);
    }
  }

  lemma RowAt(rows: Rows, w: nat, flat: Bytes, k: nat, end: nat)
    requires Stores(rows, w, flat) && end <= |flat| && k < CeilDiv(end, w)
    ensures Base(k, w) == k * w < end && Base(k + 1, w) == k * w + w && k in rows
    ensures |rows[k]| == Min(w, |flat| - k * w) && rows[k] == flat[k * w..k * w + |rows[k]|]
  {
    CeilDivBounds(k, end, w);
    BaseIsProduct(k, w);
    assert rows[k] == Stretch(flat, k, w);
  }

  /** Reads the rows that overlap the range into one zero-filled buffer. */
  method ReadRows(rows: Rows, w: nat, offset: nat, selected: nat, ghost flat: Bytes) returns (data: Bytes, consumed: nat)
    requires Stores(rows, w, flat) && 0 < selected && offset + selected <= |flat|
    ensures consumed == selected && data == flat[offset..offset + selected]
  {
    var begin, end := FloorDiv(offset, w), CeilDiv(offset + selected, w);
    FloorDivIsChunk(offset, w);
    CeilDivBounds(begin, offset + selected, w);
    var output := new Byte[selected](_ => 0);
    consumed := 0;
    var k: nat := begin;
    while k < end
      invariant begin <= k <= end && offset < Base(k, w) + w
      invariant consumed == Min(Max(Base(k, w) - offset, 0), selected)
      invariant Filled(output[..], flat, offset, consumed)
    {
      RowAt(rows, w, flat, k, offset + selected);
      if k in rows {
        consumed := ReadRow(output, rows[k], k * w, offset, selected, consumed, flat);
      }
      k := k + 1;
    }
    CeilDivBounds(end, offset + selected, w);
    data := output[..];
  }

  /** Chunk `k` outside the written range: old bytes, then zeros. */
  ghost predicate Survives(chunk: Bytes, base: nat, start: nat, end: nat, flat: Bytes) {
    forall i | 0 <= i < |chunk| && !(start <= base + i < end) ::
      chunk[i] == if base + i < |flat| then flat[base + i] else 0
  }

  lemma OldSurvives(zero: Bytes, now: Bytes, prior: Bytes, base: nat, start: nat, end: nat, flat: Bytes)
    requires forall i | 0 <= i < |zero| :: zero[i] == 0
    requires base + |prior| <= |flat| && prior == flat[base..base + |prior|]
    requires |prior| >= |zero| || base + |prior| == |flat|
    requires Copied(zero, now, prior[..Min(|prior|, |zero|)], 0)
    ensures Survives(now, base, start, end, flat)
  {
    forall i | 0 <= i < |now| && !(start <= base + i < end)
      ensures now[i] == if base + i < |flat| then flat[base + i] else 0
    {
      if i < |prior| { assert prior[i] == flat[base + i]; }
    }
  }

  /** Surviving bytes overlaid with the written ones are the chunk of the written file. */
  lemma OverlayIsChunk(was: Bytes, stored: Bytes, k: nat, w: nat, body: Bytes, start: nat, flat: Bytes, base: nat)
    requires w > 0 && base == Base(k, w) < Max(|flat|, start + |body|)
    requires |was| == Min(w, Max(|flat|, start + |body|) - base)
    requires Survives(was, base, start, start + |body|, flat)
    requires var from, to := Max(start, base), Min(start + |body|, base + |was|);
             if to > from then Copied(was, stored, body[from - start..to - start], from - base) else stored == was
    ensures stored == Stretch(Patched(flat, start, body), k, w)
  {
    var after := Patched(flat, start, body);
    var from, to := Max(start, base), Min(start + |body|, base + |was|);
    forall i | 0 <= i < |stored| ensures stored[i] == after[base + i] {
      if from <= base + i < to {
        assert body[from - start..to - start][i - (from - base)] == body[base + i - start];
      }
    }
  }

  /** Reads the old chunk, if bytes of it survive the write from `start` to `end`. */
  method KeepOld(chunk: array<Byte>, prior: Option<Bytes>, base: nat, oldSize: nat, start: nat, end: nat, ghost flat: Bytes)
    requires oldSize == |flat| && (prior.Some? <==> base < |flat|) && forall i | 0 <= i < chunk.Length :: chunk[i] == 0
    requires prior.Some? ==> base + |prior.value| <= |flat| && prior.value == flat[base..base + |prior.value|]
    requires prior.Some? ==> |prior.value| >= chunk.Length || base + |prior.value| == |flat|
    modifies chunk
    ensures Survives(chunk[..], base, start, end, flat)
  {
    var oldEnd := Min(base + chunk.Length, oldSize);
    if base < oldEnd && (start > base || end < oldEnd) {
      if prior.Some? {
        ghost var zero := chunk[..];
        SetAt(chunk, prior.value[..Min(|prior.value|, chunk.Length)], 0);
        OldSurvives(zero, chunk[..], prior.value, base, start, end, flat);
      }
    }
  }

  /** Builds chunk `k` of the written file: surviving old bytes are read only where some survive. */
  method FillChunk(prior: Option<Bytes>, k: nat, w: nat, oldSize: nat, body: Bytes, start: nat, size: nat, ghost flat: Bytes)
    returns (stored: Bytes)
    requires w > 0 && oldSize == |flat| && size == Max(|flat|, start + |body|) && Base(k, w) < size
    requires prior.Some? <==> Base(k, w) < |flat|
    requires prior.Some? ==> prior.value == Stretch(flat, k, w)
    ensures stored == Stretch(Patched(flat, start, body), k, w)
  {
    BaseIsProduct(k, w);
    var base := k * w;
    var chunk := new Byte[Min(w, size - base)](_ => 0);
    KeepOld(chunk, prior, base, oldSize, start, start + |body|, flat);
    ghost var was := chunk[..];
    var from, to := Max(start, base), Min(start + |body|, base + chunk.Length);
    if to > from {
      SetAt(chunk, body[from - start..to - start], from - base);
    }
    stored := chunk[..];
    OverlayIsChunk(was, stored, k, w, body, start, flat, base);
  }
}
