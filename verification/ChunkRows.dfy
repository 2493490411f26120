/**
 * File bodies as chunk rows (src/fs/sql-file-handles.ts): fixed-width chunks whose width is
 * read off chunk 0, standing for one flat sequence of bytes.
 */
module ChunkRows {

  type Byte = b: int | 0 <= b < 256
  type Bytes = seq<Byte>
  type Rows = map<nat, Bytes>

  function Min(a: int, b: int): int { if a < b then a else b }

  function Max(a: int, b: int): int { if a < b then b else a }

  /** Where chunk `k` starts. */
  ghost function Base(k: nat, w: nat): nat { if k == 0 then 0 else Base(k - 1, w) + w }

  /** The chunk that holds offset `p`. */
  ghost function Chunk(p: nat, w: nat): (k: nat)
    requires w > 0
    ensures Base(k, w) <= p < Base(k, w) + w
  {
    if p < w then 0 else Chunk(p - w, w) + 1
  }

  lemma {:induction false} BaseIsProduct(k: nat, w: nat)
    ensures Base(k, w) == k * w
  {
    if k > 0 { BaseIsProduct(k - 1, w); }
  }

  lemma {:induction false} BaseMonotone(k: nat, l: nat, w: nat)
    requires k < l
    ensures Base(k, w) + w <= Base(l, w)
    decreases l
  {
    if k + 1 < l { BaseMonotone(k, l - 1, w); }
  }

  /** Only one chunk starts within a width below an offset. */
  lemma ChunkUnique(k: nat, p: nat, w: nat)
    requires w > 0 && Base(k, w) <= p < Base(k, w) + w
    ensures Chunk(p, w) == k
  {
    var c := Chunk(p, w);
    if c < k { BaseMonotone(c, k, w); }
    if k < c { BaseMonotone(k, c, w); }
  }

  /** Division rounding down and up, as the source computes them. */
  function FloorDiv(a: nat, w: nat): nat
    requires w > 0
  {
    a / w
  }

  function CeilDiv(a: nat, w: nat): nat
    requires w > 0
  {
    (a + w - 1) / w
  }

  lemma FloorDivIsChunk(a: nat, w: nat)
    requires w > 0
    ensures FloorDiv(a, w) == Chunk(a, w)
  {
    BaseIsProduct(a / w, w);
    ChunkUnique(a / w, a, w);
  }

  /** Exactly the chunks below the rounded-up quotient start before `a`. */
  lemma CeilDivBounds(k: nat, a: nat, w: nat)
    requires w > 0
    ensures k < CeilDiv(a, w) <==> Base(k, w) < a
  {
    var q := CeilDiv(a, w);
    FloorDivIsChunk(a + w - 1, w);
    if k < q { BaseMonotone(k, q, w); }
    if q < k { BaseMonotone(q, k, w); }
  }

  /** Rows of width `w` that hold `size` bytes: every chunk but the last is full. */
  ghost predicate ShapedAt(rows: Rows, size: nat, w: nat) {
    && w > 0
    && (forall k: nat {:trigger k in rows} :: k in rows <==> Base(k, w) < size)
    && (forall k: nat | k in rows :: |rows[k]| == Min(w, size - Base(k, w)))
  }

  /** The width a reader infers: the length of chunk 0. */
  function Width(rows: Rows): nat { if 0 in rows then |rows[0]| else 0 }

  /** The stored invariant: an empty file has no rows, any other is shaped at its own width. */
  ghost predicate Shaped(rows: Rows, size: nat) {
    if size == 0 then rows == map[] else ShapedAt(rows, size, Width(rows))
  }

  ghost function ByteAt(rows: Rows, size: nat, w: nat, p: nat): Byte
    requires ShapedAt(rows, size, w) && p < size
  {
    rows[Chunk(p, w)][p - Base(Chunk(p, w), w)]
  }

  ghost function FlatAt(rows: Rows, size: nat, w: nat): (flat: Bytes)
    requires ShapedAt(rows, size, w)
    ensures |flat| == size
    ensures forall p | 0 <= p < size :: flat[p] == ByteAt(rows, size, w, p)
  {
    seq(size, p requires 0 <= p < size => ByteAt(rows, size, w, p))
  }

  /** The flat file the rows stand for. */
  ghost function Flat(rows: Rows, size: nat): (flat: Bytes)
    requires Shaped(rows, size)
    ensures |flat| == size
  {
    if size == 0 then [] else FlatAt(rows, size, Width(rows))
  }

  /** Chunk `k` holds the bytes of its stretch of the file. */
  lemma ChunkHolds(rows: Rows, size: nat, w: nat, k: nat, p: nat)
    requires ShapedAt(rows, size, w) && k in rows && Base(k, w) <= p < Base(k, w) + |rows[k]|
    ensures p < size && FlatAt(rows, size, w)[p] == rows[k][p - Base(k, w)]
  {
    ChunkUnique(k, p, w);
  }

  /** A file of one chunk may be read at any width that holds it. */
  lemma OneChunk(rows: Rows, size: nat, w: nat)
    requires 0 < size <= w
    requires ShapedAt(rows, size, size)
    ensures ShapedAt(rows, size, w) && FlatAt(rows, size, w) == FlatAt(rows, size, size)
  {
    forall k: nat ensures k in rows <==> Base(k, w) < size {
      if k > 0 {
        BaseMonotone(0, k, w);
        BaseMonotone(0, k, size);
      }
    }
    forall p | 0 <= p < size ensures ByteAt(rows, size, w, p) == ByteAt(rows, size, size, p) {
      ChunkUnique(0, p, w);
      ChunkUnique(0, p, size);
    }
  }

  /** However rows came by their width, reading it off chunk 0 gives the same file. */
  lemma InferredWidth(rows: Rows, size: nat, w: nat)
    requires ShapedAt(rows, size, w)
    ensures Shaped(rows, size) && Flat(rows, size) == FlatAt(rows, size, w)
  {
    assert Base(0, w) == 0;
    if size == 0 {
      assert rows == map[];
    } else if size < w {
      assert Width(rows) == size;
      forall k: nat ensures k in rows <==> Base(k, size) < size {
        if k > 0 {
          BaseMonotone(0, k, w);
          BaseMonotone(0, k, size);
        }
      }
      OneChunk(rows, size, w);
    }
  }

  /** The file after writing `body` at `start`: gaps read as zero. */
  ghost function Patched(flat: Bytes, start: nat, body: Bytes): (r: Bytes)
    ensures |r| == Max(|flat|, start + |body|)
    ensures forall p | 0 <= p < |r| ::
              r[p] == if start <= p < start + |body| then body[p - start] else if p < |flat| then flat[p] else 0
  {
    seq(Max(|flat|, start + |body|), p requires 0 <= p < Max(|flat|, start + |body|) =>
        if start <= p < start + |body| then body[p - start] else if p < |flat| then flat[p] else 0)
  }

  /** The stretch of the file that chunk `k` stores. */
  ghost function Stretch(flat: Bytes, k: nat, w: nat): Bytes
    requires Base(k, w) <= |flat|
  {
    flat[Base(k, w)..Min(Base(k, w) + w, |flat|)]
  }

  /** The rows store exactly `flat`, in chunks of width `w`. */
  ghost predicate Stores(rows: Rows, w: nat, flat: Bytes) {
    && w > 0
    && (forall k: nat {:trigger k in rows} :: k in rows <==> Base(k, w) < |flat|)
    && (forall k: nat {:trigger rows[k]} | k in rows :: rows[k] == Stretch(flat, k, w))
  }

  lemma StoredIsShaped(rows: Rows, w: nat, flat: Bytes)
    requires Stores(rows, w, flat)
    ensures ShapedAt(rows, |flat|, w)
  {
    forall k: nat | k in rows ensures |rows[k]| == Min(w, |flat| - Base(k, w)) {
      assert rows[k] == Stretch(flat, k, w);
    }
  }

  lemma StoredByte(rows: Rows, w: nat, flat: Bytes, p: nat)
    requires Stores(rows, w, flat) && ShapedAt(rows, |flat|, w) && p < |flat|
    ensures ByteAt(rows, |flat|, w, p) == flat[p]
  {
    var k := Chunk(p, w);
    assert k in rows && rows[k] == Stretch(flat, k, w);
    assert Stretch(flat, k, w)[p - Base(k, w)] == flat[p];
  }

  /** What is stored is shaped for its size and reads back as it was. */
  lemma StoredReadsBack(rows: Rows, w: nat, flat: Bytes)
    requires Stores(rows, w, flat)
    ensures ShapedAt(rows, |flat|, w) && FlatAt(rows, |flat|, w) == flat
  {
    StoredIsShaped(rows, w, flat);
    forall p | 0 <= p < |flat| ensures ByteAt(rows, |flat|, w, p) == flat[p] { StoredByte(rows, w, flat, p); }
  }

  lemma ChunkIsStretch(rows: Rows, size: nat, w: nat, k: nat)
    requires ShapedAt(rows, size, w) && k in rows
    ensures rows[k] == Stretch(FlatAt(rows, size, w), k, w)
  {
    hide FlatAt, Base;
    var flat := FlatAt(rows, size, w);
    var base := Base(k, w);
    var stretch := Stretch(flat, k, w);
    assert |stretch| == |rows[k]|;
    forall o | 0 <= o < |rows[k]| ensures rows[k][o] == stretch[o] {
      ChunkHolds(rows, size, w, k, base + o);
      assert stretch[o] == flat[base + o];
    }
  }

  /** Shaped rows store the file they read as. */
  lemma ShapedStores(rows: Rows, size: nat, w: nat)
    requires ShapedAt(rows, size, w)
    ensures Stores(rows, w, FlatAt(rows, size, w))
  {
    forall k: nat | k in rows ensures rows[k] == Stretch(FlatAt(rows, size, w), k, w) { ChunkIsStretch(rows, size, w, k); }
  }

  /** A chunk both files agree on is the same chunk. */
  lemma StretchSame(f: Bytes, g: Bytes, k: nat, w: nat)
    requires Base(k, w) <= |f| && Base(k, w) <= |g| && Min(Base(k, w) + w, |f|) == Min(Base(k, w) + w, |g|)
    requires forall p | Base(k, w) <= p < Min(Base(k, w) + w, |f|) :: f[p] == g[p]
    ensures Stretch(f, k, w) == Stretch(g, k, w)
  {}

  /** A write rewrites no chunk before the one holding its start, or the old end if that is earlier. */
  lemma WriteSpares(w: nat, flat: Bytes, start: nat, body: Bytes, k: nat)
    requires w > 0 && (k < Chunk(Min(start, |flat|), w) || CeilDiv(start + |body|, w) <= k)
    ensures Base(k, w) < |flat| <==> Base(k, w) < |Patched(flat, start, body)|
    ensures Base(k, w) < |flat| ==> Stretch(Patched(flat, start, body), k, w) == Stretch(flat, k, w)
  {
    var begin := Chunk(Min(start, |flat|), w);
    var after := Patched(flat, start, body);
    CeilDivBounds(k, start + |body|, w);
    if k < begin { BaseMonotone(k, begin, w); }
    if Base(k, w) < |flat| { StretchSame(after, flat, k, w); }
  }

  /** Chunks `begin` up to `k` are those of the written file, the others are as they were. */
  ghost predicate Written(mine: Rows, rows: Rows, w: nat, after: Bytes, begin: nat, k: nat) {
    && (forall j: nat {:trigger j in rows} | j < begin || k <= j :: j in rows <==> j in mine)
    && (forall j: nat {:trigger rows[j]} | (j < begin || k <= j) && j in mine && j in rows :: rows[j] == mine[j])
    && (forall j: nat {:trigger j in rows} | begin <= j < k ::
          Base(j, w) < |after| && j in rows && rows[j] == Stretch(after, j, w))
  }

  lemma NothingWritten(mine: Rows, w: nat, flat: Bytes, after: Bytes)
    requires Stores(mine, w, flat)
    ensures w > 0 && forall k: nat :: Written(mine, mine, w, after, k, k)
  {}

  lemma WrittenOne(mine: Rows, rows: Rows, w: nat, after: Bytes, begin: nat, k: nat)
    requires Written(mine, rows, w, after, begin, k) && begin <= k && Base(k, w) < |after|
    ensures Written(mine, rows[k := Stretch(after, k, w)], w, after, begin, k + 1)
  {
    var now := rows[k := Stretch(after, k, w)];
    forall j: nat | begin <= j < k + 1 ensures Base(j, w) < |after| && j in now && now[j] == Stretch(after, j, w) {
      if j == k {
        assert now[j] == Stretch(after, k, w);
      } else {
        assert j in rows && now[j] == rows[j];
      }
    }
    forall j: nat | j < begin || k + 1 <= j ensures j in now <==> j in mine { assert j in now <==> j in rows; }
    forall j: nat | (j < begin || k + 1 <= j) && j in mine && j in now ensures now[j] == mine[j] {
      assert now[j] == rows[j];
    }
  }

  lemma UnwrittenRow(mine: Rows, rows: Rows, w: nat, flat: Bytes, after: Bytes, begin: nat, k: nat)
    requires Stores(mine, w, flat) && Written(mine, rows, w, after, begin, k)
    ensures k in rows <==> Base(k, w) < |flat|
    ensures k in rows ==> rows[k] == Stretch(flat, k, w)
  {
    assert k in rows <==> k in mine;
    if k in rows { assert rows[k] == mine[k]; }
  }

  /** When the loop ends the rows store the written file, even if it never ran because the body is empty. */
  lemma WriteStores(mine: Rows, rows: Rows, w: nat, flat: Bytes, start: nat, body: Bytes, begin: nat, k: nat)
    requires Stores(mine, w, flat) && begin == Chunk(Min(start, |flat|), w)
    requires CeilDiv(start + |body|, w) <= k && (k == begin || k == CeilDiv(start + |body|, w))
    requires Written(mine, rows, w, Patched(flat, start, body), begin, k)
    ensures Stores(rows, w, Patched(flat, start, body))
  {
    var after := Patched(flat, start, body);
    forall j: nat ensures j in rows <==> Base(j, w) < |after| {
      if j < begin || k <= j { WriteSpares(w, flat, start, body, j); }
    }
    forall j: nat | j in rows ensures rows[j] == Stretch(after, j, w) {
      if j < begin || k <= j {
        WriteSpares(w, flat, start, body, j);
        assert mine[j] == Stretch(flat, j, w);
      }
    }
  }

  /** SQL `substr(body, 1, n)`. */
  function Take(body: Bytes, n: nat): Bytes { body[..Min(n, |body|)] }

  lemma DivMod(a: nat, w: nat)
    requires w > 0
    ensures Base(a / w, w) + a % w == a && a % w < w
  {
    BaseIsProduct(a / w, w);
  }

  /** Where the last kept chunk is cut. */
  lemma TailOf(size: nat, w: nat, tail: nat)
    requires w > 0 && size > 0 && tail == size % w
    ensures var end := CeilDiv(size, w);
            end > 0 && tail < w && Base(end - 1, w) + (if tail == 0 then w else tail) == size
  {
    var q, end := size / w, CeilDiv(size, w);
    DivMod(size, w);
    CeilDivBounds(0, size, w);
    CeilDivBounds(end - 1, size, w);
    CeilDivBounds(end, size, w);
    assert Base(end, w) == Base(end - 1, w) + w;
    if tail == 0 {
      if q < end { BaseMonotone(q, end, w); CeilDivBounds(q, size, w); }
      if end < q { BaseMonotone(end, q, w); }
    } else {
      if q < end - 1 { BaseMonotone(q, end - 1, w); }
      if end - 1 < q { BaseMonotone(end - 1, q, w); }
    }
  }

  /** Dropping the chunks past `size` and cutting the last one left leaves the file cut at `size`. */
  lemma TruncateStores(rows: Rows, cut: Rows, w: nat, flat: Bytes, size: nat, tail: nat)
    requires Stores(rows, w, flat) && 0 < size <= |flat| && tail == size % w
    requires var end := CeilDiv(size, w);
             && (forall k: nat {:trigger k in cut} :: k in cut <==> k in rows && k < end)
             && (forall k: nat {:trigger cut[k]} | k in cut ::
                   cut[k] == if k == end - 1 && tail != 0 then Take(rows[k], tail) else rows[k])
    ensures Stores(cut, w, flat[..size])
  {
    var end := CeilDiv(size, w);
    TailOf(size, w, tail);
    forall k: nat ensures k in cut <==> Base(k, w) < size { CeilDivBounds(k, size, w); }
    forall k: nat | k in cut ensures cut[k] == Stretch(flat[..size], k, w) {
      assert rows[k] == Stretch(flat, k, w);
      TruncateChunk(w, flat, size, tail, end, k);
    }
  }

  lemma TruncateChunk(w: nat, flat: Bytes, size: nat, tail: nat, end: nat, k: nat)
    requires w > 0 && 0 < size <= |flat| && k < end && tail < w
    requires Base(end - 1, w) + (if tail == 0 then w else tail) == size
    ensures Base(k, w) <= size
    ensures Stretch(flat[..size], k, w)
         == if k == end - 1 && tail != 0 then Take(Stretch(flat, k, w), tail) else Stretch(flat, k, w)
  {
    hide Base;
    if k < end - 1 {
      BaseMonotone(k, end - 1, w);
      StretchSame(flat, flat[..size], k, w);
    } else {
      CutStretch(flat, Base(k, w), Min(Base(k, w) + w, |flat|), size);
    }
  }

  lemma CutStretch(flat: Bytes, from: nat, to: nat, size: nat)
    requires from <= size <= to <= |flat|
    ensures flat[..size][from..size] == flat[from..size] == flat[from..to][..size - from]
  {}
}
