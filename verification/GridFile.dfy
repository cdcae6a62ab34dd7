/**
  The GridFS file layer: a random-access file kept as fixed-size chunks in a
  collection, with at most one chunk held back in memory ("pending").

  `FlatFile` says what the file is; `GridFile` is the C structure with its
  operations, each specified by what it does to the flat file.
 */
module FlatFile {
  import opened Bytes

  /** DEFAULT_CHUNK_SIZE */
  const CHUNK: nat := 262144

  /** The documents of the chunks collection that belong to one file: chunk number to data. */
  type Chunks = map<nat, bytes>

  /** Writing `d` at `pos` of `f`: overwrite what is there, extend past the end. */
  function Overwrite(f: bytes, pos: nat, d: bytes): (g: bytes)
    requires pos <= |f|
    ensures |g| == Max(|f|, pos + |d|)
    ensures d == [] ==> g == f
  {
    f[..pos] + d + f[Min(pos + |d|, |f|)..]
  }

  function Slot(f: bytes, n: nat): (s: bytes)
    requires n * CHUNK <= |f|
    ensures |s| == Min(CHUNK, |f| - n * CHUNK)
  {
    f[n * CHUNK..Min((n + 1) * CHUNK, |f|)]
  }

  /** `chunks` is exactly `f` cut into slots of CHUNK bytes, except possibly at slot `c`. */
  ghost predicate RepresentsExcept(chunks: Chunks, f: bytes, c: nat) {
    forall n: nat {:trigger n in chunks} | n != c ::
      (n in chunks <==> n * CHUNK < |f|) && (n in chunks ==> chunks[n] == Slot(f, n))
  }

  ghost predicate Represents(chunks: Chunks, f: bytes) {
    forall n: nat {:trigger n in chunks} ::
      (n in chunks <==> n * CHUNK < |f|) && (n in chunks ==> chunks[n] == Slot(f, n))
  }

  /** `chunks` is `f` cut into slots from number `c` on. */
  ghost predicate RepresentsFrom(chunks: Chunks, f: bytes, c: nat) {
    forall n: nat {:trigger n in chunks} | n >= c ::
      (n in chunks <==> n * CHUNK < |f|) && (n in chunks ==> chunks[n] == Slot(f, n))
  }

  /** Two stores differ at most in the chunks numbered `lo` up to `hi`. */
  ghost predicate SameOutside(a: Chunks, b: Chunks, lo: nat, hi: nat) {
    forall n: nat {:trigger n in a} {:trigger n in b} | n < lo || n >= hi ::
      (n in a <==> n in b) && (n in a ==> a[n] == b[n])
  }

  lemma FromLater(chunks: Chunks, f: bytes, c: nat, d: nat)
    requires RepresentsFrom(chunks, f, c) && c <= d
    ensures RepresentsFrom(chunks, f, d)
  {
  }

  lemma SameOutsideChains(a: Chunks, b: Chunks, c: Chunks, lo: nat, mid: nat, hi: nat)
    requires lo <= mid <= hi && SameOutside(b, a, lo, mid) && SameOutside(c, b, mid, hi)
    ensures SameOutside(c, a, lo, hi)
  {
  }

  /** Chunks 0 .. n-1 joined. */
  function Joined(chunks: Chunks, n: nat): bytes
    requires forall i: nat | i < n :: i in chunks
  {
    if n == 0 then [] else Joined(chunks, n - 1) + chunks[n - 1]
  }

  /** What a store that represents `f` looks like: its chunks are numbered without a
      gap, all but the last hold exactly 256 KiB, and joined they are `f`. */
  lemma {:induction false} StoredFileIsJoinedChunks(chunks: Chunks, f: bytes)
    requires Represents(chunks, f)
    ensures forall n: nat :: n in chunks <==> n < (|f| + 262143) / 262144
    ensures forall n: nat | n + 1 in chunks :: n in chunks && |chunks[n]| == 262144
    ensures Joined(chunks, (|f| + 262143) / 262144) == f
  {
    var k := (|f| + CHUNK - 1) / CHUNK;
    forall n: nat ensures n in chunks <==> n < k {}
    forall n: nat | n + 1 in chunks ensures n in chunks && |chunks[n]| == CHUNK {
      assert (n + 1) * CHUNK < |f|;
      assert n in chunks && chunks[n] == Slot(f, n);
    }
    JoinedPrefix(chunks, f, k);
  }

  lemma {:induction false} JoinedPrefix(chunks: Chunks, f: bytes, n: nat)
    requires Represents(chunks, f)
    requires n <= (|f| + CHUNK - 1) / CHUNK
    ensures forall i: nat | i < n :: i in chunks
    ensures Joined(chunks, n) == f[..Min(n * CHUNK, |f|)]
  {
    if n > 0 {
      JoinedPrefix(chunks, f, n - 1);
      assert chunks[n - 1] == Slot(f, n - 1);
    }
  }

  lemma RepresentationIsUnique(chunks: Chunks, f: bytes, g: bytes)
    requires Represents(chunks, f) && Represents(chunks, g)
    ensures f == g
  {
    StoredFileIsJoinedChunks(chunks, f);
    StoredFileIsJoinedChunks(chunks, g);
    var k, m := (|f| + CHUNK - 1) / CHUNK, (|g| + CHUNK - 1) / CHUNK;
    assert (k in chunks <==> k < m) && (m in chunks <==> m < k);
  }

  lemma OverwriteTwice(f: bytes, pos: nat, a: bytes, b: bytes)
    requires pos <= |f|
    ensures Overwrite(Overwrite(f, pos, a), pos + |a|, b) == Overwrite(f, pos, a + b)
  {
    var g := Overwrite(f, pos, a);
    assert g[..pos + |a|] == f[..pos] + a;
    var l := Overwrite(g, pos + |a|, b);
    var r := Overwrite(f, pos, a + b);
    assert |l| == |r|;
    forall i | 0 <= i < |l| ensures l[i] == r[i] {}
  }

  lemma ExtendZeros(f: bytes, n: nat, m: nat)
    ensures Overwrite(f + Fill(n, 0), |f| + n, Fill(m, 0)) == f + Fill(n + m, 0)
  {
  }

  lemma OverwriteSplit(f: bytes, pos: nat, d: bytes, k: nat)
    requires pos <= |f| && k <= |d|
    ensures Overwrite(Overwrite(f, pos, d[..k]), pos + k, d[k..]) == Overwrite(f, pos, d)
  {
    OverwriteTwice(f, pos, d[..k], d[k..]);
    assert d[..k] + d[k..] == d;
  }

  /** `f` between two positions, as far as it reaches. */
  function Clip(f: bytes, lo: nat, hi: nat): bytes
    requires lo <= hi
  {
    f[Min(lo, |f|)..Min(hi, |f|)]
  }

  lemma SliceOfSlice(f: bytes, a: nat, b: nat, c: nat, d: nat)
    requires a <= b <= |f| && c <= d <= b - a
    ensures f[a..b][c..d] == f[a + c..a + d]
  {
    forall i | 0 <= i < d - c ensures f[a..b][c..d][i] == f[a + c..a + d][i] {}
  }

  lemma JoinSlices(f: bytes, a: nat, b: nat, c: nat)
    requires a <= b <= c <= |f|
    ensures f[a..b] + f[b..c] == f[a..c]
  {
  }

  /** What slot `n` holds of a range that starts inside it. */
  lemma RangeInSlot(chunks: Chunks, f: bytes, at: nat, q: nat, n: nat)
    requires RepresentsFrom(chunks, f, n) && n * CHUNK <= at < (n + 1) * CHUNK && at < q <= |f|
    ensures n in chunks
    ensures Clip(chunks[n], at - n * CHUNK, q - n * CHUNK) == f[at..Min(q, (n + 1) * CHUNK)]
  {
    assert chunks[n] == Slot(f, n);
    SliceOfSlice(f, n * CHUNK, Min((n + 1) * CHUNK, |f|), at - n * CHUNK, Min(q, (n + 1) * CHUNK) - n * CHUNK);
  }

  /** A range that has been read up to `at` is read on through slot `n`. */
  lemma ReadOnInSlot(chunks: Chunks, f: bytes, p: nat, at: nat, q: nat, n: nat)
    requires RepresentsFrom(chunks, f, n) && n * CHUNK <= at < (n + 1) * CHUNK && p <= at < q <= |f|
    ensures n in chunks
    ensures f[p..at] + Clip(chunks[n], at - n * CHUNK, q - n * CHUNK) == f[p..Min(q, (n + 1) * CHUNK)]
    ensures q - n * CHUNK > |chunks[n]| <==> q > (n + 1) * CHUNK
  {
    RangeInSlot(chunks, f, at, q, n);
    JoinSlices(f, p, at, Min(q, (n + 1) * CHUNK));
  }

  lemma OverwriteKeepsTail(f: bytes, pos: nat, d: bytes, lo: nat, hi: nat)
    requires pos <= |f| && pos + |d| <= lo <= hi
    ensures Clip(Overwrite(f, pos, d), lo, hi) == Clip(f, lo, hi)
  {
  }

  lemma OverwriteAt(f: bytes, pos: nat, d: bytes, i: nat)
    requires pos <= |f| && i < Max(|f|, pos + |d|)
    ensures Overwrite(f, pos, d)[i] == if pos <= i < pos + |d| then d[i - pos] else f[i]
  {
  }

  /** A write that stays inside slot `c` changes that slot only. */
  lemma OverwriteOneSlot(f: bytes, pos: nat, d: bytes, c: nat)
    requires c * CHUNK <= pos <= |f|
    requires pos + |d| <= (c + 1) * CHUNK
    ensures var g := Overwrite(f, pos, d);
      && Slot(g, c) == Overwrite(Slot(f, c), pos - c * CHUNK, d)
      && (forall n: nat | n != c && n * CHUNK < |g| :: n * CHUNK < |f| && Slot(g, n) == Slot(f, n))
      && (forall n: nat | n * CHUNK < |f| :: n * CHUNK < |g|)
  {
    hide Overwrite, Slot;
    var g := Overwrite(f, pos, d);
    SameSlotWritten(f, pos, d, c);
    forall n: nat | n != c && n * CHUNK < |g| ensures n * CHUNK < |f| && Slot(g, n) == Slot(f, n) {
      OtherSlotKept(f, pos, d, c, n);
    }
  }

  lemma SameSlotWritten(f: bytes, pos: nat, d: bytes, c: nat)
    requires c * CHUNK <= pos <= |f| && pos + |d| <= (c + 1) * CHUNK
    ensures Slot(Overwrite(f, pos, d), c) == Overwrite(Slot(f, c), pos - c * CHUNK, d)
  {
    var l, r := Slot(Overwrite(f, pos, d), c), Overwrite(Slot(f, c), pos - c * CHUNK, d);
    assert |l| == |r|;
    forall i | 0 <= i < |l| ensures l[i] == r[i] {
      OverwriteAt(f, pos, d, c * CHUNK + i);
      OverwriteAt(Slot(f, c), pos - c * CHUNK, d, i);
    }
  }

  lemma OtherSlotKept(f: bytes, pos: nat, d: bytes, c: nat, n: nat)
    requires c * CHUNK <= pos <= |f| && pos + |d| <= (c + 1) * CHUNK
    requires n != c && n * CHUNK < |Overwrite(f, pos, d)|
    ensures n * CHUNK < |f| && Slot(Overwrite(f, pos, d), n) == Slot(f, n)
  {
    var g := Overwrite(f, pos, d);
    assert n < c || (c + 1) * CHUNK <= n * CHUNK;
    var l, r := Slot(g, n), Slot(f, n);
    assert |l| == |r|;
    forall i | 0 <= i < |l| ensures l[i] == r[i] {
      OverwriteAt(f, pos, d, n * CHUNK + i);
    }
  }

  lemma ExceptAnySlot(chunks: Chunks, f: bytes, c: nat)
    requires Represents(chunks, f)
    ensures RepresentsExcept(chunks, f, c)
  {
  }

  lemma RemoveSlot(chunks: Chunks, f: bytes, c: nat, slot: bytes)
    requires Represents(chunks[c := slot], f)
    ensures RepresentsExcept(chunks, f, c)
    ensures c * CHUNK < |f| && slot == Slot(f, c)
  {
    assert c in chunks[c := slot];
    forall n: nat | n != c
      ensures (n in chunks <==> n * CHUNK < |f|) && (n in chunks ==> chunks[n] == Slot(f, n))
    {
      assert n in chunks <==> n in chunks[c := slot];
    }
  }

  /** Replacing slot `c` of a store by the slot a write leaves there completes the write. */
  lemma PutSlot(chunks: Chunks, f: bytes, pos: nat, d: bytes, c: nat, slot: bytes)
    requires c * CHUNK <= pos <= |f|
    requires pos + |d| <= (c + 1) * CHUNK
    requires RepresentsExcept(chunks, f, c)
    requires slot != []
    requires slot == Overwrite(Slot(f, c), pos - c * CHUNK, d)
    ensures Represents(chunks[c := slot], Overwrite(f, pos, d))
  {
    OverwriteOneSlot(f, pos, d, c);
  }

  lemma SlotAfterHead(g: bytes, c: nat, stale: bytes, rest: bytes)
    requires |rest| < CHUNK && c * CHUNK <= |g|
    ensures Overwrite(stale, 0, rest) == Slot(Overwrite(g, c * CHUNK, rest), c) <==>
            Clip(g, c * CHUNK + |rest|, (c + 1) * CHUNK) == stale[Min(|rest|, |stale|)..]
  {
    var slot, h := Overwrite(stale, 0, rest), Overwrite(g, c * CHUNK, rest);
    var tail := Clip(g, c * CHUNK + |rest|, (c + 1) * CHUNK);
    assert slot == rest + stale[Min(|rest|, |stale|)..];
    OverwriteOneSlot(g, c * CHUNK, rest, c);
    assert Slot(h, c) == rest + tail;
    assert slot[|rest|..] == stale[Min(|rest|, |stale|)..] && Slot(h, c)[|rest|..] == tail;
  }

  ghost function KeepBelow(chunks: Chunks, k: nat): Chunks {
    map n | n in chunks && n < k :: chunks[n]
  }

  lemma CutAtBoundary(chunks: Chunks, f: bytes, k: nat)
    requires Represents(chunks, f) && k * CHUNK <= |f|
    ensures Represents(KeepBelow(chunks, k), f[..k * CHUNK])
  {
    forall n: nat | n in KeepBelow(chunks, k)
      ensures KeepBelow(chunks, k)[n] == Slot(f[..k * CHUNK], n)
    {
      assert n in chunks;
    }
  }

  lemma CutInsideSlot(chunks: Chunks, f: bytes, c: nat, n: nat)
    requires c * CHUNK < n < (c + 1) * CHUNK && n <= |f|
    requires RepresentsExcept(chunks, f, c)
    requires c in chunks && chunks[c] == f[c * CHUNK..n]
    ensures Represents(KeepBelow(chunks, c + 1), f[..n])
  {
    forall m: nat | m in KeepBelow(chunks, c + 1)
      ensures KeepBelow(chunks, c + 1)[m] == Slot(f[..n], m)
    {
      assert m in chunks;
    }
  }

  lemma SlotBefore(f: bytes, pos: nat, d: bytes, c: nat)
    requires (c + 1) * CHUNK <= pos <= |f|
    ensures Slot(Overwrite(f, pos, d), c) == f[c * CHUNK..(c + 1) * CHUNK]
  {
  }

  /** A chunk that is full in the file, behind what has been written, is full in the store. */
  lemma FullChunkStays(chunks: Chunks, store: Chunks, f: bytes, c: nat, held: bool, lo: nat, n: nat)
    requires SameOutside(chunks, store, lo, n) && (n + 1) * CHUNK <= |f|
    requires if held then RepresentsExcept(store, f, c) else Represents(store, f)
    requires held && n == c ==> c in store && |store[c]| == CHUNK
    ensures n in chunks && |chunks[n]| == CHUNK
  {
    assert n in store <==> n in chunks;
    assert n * CHUNK < |f|;
  }

  /** Laying `stale` with `rest` written over its start on slot `c` gives the file that
      results from writing `rest` there exactly when the leftover of `stale` is what the
      slot holds after `rest`. */
  lemma StaleSlot(chunks: Chunks, g: bytes, c: nat, stale: bytes, rest: bytes)
    requires Represents(chunks, g)
    requires 0 < |stale| <= CHUNK && |rest| < CHUNK && c * CHUNK <= |g|
    ensures Represents(chunks[c := Overwrite(stale, 0, rest)], Overwrite(g, c * CHUNK, rest)) <==>
            Clip(g, c * CHUNK + |rest|, (c + 1) * CHUNK) == stale[Min(|rest|, |stale|)..]
  {
    var slot, h := Overwrite(stale, 0, rest), Overwrite(g, c * CHUNK, rest);
    SlotAfterHead(g, c, stale, rest);
    OverwriteOneSlot(g, c * CHUNK, rest, c);
    if Represents(chunks[c := slot], h) {
      RemoveSlot(chunks, h, c, slot);
    } else if slot == Slot(h, c) {
      PutSlot(chunks, g, c * CHUNK, rest, c, slot);
    }
  }
}

module GridFs {
  import opened Bytes
  import opened FlatFile

  /** The position a write of `n` bytes at `pos` leaves stale: a whole chunk is written at
      a chunk boundary while bytes are pending. */
  predicate OverrunsPending(pos: nat, pendingLen: nat, n: nat) {
    pendingLen > 0 && pos % CHUNK == 0 && n >= CHUNK
  }

  /** When a write does what it should. If it overruns the pending chunk, the stale pending
      bytes beyond the written tail reappear in the chunk where the write ends; that is
      harmless only when they are the bytes the file has there anyway. */
  ghost predicate WriteIsExact(f: bytes, pos: nat, pendingLen: nat, n: nat)
    requires pos + pendingLen <= |f| || !OverrunsPending(pos, pendingLen, n)
  {
    OverrunsPending(pos, pendingLen, n) ==>
      var r := n % CHUNK;
      Clip(f, pos + n, pos + n - r + CHUNK) == f[pos..pos + pendingLen][Min(r, pendingLen)..]
  }

  /** When a write is exact although the pending chunk `c` lies before the position, which
      happens after a read up to the end of that chunk: it is taken for the chunk under the
      position, without having been stored. That is harmless only when the store has its bytes
      already, and when they are those of the chunk under the position, outside the write. */
  ghost predicate StrayWriteIsExact(f: bytes, c: nat, stored: bytes, pos: nat, n: nat)
    requires (c + 1) * CHUNK <= pos <= |f|
  {
    var held, r, t := f[c * CHUNK..(c + 1) * CHUNK], pos % CHUNK, n % CHUNK;
    && stored == held
    && held[..r] == f[pos - r..pos]
    && (r + n < CHUNK ==> held[r + n..] == Clip(f, pos + n, pos - r + CHUNK))
    && (r == 0 && n >= CHUNK ==> held[t..] == Clip(f, pos + n, pos + n - t + CHUNK))
  }

  /** The file a structure stands for whose pending chunk `c` is taken for chunk `n`. */
  ghost function MislaidFile(f: bytes, c: nat, stored: bytes, n: nat): (m: bytes)
    requires c < n && n * CHUNK <= |f| && |stored| == CHUNK
    ensures |m| == Max(|f|, (n + 1) * CHUNK)
  {
    Overwrite(Overwrite(f, c * CHUNK, stored), n * CHUNK, f[c * CHUNK..(c + 1) * CHUNK])
  }

  lemma MislaidAt(f: bytes, c: nat, stored: bytes, n: nat, i: nat)
    requires c < n && n * CHUNK <= |f| && |stored| == CHUNK
    requires i < Max(|f|, (n + 1) * CHUNK)
    ensures MislaidFile(f, c, stored, n)[i] ==
            if n * CHUNK <= i < (n + 1) * CHUNK then f[c * CHUNK..(c + 1) * CHUNK][i - n * CHUNK]
            else if c * CHUNK <= i < (c + 1) * CHUNK then stored[i - c * CHUNK]
            else f[i]
  {
    var m := Overwrite(f, c * CHUNK, stored);
    OverwriteAt(m, n * CHUNK, f[c * CHUNK..(c + 1) * CHUNK], i);
    if i < |m| {
      OverwriteAt(f, c * CHUNK, stored, i);
    }
  }

  /** A write of `d` at byte `r` of chunk `n` hides all that was mislaid. */
  ghost predicate MislaidIsHidden(f: bytes, c: nat, stored: bytes, n: nat, r: nat, size: nat)
    requires c < n && n * CHUNK + r <= |f| && r < CHUNK
  {
    var held := f[c * CHUNK..(c + 1) * CHUNK];
    && stored == held
    && held[..r] == f[n * CHUNK..n * CHUNK + r]
    && (r + size >= CHUNK || held[r + size..] == Clip(f, n * CHUNK + r + size, (n + 1) * CHUNK))
  }

  lemma HiddenMeansSame(f: bytes, c: nat, stored: bytes, n: nat, r: nat, d: bytes)
    requires c < n && n * CHUNK + r <= |f| && r < CHUNK && |stored| == CHUNK
    requires MislaidIsHidden(f, c, stored, n, r, |d|)
    ensures Overwrite(MislaidFile(f, c, stored, n), n * CHUNK + r, d) == Overwrite(f, n * CHUNK + r, d)
  {
    hide Overwrite, MislaidFile;
    var m, held := MislaidFile(f, c, stored, n), f[c * CHUNK..(c + 1) * CHUNK];
    var h, g := Overwrite(m, n * CHUNK + r, d), Overwrite(f, n * CHUNK + r, d);
    if r + |d| < CHUNK {
      assert |held[r + |d|..]| == CHUNK - r - |d|;
    }
    assert |h| == |g|;
    forall i | 0 <= i < |h| ensures h[i] == g[i] {
      OverwriteAt(m, n * CHUNK + r, d, i);
      OverwriteAt(f, n * CHUNK + r, d, i);
      if !(n * CHUNK + r <= i < n * CHUNK + r + |d|) {
        MislaidAt(f, c, stored, n, i);
        if n * CHUNK <= i < n * CHUNK + r {
          assert held[..r][i - n * CHUNK] == f[n * CHUNK..n * CHUNK + r][i - n * CHUNK];
        } else if n * CHUNK + r + |d| <= i < (n + 1) * CHUNK {
          assert held[r + |d|..][i - n * CHUNK - r - |d|] == held[i - n * CHUNK];
        }
      }
    }
  }

  lemma SameMeansHidden(f: bytes, c: nat, stored: bytes, n: nat, r: nat, d: bytes)
    requires c < n && n * CHUNK + r <= |f| && r < CHUNK && |stored| == CHUNK
    requires Overwrite(MislaidFile(f, c, stored, n), n * CHUNK + r, d) == Overwrite(f, n * CHUNK + r, d)
    ensures MislaidIsHidden(f, c, stored, n, r, |d|)
  {
    hide Overwrite, MislaidFile;
    var held := f[c * CHUNK..(c + 1) * CHUNK];
    forall i | 0 <= i < CHUNK ensures stored[i] == held[i] {
      SameOutsideWrite(f, c, stored, n, n * CHUNK + r, d, c * CHUNK + i);
    }
    assert stored == held;
    forall i | 0 <= i < r ensures held[i] == f[n * CHUNK + i] {
      SameOutsideWrite(f, c, stored, n, n * CHUNK + r, d, n * CHUNK + i);
    }
    assert held[..r] == f[n * CHUNK..n * CHUNK + r];
    if r + |d| < CHUNK {
      SameOutsideWrite(f, c, stored, n, n * CHUNK + r, d, n * CHUNK + (CHUNK - 1));
      forall i | r + |d| <= i < CHUNK ensures held[i] == f[n * CHUNK + i] {
        SameOutsideWrite(f, c, stored, n, n * CHUNK + r, d, n * CHUNK + i);
      }
      assert held[r + |d|..] == f[n * CHUNK + r + |d|..(n + 1) * CHUNK];
    }
  }

  lemma CopiedPrefix(buf: bytes, len: nat, at: nat, d: bytes)
    requires at <= len <= |buf| && at + |d| <= |buf|
    ensures (buf[..at] + d + buf[at + |d|..])[..Max(len, at + |d|)] == Overwrite(buf[..len], at, d)
  {
  }

  /** Where two files that agree after a write are not written, the mislaid file has the
      bytes of the other. */
  lemma SameOutsideWrite(f: bytes, c: nat, stored: bytes, n: nat, pos: nat, d: bytes, i: nat)
    requires c < n && n * CHUNK <= pos <= |f| && |stored| == CHUNK
    requires Overwrite(MislaidFile(f, c, stored, n), pos, d) == Overwrite(f, pos, d)
    requires i < Max(|f|, (n + 1) * CHUNK) && !(pos <= i < pos + |d|)
    ensures i < |f|
    ensures f[i] == if n * CHUNK <= i < (n + 1) * CHUNK then f[c * CHUNK..(c + 1) * CHUNK][i - n * CHUNK]
                    else if c * CHUNK <= i < (c + 1) * CHUNK then stored[i - c * CHUNK] else f[i]
  {
    hide Overwrite, MislaidFile;
    OverwriteAt(MislaidFile(f, c, stored, n), pos, d, i);
    OverwriteAt(f, pos, d, i);
    MislaidAt(f, c, stored, n, i);
  }

  lemma RestInChunk(pos: nat, n: nat)
    requires n * CHUNK <= pos < (n + 1) * CHUNK
    ensures pos % CHUNK == pos - n * CHUNK
  {
  }

  /** A write at a mislaid pending chunk leaves the intended file exactly when the condition
      says so; the chunk whose bytes were pending tells the two files apart. */
  lemma StrayWrite(f: bytes, c: nat, stored: bytes, pos: nat, n: nat, d: bytes)
    requires c < n && n * CHUNK <= pos < (n + 1) * CHUNK && pos <= |f| && |stored| == CHUNK
    ensures var m := MislaidFile(f, c, stored, n);
      var same := Overwrite(m, pos, d) == Overwrite(f, pos, d);
      && (same && WriteIsExact(m, pos, CHUNK, |d|) <==> StrayWriteIsExact(f, c, stored, pos, |d|))
      && (stored == f[c * CHUNK..(c + 1) * CHUNK] && !WriteIsExact(m, pos, CHUNK, |d|) ==> same)
  {
    hide Overwrite, MislaidFile, WriteIsExact, Clip;
    var r, m := pos - n * CHUNK, MislaidFile(f, c, stored, n);
    RestInChunk(pos, n);
    if MislaidIsHidden(f, c, stored, n, r, |d|) {
      HiddenMeansSame(f, c, stored, n, r, d);
    } else if Overwrite(m, pos, d) == Overwrite(f, pos, d) {
      SameMeansHidden(f, c, stored, n, r, d);
    }
    MislaidOverrun(f, c, stored, pos, n, |d|);
  }

  lemma MislaidOverrun(f: bytes, c: nat, stored: bytes, pos: nat, n: nat, size: nat)
    requires c < n && n * CHUNK <= pos < (n + 1) * CHUNK && pos <= |f| && |stored| == CHUNK
    ensures var m, held, t := MislaidFile(f, c, stored, n), f[c * CHUNK..(c + 1) * CHUNK], size % CHUNK;
      WriteIsExact(m, pos, CHUNK, size) <==>
        (pos == n * CHUNK && size >= CHUNK ==> held[t..] == Clip(f, pos + size, pos + size - t + CHUNK))
  {
    hide MislaidFile, Clip;
    if pos == n * CHUNK && size >= CHUNK {
      MislaidAtBoundary(f, c, stored, n, pos + size, pos + size - size % CHUNK + CHUNK);
    }
  }

  lemma MislaidAtBoundary(f: bytes, c: nat, stored: bytes, n: nat, lo: nat, hi: nat)
    requires c < n && n * CHUNK <= |f| && |stored| == CHUNK && (n + 1) * CHUNK <= lo <= hi
    ensures MislaidFile(f, c, stored, n)[n * CHUNK..n * CHUNK + CHUNK] == f[c * CHUNK..(c + 1) * CHUNK]
    ensures Clip(MislaidFile(f, c, stored, n), lo, hi) == Clip(f, lo, hi)
  {
    hide MislaidFile;
    var m := MislaidFile(f, c, stored, n);
    forall i | 0 <= i < |m| ensures m[i] ==
            if n * CHUNK <= i < (n + 1) * CHUNK then f[c * CHUNK..(c + 1) * CHUNK][i - n * CHUNK]
            else if c * CHUNK <= i < (c + 1) * CHUNK then stored[i - c * CHUNK]
            else f[i]
    {
      MislaidAt(f, c, stored, n, i);
    }
  }

  lemma ExactUnlessOverrun(f: bytes, pos: nat, pendingLen: nat, n: nat)
    requires !OverrunsPending(pos, pendingLen, n)
    ensures WriteIsExact(f, pos, pendingLen, n)
  {
  }

  lemma OverrunsAfter(f: bytes, pos: nat, pendingLen: nat, d: bytes, done: nat)
    requires d == [] || pos % CHUNK == 0
    requires done % CHUNK == 0 && done <= |d| < done + CHUNK
    ensures OverrunsPending(pos, pendingLen, |d|) <==> done > 0 && pendingLen > 0
    ensures done == 0 || pendingLen == 0 ==> WriteIsExact(f, pos, pendingLen, |d|)
  {
  }

  lemma ExactnessAtTail(f: bytes, pos: nat, d: bytes, done: nat, pendingLen: nat)
    requires pos % CHUNK == 0 && done % CHUNK == 0 && 0 < done <= |d| < done + CHUNK
    requires 0 < pendingLen && pos + pendingLen <= |f|
    ensures WriteIsExact(f, pos, pendingLen, |d|) <==>
            Clip(Overwrite(f, pos, d[..done]), pos + |d|, pos + done + CHUNK)
            == f[pos..pos + pendingLen][Min(|d| - done, pendingLen)..]
  {
    assert |d| - |d| % CHUNK == done;
    OverwriteKeepsTail(f, pos, d[..done], pos + |d|, pos + done + CHUNK);
  }

  class GridFile {
    /** The chunks collection of the database, restricted to this file. */
    var chunks: Chunks
    var pos: nat
    var length: nat
    var chunkNum: nat
    var pendingLen: nat
    const pendingData: array<byte>

    /** The flat byte string this structure is meant to implement. */
    ghost var file: bytes

    function Pending(): bytes
      requires pendingLen <= pendingData.Length
      reads `pendingLen, pendingData
    {
      pendingData[..pendingLen]
    }

    /** The stored chunks with the pending chunk laid over them. */
    ghost function Overlay(): Chunks
      requires pendingLen <= pendingData.Length
      reads `chunks, `chunkNum, `pendingLen, pendingData
    {
      if pendingLen == 0 then chunks else chunks[chunkNum := Pending()]
    }

    /** gridfile_get_contentlength */
    function ContentLength(): nat
      reads `length, `chunkNum, `pendingLen
    {
      Max(if pendingLen > 0 then chunkNum * CHUNK + pendingLen else length, length)
    }

    /** Store and pending chunk together hold exactly `file`. */
    ghost predicate Implements()
      reads `chunks, `length, `chunkNum, `pendingLen, `file, pendingData
    {
      && pendingData.Length == CHUNK
      && pendingLen <= CHUNK
      && Represents(Overlay(), file)
      && ContentLength() == |file|
    }

    ghost predicate InFile()
      reads this, pendingData
    {
      Implements() && pos <= |file|
    }

    /** Where the pending chunk can be: under the position, or, once a read has run through
        to its end, anywhere before it. A full pending chunk has come from a full stored one. */
    predicate Placed()
      reads this
    {
      pendingLen > 0 ==>
        && chunkNum * CHUNK <= pos
        && (pendingLen == CHUNK || pos < (chunkNum + 1) * CHUNK)
        && (pendingLen == CHUNK ==> chunkNum in chunks && |chunks[chunkNum]| == CHUNK)
    }

    ghost predicate Valid()
      reads this, pendingData
    {
      InFile() && Placed()
    }

    /** What is in the store, apart from the slot the next operation works on. */
    lemma StoreBelowOverlay()
      requires Implements()
      ensures pendingLen > 0 ==> RepresentsExcept(chunks, file, chunkNum)
      ensures pendingLen > 0 ==> chunkNum * CHUNK < |file| && Pending() == Slot(file, chunkNum)
      ensures pendingLen > 0 ==>
                && chunkNum * CHUNK + pendingLen <= |file|
                && Pending() == file[chunkNum * CHUNK..chunkNum * CHUNK + pendingLen]
      ensures pendingLen == 0 ==> Represents(chunks, file)
    {
      if pendingLen > 0 {
        RemoveSlot(chunks, file, chunkNum, Pending());
      }
    }

    /** The position is inside the pending chunk, if there is one. */
    predicate Settled()
      reads this
    {
      pendingLen == 0 || chunkNum * CHUNK <= pos < (chunkNum + 1) * CHUNK
    }

    /** The chunk number is that of the position. */
    predicate Here()
      reads this
    {
      chunkNum * CHUNK <= pos < (chunkNum + 1) * CHUNK
    }

    /** gridfile_writer_init over a store that already holds `f` (empty for a new file) */
    constructor (stored: Chunks, f: bytes)
      requires Represents(stored, f)
      ensures Valid() && Settled() && file == f && chunks == stored && pos == 0 && pendingLen == 0
      ensures fresh(pendingData)
    {
      chunks, length, file := stored, |f|, f;
      pos, chunkNum, pendingLen := 0, 0, 0;
      pendingData := new byte[CHUNK](_ => 0);
    }

    /** gridfile_flush_pendingchunk */
    method FlushPending()
      requires pendingLen <= pendingData.Length
      modifies this
      ensures chunks == old(Overlay()) && length == old(ContentLength())
      ensures pendingLen == 0 && pos == old(pos) && file == old(file)
      ensures chunkNum == if old(pendingLen) > 0 then old(chunkNum) + 1 else old(chunkNum)
    {
      if pendingLen > 0 {
        chunks := chunks[chunkNum := Pending()];
        var finishPosition := chunkNum * CHUNK + pendingLen;
        if finishPosition > length {
          length := finishPosition;
        }
        chunkNum := chunkNum + 1;
        pendingLen := 0;
      }
    }

    /** gridfile_load_pending_data_with_pos_chunk: fails when the chunk is not stored */
    method LoadPending() returns (ok: bool)
      requires pendingData.Length == CHUNK
      requires pos / CHUNK in chunks ==> |chunks[pos / CHUNK]| <= CHUNK
      modifies this, pendingData
      ensures ok == (pos / CHUNK in chunks)
      ensures chunks == old(chunks) && length == old(length) && pos == old(pos) && file == old(file)
      ensures !ok ==> pendingLen == old(pendingLen) && chunkNum == old(chunkNum)
      ensures !ok ==> pendingData[..] == old(pendingData[..])
      ensures ok ==> chunkNum == pos / CHUNK && pendingLen == |chunks[pos / CHUNK]|
      ensures ok ==> Pending() == chunks[pos / CHUNK]
    {
      var n := pos / CHUNK;
      if n !in chunks {
        return false;
      }
      pendingLen := |chunks[n]|;
      chunkNum := n;
      CopyInto(pendingData, 0, chunks[n]);
      return true;
    }

    /** Copies `d` into the pending buffer at `at`, growing the pending length to cover it. */
    method Merge(at: nat, d: bytes)
      requires at <= pendingLen <= pendingData.Length && at + |d| <= pendingData.Length
      modifies this`pendingLen, pendingData
      ensures pendingLen == Max(old(pendingLen), at + |d|)
      ensures Pending() == Overwrite(old(Pending()), at, d)
    {
      ghost var buf := pendingData[..];
      CopyInto(pendingData, at, d);
      CopiedPrefix(buf, pendingLen, at, d);
      if at + |d| > pendingLen {
        pendingLen := at + |d|;
      }
    }

    /** The chunk under the position is brought into memory unless one is already there. */
    method Preload() returns (ok: bool)
      requires InFile() && Settled() && pos / CHUNK * CHUNK < |file|
      requires pendingLen > 0 ==> chunkNum == pos / CHUNK
      modifies this, pendingData
      ensures ok && InFile() && file == old(file) && pos == old(pos)
      ensures chunks == old(chunks) && length == old(length)
      ensures pendingLen > 0 && chunkNum == pos / CHUNK
      ensures RepresentsExcept(chunks, file, chunkNum) && Pending() == Slot(file, chunkNum)
    {
      StoreBelowOverlay();
      ok := true;
      if pendingLen == 0 {
        ok := LoadPending();
        assert chunks[chunkNum := Pending()] == chunks;
      }
    }

    /** Writes `d` at the position, inside the pending chunk. */
    method MergeAtPosition(d: bytes)
      requires InFile() && pendingLen > 0
      requires chunkNum * CHUNK <= pos && pos + |d| <= (chunkNum + 1) * CHUNK
      modifies this, pendingData
      ensures InFile() && file == Overwrite(old(file), old(pos), d) && pos == old(pos) + |d|
      ensures chunkNum == old(chunkNum) && pendingLen == Max(old(pendingLen), pos - chunkNum * CHUNK)
      ensures chunks == old(chunks) && length == old(length)
    {
      hide Represents, RepresentsExcept, Overwrite, Slot;
      StoreBelowOverlay();
      PutSlot(chunks, file, pos, d, chunkNum, Overwrite(Pending(), pos - chunkNum * CHUNK, d));
      Merge(pos - chunkNum * CHUNK, d);
      file := Overwrite(file, pos, d);
      pos := pos + |d|;
    }

    /** The first part of gridfile_write_buffer: away from a chunk boundary, merge into the
        pending chunk, loading it first if need be, and flush it when full. */
    method MergeHead(data: bytes) returns (now: nat)
      requires InFile() && Here() && pos % CHUNK != 0
      modifies this, pendingData
      ensures now == Min(|data|, CHUNK - old(pos) % CHUNK)
      ensures file == Overwrite(old(file), old(pos), data[..now]) && pos == old(pos) + now
      ensures InFile() && Here()
      ensures now < |data| ==> pos == chunkNum * CHUNK
      ensures pendingLen > 0 <==> pos > chunkNum * CHUNK
      ensures SameOutside(chunks, old(chunks), old(chunkNum), chunkNum) && chunkNum >= old(chunkNum)
    {
      var bufPos := pos % CHUNK;
      var ok := Preload();
      now := Min(|data|, CHUNK - bufPos);
      MergeAtPosition(data[..now]);
      if now + bufPos >= CHUNK {
        FlushPending();
      }
    }

    /** One whole chunk goes straight to the store. */
    method WriteChunk(chunk: bytes)
      requires |chunk| == CHUNK
      requires pos == chunkNum * CHUNK <= |file|
      requires RepresentsExcept(chunks, file, chunkNum)
      requires length <= |file| <= Max(length, pos + CHUNK)
      modifies this
      ensures file == Overwrite(old(file), old(pos), chunk) && pos == old(pos) + CHUNK
      ensures chunkNum == old(chunkNum) + 1 && pendingLen == old(pendingLen)
      ensures Represents(chunks, file) && length == |file|
      ensures chunks == old(chunks)[old(chunkNum) := chunk]
    {
      PutSlot(chunks, file, pos, chunk, chunkNum, chunk);
      file := Overwrite(file, pos, chunk);
      chunks := chunks[chunkNum := chunk];
      chunkNum := chunkNum + 1;
      pos := pos + CHUNK;
      if pos > length {
        length := pos;
      }
    }

    /** The loop of gridfile_write_buffer that sends whole chunks straight to the store. */
    method WriteWholeChunks(data: bytes) returns (done: nat)
      requires InFile()
      requires pos == chunkNum * CHUNK || |data| < CHUNK
      modifies this
      ensures done <= |data| < done + CHUNK
      ensures chunkNum >= old(chunkNum) && done == (chunkNum - old(chunkNum)) * CHUNK
      ensures file == Overwrite(old(file), old(pos), data[..done]) && pos == old(pos) + done
      ensures pendingLen == old(pendingLen) && Pending() == old(Pending())
      ensures done == 0 || pendingLen == 0 ==> InFile()
      ensures done == 0 ==> chunks == old(chunks) && length == old(length) && file == old(file)
      ensures done > 0 ==> Represents(chunks, file) && length == |file|
      ensures SameOutside(chunks, old(chunks), old(chunkNum), chunkNum)
    {
      hide Represents, RepresentsExcept, Overwrite, Slot;
      ghost var f, p0, c0 := file, pos, chunkNum;
      StoreBelowOverlay();
      done := 0;
      while |data| - done >= CHUNK
        invariant chunkNum >= c0 && done == (chunkNum - c0) * CHUNK <= |data|
        invariant file == Overwrite(f, p0, data[..done]) && pos == p0 + done
        invariant pendingLen == old(pendingLen)
        invariant done == 0 ==> chunks == old(chunks) && length == old(length) && file == f
        invariant done > 0 ==> Represents(chunks, file) && length == |file|
        invariant SameOutside(chunks, old(chunks), c0, chunkNum)
      {
        var chunk := data[done..done + CHUNK];
        if done > 0 || pendingLen == 0 {
          ExceptAnySlot(chunks, file, chunkNum);
        }
        OverwriteTwice(f, p0, data[..done], chunk);
        assert data[..done] + chunk == data[..done + CHUNK];
        WriteChunk(chunk);
        done := done + CHUNK;
      }
    }

    /** With nothing in memory and nothing stored behind the write, the pending chunk starts anew. */
    method MergeAnew(data: bytes)
      requires InFile() && pendingLen == 0 && pos == chunkNum * CHUNK
      requires 0 < |data| < CHUNK && pos + |data| >= length
      modifies this, pendingData
      ensures InFile() && chunkNum == old(chunkNum) && pendingLen == |data|
      ensures file == Overwrite(old(file), old(pos), data) && pos == old(pos) + |data|
      ensures chunks == old(chunks)
    {
      hide Represents, RepresentsExcept;
      StoreBelowOverlay();
      PutSlot(chunks, file, pos, data, chunkNum, data);
      Merge(0, data);
      file := Overwrite(file, pos, data);
      pos := pos + |data|;
    }

    /** The last part of gridfile_write_buffer, for less than a chunk. */
    method MergeTail(data: bytes)
      requires InFile() && pos == chunkNum * CHUNK && 0 < |data| < CHUNK
      modifies this, pendingData
      ensures InFile() && Here() && chunkNum == old(chunkNum)
      ensures file == Overwrite(old(file), old(pos), data) && pos == old(pos) + |data|
      ensures pendingLen > 0 && chunks == old(chunks)
    {
      hide Represents, RepresentsExcept, Overwrite, Slot;
      if pendingLen == 0 && pos + |data| < length {
        var ok := Preload();
        if !ok {
          return;
        }
      }
      if pendingLen == 0 {
        MergeAnew(data);
      } else {
        MergeAtPosition(data);
      }
    }

    /** The last part when whole chunks have just been written over a chunk that is still
        pending: the rest is merged into bytes that belong to another chunk. */
    method MergeStale(data: bytes)
      requires Represents(chunks, file) && length == |file|
      requires pendingData.Length == CHUNK && 0 < pendingLen <= CHUNK
      requires pos == chunkNum * CHUNK <= |file| && |data| < CHUNK
      modifies this, pendingData
      ensures file == Overwrite(old(file), old(pos), data) && pos == old(pos) + |data|
      ensures Here() && 0 < pendingLen <= CHUNK && chunks == old(chunks) && chunkNum == old(chunkNum)
      ensures InFile() <==>
              Clip(old(file), pos, old(pos) + CHUNK) == old(Pending())[Min(|data|, old(pendingLen))..]
    {
      hide Represents, RepresentsExcept, Overwrite, Slot, Clip;
      StaleSlot(chunks, file, chunkNum, Pending(), data);
      if data != [] {
        Merge(0, data);
      }
      assert Pending() == Overwrite(old(Pending()), 0, data);
      file := Overwrite(file, pos, data);
      pos := pos + |data|;
      assert Overlay() == chunks[chunkNum := Pending()];
      if Represents(Overlay(), file) {
        RemoveSlot(chunks, file, chunkNum, Pending());
      }
    }

    /** gridfile_write_buffer from a chunk boundary on. */
    method WriteFromBoundary(data: bytes)
      requires InFile() && Here() && (pos == chunkNum * CHUNK || data == [])
      modifies this, pendingData
      ensures file == Overwrite(old(file), old(pos), data) && pos == old(pos) + |data|
      ensures Here() && pendingLen <= CHUNK && chunkNum >= old(chunkNum)
      ensures InFile() <==> WriteIsExact(old(file), old(pos), old(pendingLen), |data|)
      ensures !OverrunsPending(old(pos), old(pendingLen), |data|) ==>
                (pendingLen > 0 <==> if data == [] then old(pendingLen) > 0 else pos > chunkNum * CHUNK)
      ensures SameOutside(chunks, old(chunks), old(chunkNum), chunkNum)
    {
      hide Represents, Overwrite, Slot, Clip, OverrunsPending, WriteIsExact, SameOutside;
      StoreBelowOverlay();
      ghost var f, p0 := file, pos;
      var done := WriteWholeChunks(data);
      OverrunsAfter(f, p0, pendingLen, data, done);
      OverwriteSplit(old(file), old(pos), data, done);
      if done > 0 && pendingLen > 0 {
        ExactnessAtTail(f, p0, data, done, pendingLen);
        MergeStale(data[done..]);
      } else if done < |data| {
        MergeTail(data[done..]);
      } else {
        assert data[..done] == data;
      }
    }

    /** gridfile_write_buffer, from a position that is not behind the pending chunk. */
    method WriteHere(data: bytes)
      requires InFile() && Here()
      modifies this, pendingData
      ensures file == Overwrite(old(file), old(pos), data) && pos == old(pos) + |data|
      ensures Here() && pendingLen <= CHUNK && chunkNum >= old(chunkNum)
      ensures InFile() <==> WriteIsExact(old(file), old(pos), old(pendingLen), |data|)
      ensures !OverrunsPending(old(pos), old(pendingLen), |data|) ==>
                (pendingLen > 0 <==> pos > chunkNum * CHUNK || (data == [] && old(pendingLen) > 0))
      ensures SameOutside(chunks, old(chunks), old(chunkNum), chunkNum)
    {
      hide Represents, Overwrite, Slot, Clip, SameOutside;
      if pos % CHUNK > 0 {
        var now := MergeHead(data);
        OverwriteSplit(old(file), old(pos), data, now);
        ghost var c1, store := chunkNum, chunks;
        WriteFromBoundary(data[now..]);
        SameOutsideChains(old(chunks), store, chunks, old(chunkNum), c1, chunkNum);
      } else {
        WriteFromBoundary(data);
      }
    }

    /** With the pending chunk taken for chunk `n`, the structure stands for another file. */
    lemma MislaidIsStored(n: nat)
      requires Valid() && !Settled() && n * CHUNK <= pos < (n + 1) * CHUNK
      ensures pendingLen == CHUNK && chunkNum < n && chunkNum in chunks && |chunks[chunkNum]| == CHUNK
      ensures RepresentsExcept(chunks, file, chunkNum) && (chunkNum + 1) * CHUNK <= |file|
      ensures var m := MislaidFile(file, chunkNum, chunks[chunkNum], n);
        Represents(chunks[n := Pending()], m) && Max((n + 1) * CHUNK, length) == |m|
    {
      StoreBelowOverlay();
      var c, q := chunkNum, chunks[chunkNum];
      var f := Overwrite(file, c * CHUNK, q);
      PutSlot(chunks, file, c * CHUNK, q, c, q);
      assert chunks[c := q] == chunks;
      ExceptAnySlot(chunks, f, n);
      PutSlot(chunks, f, n * CHUNK, Pending(), n, Pending());
    }

    /** What is left in the structure after a write at a mislaid chunk is the intended file
        exactly when the condition says so. */
    lemma StrayOutcome(f: bytes, store: Chunks, c: nat, p: nat, n: nat, d: bytes, exact: bool)
      requires c < n && n * CHUNK <= p < (n + 1) * CHUNK && p <= |f| && RepresentsExcept(store, f, c)
      requires c in store && |store[c]| == CHUNK
      requires pendingData.Length == CHUNK && pendingLen <= CHUNK
      requires pos == p + |d| && file == Overwrite(f, p, d)
      requires var m := MislaidFile(f, c, store[c], n);
        && (exact <==> Represents(Overlay(), Overwrite(m, p, d)) && ContentLength() == |Overwrite(m, p, d)|)
        && (exact <==> WriteIsExact(m, p, CHUNK, |d|))
      requires SameOutside(chunks, store, n, chunkNum) && chunkNum >= n
      ensures InFile() <==> StrayWriteIsExact(f, c, store[c], p, |d|)
    {
      hide Overwrite, MislaidFile, WriteIsExact, StrayWriteIsExact, RepresentsExcept, Slot;
      StrayWrite(f, c, store[c], p, n, d);
      if exact && InFile() {
        RepresentationIsUnique(Overlay(), file, Overwrite(MislaidFile(f, c, store[c], n), p, d));
      } else if InFile() {
        assert c in store <==> c in chunks;
        assert c in Overlay() && Overlay()[c] == store[c];
        SlotBefore(f, p, d, c);
      }
    }

    /** A full chunk that is left pending is full in the store. */
    lemma PlacedAfter(f: bytes, store: Chunks, c: nat, held: bool, p: nat, n: nat, d: bytes)
      requires n * CHUNK <= p < (n + 1) * CHUNK && p <= |f| && pos == p + |d| && file == Overwrite(f, p, d)
      requires InFile() && Here() && SameOutside(chunks, store, n, chunkNum)
      requires if held then RepresentsExcept(store, f, c) else Represents(store, f)
      requires held && (c + 1) * CHUNK <= |f| ==> c in store && |store[c]| == CHUNK
      ensures Placed()
    {
      hide Represents, RepresentsExcept, SameOutside, Overwrite;
      if pendingLen == CHUNK {
        FullChunkStays(chunks, store, f, c, held, n, chunkNum);
      }
    }

    /** gridfile_write_buffer, once the number of the chunk under the position is known. */
    method WriteAt(data: bytes, n: nat)
      requires Valid() && n * CHUNK <= pos < (n + 1) * CHUNK
      modifies this, pendingData
      ensures file == Overwrite(old(file), old(pos), data) && pos == old(pos) + |data|
      ensures Here() && pendingLen <= CHUNK
      ensures Implements() ==> Valid()
      ensures old(Settled()) ==> (Implements() <==> WriteIsExact(old(file), old(pos), old(pendingLen), |data|))
      ensures !old(Settled()) ==>
                (Implements() <==> StrayWriteIsExact(old(file), old(chunkNum), old(chunks)[old(chunkNum)], old(pos), |data|))
      ensures old(Settled()) && !OverrunsPending(old(pos), old(pendingLen), |data|) ==>
                (pendingLen > 0 <==> pos > chunkNum * CHUNK || (data == [] && old(pendingLen) > 0))
      ensures SameOutside(chunks, old(chunks), n, chunkNum)
    {
      hide Represents, RepresentsExcept, Overwrite, Slot, MislaidFile, OverrunsPending, WriteIsExact, StrayWriteIsExact,
        SameOutside;
      StoreBelowOverlay();
      ghost var f, store, c, held, stray := file, chunks, chunkNum, pendingLen > 0, !Settled();
      if stray {
        MislaidIsStored(n);
        file := MislaidFile(f, c, chunks[c], n);
      }
      chunkNum := n;
      WriteHere(data);
      ghost var exact := InFile();
      if stray {
        file := Overwrite(f, old(pos), data);
        StrayOutcome(f, store, c, old(pos), n, data, exact);
      }
      if InFile() {
        PlacedAfter(f, store, c, held, old(pos), n, data);
      }
    }

    /** gridfile_write_buffer. The intended file always changes as a write should change it;
        `Implements()` afterwards says whether the code kept up with it. */
    method WriteBuffer(data: bytes) returns (written: nat)
      requires Valid()
      modifies this, pendingData
      ensures file == Overwrite(old(file), old(pos), data)
      ensures written == |data| && pos == old(pos) + |data|
      ensures Here() && pendingLen <= CHUNK == pendingData.Length
      ensures Implements() ==> Valid()
      ensures old(Settled()) ==> (Implements() <==> WriteIsExact(old(file), old(pos), old(pendingLen), |data|))
      ensures !old(Settled()) ==>
                (Implements() <==> StrayWriteIsExact(old(file), old(chunkNum), old(chunks)[old(chunkNum)], old(pos), |data|))
      ensures old(Settled()) && !OverrunsPending(old(pos), old(pendingLen), |data|) ==>
                (pendingLen > 0 <==> pos % CHUNK != 0 || (data == [] && old(pendingLen) > 0))
      ensures SameOutside(chunks, old(chunks), old(pos) / CHUNK, pos / CHUNK)
    {
      hide Represents, Overwrite, Slot, WriteIsExact, OverrunsPending, StrayWriteIsExact, SameOutside;
      WriteAt(data, pos / CHUNK);
      written := |data|;
    }

    /** gridfile_seek: always faithful, and brings the position back inside the pending chunk. */
    method Seek(offset: nat) returns (newPos: nat)
      requires Implements() && Placed()
      modifies this
      ensures Valid() && Settled() && file == old(file)
      ensures newPos == pos == Min(|file|, offset)
      ensures pendingLen == (if old(chunkNum) * CHUNK <= pos < (old(chunkNum) + 1) * CHUNK then old(pendingLen) else 0)
      ensures pendingLen > 0 ==> chunkNum == old(chunkNum)
      ensures pendingLen == old(pendingLen) ==> chunks == old(chunks)
    {
      newPos := Min(ContentLength(), offset);
      if pendingLen > 0 && (newPos >= (chunkNum + 1) * CHUNK || newPos < chunkNum * CHUNK) {
        FlushPending();
      }
      pos := newPos;
    }

    /** gridfile_writer_done: returns the length recorded in the files collection */
    method WriterDone() returns (recorded: nat)
      requires Implements()
      modifies this
      ensures Represents(chunks, file) && file == old(file)
      ensures recorded == |file| && length == recorded && pendingLen == 0
    {
      if pendingLen > 0 {
        FlushPending();
      }
      recorded := length;
    }

    /** gridfile_remove_chunks */
    method RemoveChunks(from: nat)
      modifies this`chunks
      ensures chunks == KeepBelow(old(chunks), from)
    {
      chunks := map n | n in chunks && n < from :: chunks[n];
    }

    /** The part of gridfile_truncate that shortens the chunk under the position. */
    method CutChunk()
      requires Valid() && Settled() && pos % CHUNK > 0
      modifies this, pendingData
      ensures pendingLen == 0 && pos == old(pos) && file == old(file)
      ensures RepresentsExcept(chunks, file, pos / CHUNK)
      ensures pos / CHUNK in chunks && chunks[pos / CHUNK] == file[pos / CHUNK * CHUNK..pos]
    {
      var ok := Preload();
      StoreBelowOverlay();
      assert Pending()[..pos % CHUNK] == file[chunkNum * CHUNK..pos];
      pendingLen := pos % CHUNK;
      FlushPending();
    }

    /** The part of gridfile_truncate that cuts the file at the position, in chunk `first`. */
    method CutHere(first: nat)
      requires Valid() && Settled() && first * CHUNK <= pos < (first + 1) * CHUNK
      modifies this, pendingData
      ensures length == pos == old(pos) && file == old(file[..pos])
      ensures if old(pendingLen) > 0 && pos == first * CHUNK
        then pendingLen > 0 && ContentLength() > |file|
        else InFile() && pendingLen == 0
    {
      hide Represents, RepresentsExcept, Slot, KeepBelow;
      var deleteFrom := first;
      if pos % CHUNK > 0 {
        CutChunk();
        CutInsideSlot(chunks, file, deleteFrom, pos);
        deleteFrom := deleteFrom + 1;
      } else if pendingLen == 0 {
        StoreBelowOverlay();
        CutAtBoundary(chunks, file, deleteFrom);
      }
      RemoveChunks(deleteFrom);
      length := pos;
      file := file[..pos];
    }

    /** gridfile_truncate. Bytes still pending survive the removal of all chunks, and survive
        a cut at the very start of their chunk; every other truncation is faithful. */
    method Truncate(newSize: nat) returns (size: nat)
      requires Implements() && Placed()
      modifies this, pendingData
      ensures newSize > |old(file)| ==>
                Valid() && Settled() && file == old(file) && pos == size == |file|
      ensures newSize <= |old(file)| ==>
                && file == old(file)[..newSize] && pos == size == newSize
                && (Valid() <==> !(old(pendingLen) > 0 && (newSize == 0 || newSize == old(chunkNum) * CHUNK)))
                && (Valid() ==> pendingLen == 0)
    {
      hide Represents, RepresentsExcept, Slot, KeepBelow;
      if newSize > ContentLength() {
        size := Seek(ContentLength());
        return;
      }
      if newSize > 0 {
        var at := Seek(newSize);
        CutHere(newSize / CHUNK);
      } else {
        if pendingLen == 0 {
          StoreBelowOverlay();
          CutAtBoundary(chunks, file, 0);
        }
        RemoveChunks(0);
        length := 0;
        pos := 0;
        file := [];
      }
      size := length;
    }

    lemma NothingStaleAtEnd()
      requires Valid() && Settled() && pos == |file|
      ensures pendingLen > 0 ==> pos % CHUNK != 0
    {
      StoreBelowOverlay();
    }

    /** gridfile_expand: appends `extra` zero bytes and leaves the position at the end. */
    method Expand(extra: nat) returns (size: nat)
      requires Implements() && Placed()
      modifies this, pendingData
      ensures Valid() && Settled()
      ensures file == old(file) + Fill(extra, 0) && pos == size == |file|
    {
      hide Represents, RepresentsExcept, Slot;
      var curPos: nat := ContentLength();
      var newSize := curPos + extra;
      var at := Seek(curPos);
      ghost var f := file;
      assert f + Fill(0, 0) == f;
      while curPos < newSize
        invariant Valid() && Settled()
        invariant |f| <= curPos <= newSize && pos == curPos
        invariant file == f + Fill(curPos - |f|, 0)
      {
        var toWrite := CHUNK - curPos % CHUNK;
        if toWrite + curPos > newSize {
          toWrite := newSize - curPos;
        }
        NothingStaleAtEnd();
        ExtendZeros(f, curPos - |f|, toWrite);
        var written := WriteBuffer(Fill(toWrite, 0));
        if written != toWrite {
          return curPos;
        }
        curPos := curPos + toWrite;
      }
      size := newSize;
    }

    /** gridfile_set_size */
    method SetSize(newSize: nat) returns (size: nat)
      requires Implements() && Placed()
      modifies this, pendingData
      ensures size == newSize == pos == |file|
      ensures newSize > |old(file)| ==> file == old(file) + Fill(newSize - |old(file)|, 0) && Valid()
      ensures newSize <= |old(file)| ==>
                && file == old(file)[..newSize]
                && (Valid() <==> !(old(pendingLen) > 0 && (newSize == 0 || newSize == old(chunkNum) * CHUNK)))
    {
      if newSize <= ContentLength() {
        size := Truncate(newSize);
      } else {
        size := Expand(newSize - ContentLength());
      }
    }

    /** gridfile_read_from_pending_buffer */
    method ReadFromPending(size: nat, first: nat) returns (buf: bytes, next: nat)
      requires Valid() && first * CHUNK <= pos < (first + 1) * CHUNK && pos + size <= |file|
      ensures pendingLen == 0 || first != chunkNum ==> buf == [] && next == first
      ensures pendingLen > 0 && first == chunkNum ==>
                next == first + 1 && buf == file[pos..Min(pos + size, (first + 1) * CHUNK)]
    {
      buf, next := [], first;
      if pendingLen > 0 && first == chunkNum {
        StoreBelowOverlay();
        var offset := pos - chunkNum * CHUNK;
        var taken := Min(size, pendingLen - offset);
        buf := pendingData[offset..offset + taken];
        SliceOfSlice(file, chunkNum * CHUNK, chunkNum * CHUNK + pendingLen, offset, offset + taken);
        assert buf == Pending()[offset..offset + taken];
        assert pos + taken == Min(pos + size, (first + 1) * CHUNK);
        next := first + 1;
      }
    }

    /** gridfile_fill_buf_from_chunk */
    static method FillFromChunk(chunk: bytes, skip: nat, bytesLeft: nat) returns (part: bytes, left: nat)
      ensures part == Clip(chunk, skip, skip + bytesLeft)
      ensures left == if skip + bytesLeft > |chunk| then bytesLeft - |part| else bytesLeft
    {
      var data := chunk[Min(skip, |chunk|)..];
      left := bytesLeft;
      if bytesLeft > |data| {
        part := data;
        left := bytesLeft - |data|;
      } else {
        part := data[..bytesLeft];
      }
    }

    /** gridfile_load_from_chunks: the cursor yields the stored chunks from `first` on, and
        `skip` bytes of the first one are passed over. */
    method LoadFromChunks(first: nat, total: int, skip: nat, size: nat) returns (buf: bytes)
      requires skip < CHUNK
      requires size > 0 ==> RepresentsFrom(chunks, file, first)
      requires size > 0 ==> first * CHUNK + skip + size <= |file|
      requires size > 0 ==> (first + total - 1) * CHUNK < first * CHUNK + skip + size <= (first + total) * CHUNK
      ensures buf == if size == 0 then [] else file[first * CHUNK + skip..first * CHUNK + skip + size]
    {
      buf := [];
      var bytesLeft := size;
      ghost var p, q := first * CHUNK + skip, first * CHUNK + skip + size;
      ghost var at := p;
      var i := 0;
      while i < total && first + i in chunks
        invariant 0 <= i
        invariant size == 0 ==> buf == [] && bytesLeft == 0
        invariant size > 0 ==> p <= at <= q && buf == file[p..at]
        invariant size > 0 && at == q ==> q <= (first + i) * CHUNK
        invariant size > 0 && at < q ==> bytesLeft == q - at && at - (first + i) * CHUNK == if i == 0 then skip else 0
        decreases total - i
      {
        hide RepresentsFrom, Slot, Clip;
        var part;
        part, bytesLeft := FillFromChunk(chunks[first + i], if i == 0 then skip else 0, bytesLeft);
        buf := buf + part;
        if size > 0 {
          FromLater(chunks, file, first, first + i);
          ReadOnInSlot(chunks, file, p, at, q, first + i);
          at := Min(q, (first + i + 1) * CHUNK);
        }
        i := i + 1;
      }
    }

    /** The number of the chunk that holds the last byte of a read. For the empty read at the
        start of a file the unsigned subtraction wraps, and the cast to int makes it -1. */
    static function LastChunk(end: nat): int {
      if end == 0 then -1 else (end - 1) / CHUNK
    }

    static lemma LastChunkSpan(end: nat)
      requires end > 0
      ensures LastChunk(end) >= 0
      ensures LastChunk(end) * CHUNK < end <= (LastChunk(end) + 1) * CHUNK
    {
    }

    static lemma EndsInFirst(end: nat, first: nat)
      requires end >= first * CHUNK
      ensures LastChunk(end) <= first <==> end <= (first + 1) * CHUNK
    {
    }

    /** What a read needs of the store, when the pending chunk lies before it. */
    lemma StoreFromHere(first: nat)
      requires Implements() && (pendingLen > 0 ==> chunkNum < first)
      ensures RepresentsFrom(chunks, file, first)
    {
      hide Slot;
      StoreBelowOverlay();
    }

    /** The second half of gridfile_read_buffer: what is not in the pending chunk. `head` has
        been read from `start` on; the position advances by what has been read in all. */
    method ReadOn(ghost start: nat, head: bytes, first: nat, total: int, size: nat) returns (buf: bytes)
      requires InFile() && start + |head| == pos && head == file[start..pos]
      requires pos + size <= |file|
      requires size > 0 ==> (pendingLen > 0 ==> chunkNum < first) && first * CHUNK <= pos < (first + 1) * CHUNK
      requires size > 0 ==> total == LastChunk(pos + size) - first + 1
      modifies this`pos
      ensures buf == old(file[start..pos + size]) && pos == old(pos) + |buf|
      ensures Implements()
    {
      hide RepresentsFrom, Represents, LastChunk, Slot;
      if size > 0 {
        StoreFromHere(first);
        LastChunkSpan(pos + size);
        assert pos % CHUNK == pos - first * CHUNK;
      }
      var rest := LoadFromChunks(first, total, pos % CHUNK, size);
      buf := head + rest;
      JoinSlices(file, start, pos, pos + size);
      pos := pos + |buf|;
    }

    /** The pending chunk has been used up: it goes to the store before reading goes on there. */
    method ReadBehindPending(ghost start: nat, head: bytes, first: nat, total: int, size: nat) returns (buf: bytes)
      requires InFile() && start + |head| == pos && head == file[start..pos]
      requires size > 0 && pos + size <= |file| && first * CHUNK == pos
      requires total == LastChunk(pos + size) - first + 1
      modifies this
      ensures buf == old(file[start..pos + size]) && pos == old(pos) + |buf|
      ensures Implements() && file == old(file) && pendingLen == 0
    {
      hide Represents, RepresentsExcept, Slot, LastChunk;
      FlushPending();
      buf := ReadOn(start, head, first, total, size);
    }

    /** A pending chunk through to whose end the file has been read is full. */
    lemma StillPlaced(p: nat, first: nat)
      requires Implements() && first * CHUNK <= p < (first + 1) * CHUNK && p <= pos <= |file|
      requires pendingLen > 0 ==> chunkNum <= first
      requires pendingLen > 0 && chunkNum == first ==> pos <= (first + 1) * CHUNK
      requires pendingLen > 0 && chunkNum != first ==> pendingLen == CHUNK
      requires pendingLen == CHUNK ==> chunkNum in chunks && |chunks[chunkNum]| == CHUNK
      ensures Placed()
    {
      hide Represents, RepresentsExcept;
      StoreBelowOverlay();
    }

    /** gridfile_read_buffer, once the number of the chunk under the position is known. */
    method ReadAt(size: nat, first: nat) returns (buf: bytes)
      requires Valid() && first * CHUNK <= pos < (first + 1) * CHUNK
      modifies this
      ensures Implements() && Placed() && file == old(file)
      ensures buf == file[old(pos)..Min(old(pos) + size, |file|)]
      ensures if old(pendingLen) == 0 || old(chunkNum) != first || old(pos) + |buf| <= (first + 1) * CHUNK
        then pos == old(pos) + |buf| && unchanged(`pendingLen) && unchanged(`chunkNum) && unchanged(`chunks)
        else pos == (first + 1) * CHUNK + |buf| && pendingLen == 0
    {
      hide Represents, RepresentsExcept, Slot, LastChunk;
      var wanted := Min(ContentLength() - pos, size);
      EndsInFirst(pos + wanted, first);
      var total := LastChunk(pos + wanted) - first + 1;
      var head, next := ReadFromPending(wanted, first);
      if |head| > 0 {
        pos := pos + |head|;
        total := total - 1;
        if total <= 0 {
          StillPlaced(old(pos), first);
          return head;
        }
        buf := ReadBehindPending(old(pos), head, next, total, wanted - |head|);
      } else {
        buf := ReadOn(pos, head, next, total, wanted);
        StillPlaced(old(pos), first);
      }
    }

    /** gridfile_read_buffer: the bytes are always those of the file. The position advances
        by their number, except when the read goes on behind the pending chunk: the part taken
        from that chunk is then counted twice. */
    method ReadBuffer(size: nat) returns (buf: bytes)
      requires Valid()
      modifies this
      ensures Implements() && Placed() && file == old(file)
      ensures buf == file[old(pos)..Min(old(pos) + size, |file|)]
      ensures var boundary := (old(pos) / CHUNK + 1) * CHUNK;
        if old(pendingLen) == 0 || !old(Settled()) || old(pos) + |buf| <= boundary
        then pos == old(pos) + |buf| && unchanged(`pendingLen) && unchanged(`chunkNum) && unchanged(`chunks)
        else pos == boundary + |buf| && pendingLen == 0
    {
      buf := ReadAt(size, pos / CHUNK);
    }

    /** What this structure looks like to its client. */
    ghost function Now(got: seq<bytes>): Session
      reads this
    {
      Session(file, pos, if pendingLen > 0 then Chunk(chunkNum) else Nothing, got)
    }

    predicate StraysNow(call: Call, ghost got: seq<bytes>)
      requires Implements() && Placed()
      reads this, pendingData
      ensures StraysNow(call, got) <==> Strays(Now(got), call)
    {
      match call
      case Write(d) =>
        || pos > ContentLength()
        || (pendingLen > 0 && (chunkNum != pos / CHUNK || OverrunsPending(pos, pendingLen, |d|)))
      case SeekTo(_) => false
      case ReadOf(_) => pos > ContentLength()
    }

    method MakeRead(n: nat, got: seq<bytes>) returns (all: seq<bytes>)
      requires Valid()
      modifies this
      ensures Implements() && Placed() && Now(all) == After(old(Now(got)), ReadOf(n))
    {
      hide Represents, Overwrite;
      var buf := ReadBuffer(n);
      all := got + [buf];
    }

    method MakeWrite(d: bytes, ghost got: seq<bytes>)
      requires Valid() && !Strays(Now(got), Write(d))
      modifies this, pendingData
      ensures Valid() && Now(got) == After(old(Now(got)), Write(d))
    {
      hide Represents, Overwrite, Placed;
      var n := WriteBuffer(d);
    }

    /** One call of a client, which does on the structure what it does on the flat file. */
    method Make(call: Call, got: seq<bytes>) returns (all: seq<bytes>)
      requires Implements() && Placed() && !Strays(Now(got), call)
      modifies this, pendingData
      ensures Implements() && Placed() && Now(all) == After(old(Now(got)), call)
    {
      hide Represents, Overwrite, Placed;
      all := got;
      match call {
        case Write(d) => MakeWrite(d, got);
        case SeekTo(n) => var p := Seek(n);
        case ReadOf(n) => all := MakeRead(n, got);
      }
    }
  }

  /** A client's calls on one open file. */
  datatype Call = Write(data: bytes) | SeekTo(offset: nat) | ReadOf(size: nat)

  datatype Held = Nothing | Chunk(n: nat)

  /** What a client can know: the file, its position, which chunk is held back in memory,
      and what its reads have returned. */
  datatype Session = Session(file: bytes, pos: nat, held: Held, got: seq<bytes>)

  /** The calls that are not made: a write of a whole chunk from a chunk boundary while a
      chunk is held back, a write while the chunk held back is not the one under the position,
      and a read or a write from behind the end of the file, where a read can leave the
      position by counting twice. */
  predicate Strays(s: Session, call: Call) {
    match call
    case Write(d) =>
      || s.pos > |s.file|
      || (s.held.Chunk? && (s.held.n != s.pos / CHUNK || (s.pos % CHUNK == 0 && |d| >= CHUNK)))
    case SeekTo(_) => false
    case ReadOf(_) => s.pos > |s.file|
  }

  /** One call on the flat file. After a write a chunk is held back when the position is off
      a boundary, after a seek when the position stays in it, and until a read runs past it. */
  function After(s: Session, call: Call): Session
    requires !Strays(s, call)
  {
    match call
    case Write(d) =>
      var p := s.pos + |d|;
      Session(Overwrite(s.file, s.pos, d), p,
              if p % CHUNK != 0 then Chunk(p / CHUNK) else if d == [] then s.held else Nothing, s.got)
    case SeekTo(n) =>
      var p := Min(|s.file|, n);
      s.(pos := p, held := if s.held == Chunk(p / CHUNK) then s.held else Nothing)
    case ReadOf(n) =>
      var buf := s.file[s.pos..Min(s.pos + n, |s.file|)];
      var boundary := (s.pos / CHUNK + 1) * CHUNK;
      if s.held == Chunk(s.pos / CHUNK) && s.pos + |buf| > boundary
      then s.(pos := boundary + |buf|, held := Nothing, got := s.got + [buf])
      else s.(pos := s.pos + |buf|, got := s.got + [buf])
  }

  /** A run of calls from a freshly opened file; calls that stray are passed over. */
  function Run(f: bytes, calls: seq<Call>): Session {
    if calls == [] then Session(f, 0, Nothing, [])
    else
      var s := Run(f, calls[..|calls| - 1]);
      if Strays(s, calls[|calls| - 1]) then s else After(s, calls[|calls| - 1])
  }

  /** Without reads, only the write of a whole chunk from a boundary can stray. */
  lemma {:induction false} StraysWithoutReads(f: bytes, calls: seq<Call>, call: Call)
    requires forall i | 0 <= i < |calls| :: !calls[i].ReadOf?
    ensures var s := Run(f, calls);
      && s.pos <= |s.file|
      && (s.held.Chunk? ==> s.held.n == s.pos / CHUNK)
      && (Strays(s, call) <==>
           call.Write? && OverrunsPending(s.pos, if s.held.Chunk? then 1 else 0, |call.data|))
  {
    if calls != [] {
      StraysWithoutReads(f, calls[..|calls| - 1], calls[|calls| - 1]);
    }
  }

  /** A run that only writes, as when a file is uploaded, never strays, and leaves the file
      as if all had been written at once. */
  lemma {:induction false} WritesNeverStray(f: bytes, calls: seq<Call>, d: bytes)
    requires forall i | 0 <= i < |calls| :: calls[i].Write?
    ensures var s := Run(f, calls);
      && !Strays(s, Write(d))
      && (s.held.Chunk? <==> s.pos % CHUNK != 0)
      && s.file == Overwrite(f, 0, Flatten(Written(calls))) && s.pos == |Flatten(Written(calls))|
  {
    StraysWithoutReads(f, calls, Write(d));
    if calls != [] {
      var k := |calls| - 1;
      WritesNeverStray(f, calls[..k], calls[k].data);
      assert Written(calls)[..k] == Written(calls[..k]);
      OverwriteTwice(f, 0, Flatten(Written(calls[..k])), calls[k].data);
    }
  }

  function Written(calls: seq<Call>): (d: seq<bytes>)
    requires forall i | 0 <= i < |calls| :: calls[i].Write?
    ensures |d| == |calls|
  {
    seq(|calls|, i requires 0 <= i < |calls| => calls[i].data)
  }

  function Flatten(pieces: seq<bytes>): bytes {
    if pieces == [] then [] else Flatten(pieces[..|pieces| - 1]) + pieces[|pieces| - 1]
  }

  /** Whatever writes, seeks and reads a client makes, up to the first call that strays the
      reads return the flat file, and once the writer is done exactly the flat file is in the
      store. The run is stopped before a call if and only if that call strays. */
  method RunWriter(stored: Chunks, f: bytes, calls: seq<Call>)
    returns (chunks: Chunks, recorded: nat, got: seq<bytes>, made: nat)
    requires Represents(stored, f)
    ensures made <= |calls|
    ensures forall i | 0 <= i < made :: !Strays(Run(f, calls[..i]), calls[i])
    ensures made < |calls| ==> Strays(Run(f, calls[..made]), calls[made])
    ensures Represents(chunks, Run(f, calls[..made]).file)
    ensures recorded == |Run(f, calls[..made]).file|
    ensures got == Run(f, calls[..made]).got
  {
    hide Represents, Overwrite, Strays, After;
    var g := new GridFile(stored, f);
    made, got := 0, [];
    while made < |calls| && !g.StraysNow(calls[made], got)
      invariant made <= |calls| && fresh(g) && fresh(g.pendingData)
      invariant g.Implements() && g.Placed()
      invariant Run(f, calls[..made]) == g.Now(got)
      invariant forall i | 0 <= i < made :: !Strays(Run(f, calls[..i]), calls[i])
    {
      assert calls[..made + 1][..made] == calls[..made];
      got := g.Make(calls[made], got);
      made := made + 1;
    }
    recorded := g.WriterDone();
    chunks := g.chunks;
  }

  /** gridfs_store_buffer over whatever the store holds under that name */
  method StoreBuffer(stored: Chunks, f: bytes, data: bytes) returns (chunks: Chunks, recorded: nat)
    requires Represents(stored, f)
    ensures Represents(chunks, Overwrite(f, 0, data)) && recorded == Max(|f|, |data|)
  {
    var g := new GridFile(stored, f);
    var written := g.WriteBuffer(data);
    recorded := g.WriterDone();
    chunks := g.chunks;
  }

  /** gridfs_store_file: however the stream is cut into reads, the store ends up with it. */
  method StoreFile(stored: Chunks, f: bytes, pieces: seq<bytes>) returns (chunks: Chunks, recorded: nat)
    requires Represents(stored, f)
    ensures Represents(chunks, Overwrite(f, 0, Flatten(pieces)))
    ensures recorded == Max(|f|, |Flatten(pieces)|)
  {
    hide Represents, Overwrite;
    var g := new GridFile(stored, f);
    for i := 0 to |pieces|
      invariant fresh(g) && fresh(g.pendingData)
      invariant g.Valid() && g.Settled() && (g.pendingLen > 0 ==> g.pos % CHUNK != 0)
      invariant g.pos == |Flatten(pieces[..i])|
      invariant g.file == Overwrite(f, 0, Flatten(pieces[..i]))
    {
      assert pieces[..i + 1][..i] == pieces[..i];
      OverwriteTwice(f, 0, Flatten(pieces[..i]), pieces[i]);
      var written := g.WriteBuffer(pieces[i]);
      if written != |pieces[i]| {
        break;
      }
    }
    assert pieces[..|pieces|] == pieces;
    recorded := g.WriterDone();
    chunks := g.chunks;
  }

  /** Three bytes, back to the start, then one whole chunk of zeros: the three bytes come
      back as a second chunk. */
  method StaleTailExample() returns (g: GridFile)
    ensures g.file == Fill(CHUNK, 0) && !g.Implements()
  {
    g := new GridFile(map[], []);
    var n := g.WriteBuffer([7, 7, 7]);
    var p := g.Seek(0);
    ghost var f := g.file;
    n := g.WriteBuffer(Fill(CHUNK, 0));
    assert Clip(f, CHUNK, 2 * CHUNK) == [];
  }

  lemma ZerosStored(zeros: bytes)
    requires zeros == Fill(CHUNK, 0)
    ensures |zeros| == CHUNK
    ensures Represents(map[0 := zeros, 1 := zeros], zeros + zeros)
  {
    assert Slot(zeros + zeros, 0) == zeros && Slot(zeros + zeros, 1) == zeros;
  }

  lemma FirstByteLost(zeros: bytes, h: bytes)
    requires zeros == Fill(CHUNK, 0) && h == Overwrite(zeros + zeros, 1, [7])
    ensures !StrayWriteIsExact(h, 0, zeros, CHUNK, 1)
    ensures Overwrite(h, CHUNK, [9]) == [0, 7] + Fill(CHUNK - 2, 0) + [9] + Fill(CHUNK - 1, 0)
  {
    assert h == [0, 7] + Fill(2 * CHUNK - 2, 0);
    assert h[..CHUNK][1] != zeros[1];
    assert h[0 * CHUNK..(0 + 1) * CHUNK] == h[..CHUNK];
  }

  lemma SameChunk(a: Chunks, b: Chunks, lo: nat, hi: nat, n: nat)
    requires SameOutside(a, b, lo, hi) && hi <= n && n in b
    ensures n in a && a[n] == b[n]
  {
    assert n in a <==> n in b;
  }

  /** Two chunks of zeros. One byte is written, which brings the first chunk into memory; a
      read goes exactly to its end, and then one more byte is written. The first chunk is
      taken for the second, and the byte written first is lost. */
  method LostWriteExample() returns (g: GridFile)
    ensures g.file == [0, 7] + Fill(CHUNK - 2, 0) + [9] + Fill(CHUNK - 1, 0) && !g.Implements()
  {
    hide Represents, Overwrite, Slot, WriteIsExact, StrayWriteIsExact, SameOutside, Fill;
    var zeros := Fill(CHUNK, 0);
    ZerosStored(zeros);
    g := new GridFile(map[0 := zeros, 1 := zeros], zeros + zeros);
    var p := g.Seek(1);
    assert g.pos == 1 && g.pendingLen == 0;
    ghost var store := g.chunks;
    ExactUnlessOverrun(g.file, 1, 0, 1);
    var n := g.WriteBuffer([7]);
    assert g.pos == 2 && g.pendingLen > 0 && g.chunkNum == 0;
    SameChunk(g.chunks, store, 1 / CHUNK, 2 / CHUNK, 0);
    FirstByteLost(zeros, g.file);
    var buf := g.ReadBuffer(CHUNK - 2);
    assert g.pos == CHUNK && !g.Settled();
    n := g.WriteBuffer([9]);
  }
}
