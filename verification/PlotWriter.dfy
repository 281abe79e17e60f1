// Writing plot files. A file in progress carries a marker in its last eight bytes that says how many
// warps it holds, and a run that is cut off anywhere is resumed from there. The marker is written
// once more after the last warp and stays in the finished plot, over the end of its last scoop.
module PlotWriter {
  import opened Words
  import opened Shabal
  import opened PlotChain
  import opened Layout
  import opened Scoops
  import opened ProofQuality
  import opened Plotter

  // The bytes AF FE AF FE.
  const RESUME_MAGIC: Word := 0xFEAF_FEAF

  // What the name of a file says.
  datatype Name = Name(payload: Payload, seed: Seed, warps: nat, compress: nat)

  // ----- what a file holds -----

  predicate Whole(name: Name, data: seq<Word>) {
    name.warps > 0 && |data| == name.warps * WARP_CELLS
  }

  predicate HasMarker(data: seq<Word>) {
    |data| >= 2 && data[|data| - 1] == RESUME_MAGIC
  }

  // The number of warps that the marker gives.
  function Marked(data: seq<Word>): nat
    requires |data| >= 2
  {
    data[|data| - 2]
  }

  // In bytes, the marker is a little-endian count and the four bytes AF FE AF FE.
  lemma MarkerBytes(data: seq<Word>)
    requires |data| >= 2
    ensures var b, n := BytesOfWords(data), 4 * |data|;
            && (HasMarker(data) <==> b[n - 4..] == [0xAF, 0xFE, 0xAF, 0xFE])
            && Marked(data) == LittleValue(b[n - 8..n - 4])
  {
    hide BytesOfWord, WordOfBytes;
    var b, count, magic := BytesOfWords(data), data[|data| - 2], data[|data| - 1];
    assert b[4 * |data| - 8..4 * |data| - 4] == BytesOfWord(count);
    assert b[4 * |data| - 4..] == BytesOfWord(magic);
    WordIsLittleEndian(BytesOfWord(count));
    WordRoundTrip(count);
    WordRoundTrip(magic);
    MagicBytes();
    BytesRoundTrip([0xAF, 0xFE, 0xAF, 0xFE]);
  }

  lemma MagicBytes()
    ensures WordOfBytes([0xAF, 0xFE, 0xAF, 0xFE]) == RESUME_MAGIC
  {
  }

  // The levels that the plotter offers, and more: those for which it counts its passes right.
  predicate Levelled(c: nat) {
    1 <= c <= 64
  }

  // The scoop that the marker lies in.
  predicate UnderMarker(warps: nat, s: nat, column: nat) {
    s == NUM_SCOOPS - 1 && column == warps * NUM_SCOOPS - 1
  }

  // The words of a scoop that the marker leaves.
  function Left(x: Scoop, underMarker: bool): seq<Word> {
    if underMarker then x[..14] else x
  }

  // Warp w of the file is genuine, but for the marker.
  ghost predicate FileWarp(name: Name, data: seq<Word>, w: nat) {
    forall s, i :: 0 <= s < NUM_SCOOPS && 0 <= i < NUM_SCOOPS ==> FileScoop(name, data, w, s, i)
  }

  ghost predicate FileScoop(name: Name, data: seq<Word>, w: nat, s: nat, i: nat) {
    var column := w * NUM_SCOOPS + i;
    && column < |data| / NONCE_WORDS && s < NUM_SCOOPS
    && var under := UnderMarker(name.warps, s, column);
       Left(CacheScoop(data, s, column), under)
         == Left(AtLevel(RawOf(name.payload, name.seed), s, column, name.compress), under)
  }

  // A file in progress: what its marker counts is genuine.
  ghost predicate SoundTmp(name: Name, data: seq<Word>) {
    Whole(name, data) && Levelled(name.compress) && HasMarker(data) ==>
      forall w :: 0 <= w < name.warps && w < Marked(data) ==> FileWarp(name, data, w)
  }

  // A finished plot: everything is, and the marker is there.
  ghost predicate SoundPlot(name: Name, data: seq<Word>) {
    && Whole(name, data) && HasMarker(data)
    && (Levelled(name.compress) ==> forall w :: 0 <= w < name.warps ==> FileWarp(name, data, w))
  }

  // The buffer holds n warps of the file from start on.
  ghost predicate HoldsWarps(buffer: seq<Word>, name: Name, start: nat, n: nat) {
    forall j :: 0 <= j < n ==> HoldsNext(buffer, name, start, j)
  }

  ghost predicate HoldsNext(buffer: seq<Word>, name: Name, start: nat, j: nat) {
    HoldsWarp(buffer, j, name.payload, name.seed, name.compress, start + j)
  }

  // ----- a write that is cut off -----

  // Warps start to start + n - 1 of a file of so many warps are taken from the buffer.
  datatype Write = Write(was: seq<Word>, buffer: seq<Word>, warps: nat, start: nat, n: nat) {
    predicate Fits() {
      && warps > 0 && |was| == warps * WARP_CELLS && start + n <= warps
      && |buffer| % WARP_CELLS == 0 && n <= |buffer| / WARP_CELLS
    }

    // Rows before scoop are written, and of this one the first k words.
    predicate Reaches(scoop: nat, k: nat, s: nat, column: nat, c: nat) {
      && start * NUM_SCOOPS <= column < (start + n) * NUM_SCOOPS
      && (s < scoop || (s == scoop && (column - start * NUM_SCOOPS) * 16 + c < k))
    }
  }

  // The stretch of the buffer that goes to this row of the file.
  function Chunk(buffer: seq<Word>, scoop: nat, n: nat): (r: seq<Word>)
    requires |buffer| % WARP_CELLS == 0 && n <= |buffer| / WARP_CELLS && scoop < NUM_SCOOPS
    ensures |r| == n * 65536
  {
    ChunkThere(|buffer|, scoop, n);
    var dataAddress := ScoopAt(scoop, |buffer| / WARP_CELLS, 0);
    buffer[dataAddress..dataAddress + n * 65536]
  }

  lemma ChunkThere(length: nat, scoop: nat, n: nat)
    requires length % WARP_CELLS == 0 && n <= length / WARP_CELLS && scoop < NUM_SCOOPS
    ensures ScoopAt(scoop, length / WARP_CELLS, 0) + n * 65536 <= length
  {
    var warps := length / WARP_CELLS;
    DivParts(length, WARP_CELLS);
    MulMono(scoop, 4096, warps);
  }

  ghost predicate WrittenUpTo(v: Write, now: seq<Word>, scoop: nat, k: nat)
    requires v.Fits()
  {
    |now| == |v.was| && forall s, column, c ::
      0 <= s < NUM_SCOOPS && 0 <= column < v.warps * NUM_SCOOPS && 0 <= c < 16 ==>
        WordUpTo(v, now, scoop, k, s, column, c)
  }

  ghost predicate WordUpTo(v: Write, now: seq<Word>, scoop: nat, k: nat, s: nat, column: nat, c: nat)
    requires v.Fits() && |now| == |v.was| && s < NUM_SCOOPS && column < v.warps * NUM_SCOOPS && c < 16
  {
    FileColumns(v.warps);
    CacheScoop(now, s, column)[c]
      == if v.Reaches(scoop, k, s, column, c) then BufferScoop(v, s, column)[c] else CacheScoop(v.was, s, column)[c]
  }

  lemma FileColumns(warps: nat)
    ensures warps * WARP_CELLS / NONCE_WORDS == warps * NUM_SCOOPS && warps * WARP_CELLS % WARP_CELLS == 0
    ensures warps * WARP_CELLS / WARP_CELLS == warps
  {
    DivModUnique(warps * WARP_CELLS, NONCE_WORDS, warps * NUM_SCOOPS, 0);
    DivModUnique(warps * WARP_CELLS, WARP_CELLS, warps, 0);
  }

  // The scoop of the buffer that belongs to a column of the file.
  function BufferScoop(v: Write, s: nat, column: nat): Scoop
    requires v.Fits() && s < NUM_SCOOPS && v.start * NUM_SCOOPS <= column < (v.start + v.n) * NUM_SCOOPS
  {
    WarpColumns(|v.buffer|);
    CacheScoop(v.buffer, s, column - v.start * NUM_SCOOPS)
  }

  lemma NothingWritten(v: Write)
    requires v.Fits()
    ensures WrittenUpTo(v, v.was, 0, 0)
  {
    hide CacheScoop;
  }

  lemma RowWritten(v: Write, now: seq<Word>, scoop: nat)
    requires v.Fits() && WrittenUpTo(v, now, scoop, v.n * 65536)
    ensures WrittenUpTo(v, now, scoop + 1, 0)
  {
    hide CacheScoop, BufferScoop;
    var next := scoop + 1;
    forall s: nat, column: nat, c: nat | s < NUM_SCOOPS && column < v.warps * NUM_SCOOPS && c < 16
      ensures WordUpTo(v, now, next, 0, s, column, c)
    {
      assert WordUpTo(v, now, scoop, v.n * 65536, s, column, c);
    }
  }

  // The file with a stretch overwritten.
  function Overwritten(d: seq<Word>, at: nat, chunk: seq<Word>): (r: seq<Word>)
    requires at + |chunk| <= |d|
    ensures |r| == |d|
  {
    d[..at] + chunk + d[at + |chunk|..]
  }

  lemma RowThere(v: Write, scoop: nat, k: nat)
    requires v.Fits() && scoop < NUM_SCOOPS && k <= v.n * 65536
    ensures ScoopAt(scoop, v.warps, v.start * NUM_SCOOPS) + k <= |v.was|
  {
    MulMono(scoop, 4096, v.warps);
  }

  // The first k words of the next row.
  lemma RowStep(v: Write, now: seq<Word>, scoop: nat, k: nat)
    requires v.Fits() && scoop < NUM_SCOOPS && k <= v.n * 65536 && WrittenUpTo(v, now, scoop, 0)
    ensures ScoopAt(scoop, v.warps, v.start * NUM_SCOOPS) + k <= |now|
    ensures WrittenUpTo(v,
        Overwritten(now, ScoopAt(scoop, v.warps, v.start * NUM_SCOOPS), Chunk(v.buffer, scoop, v.n)[..k]), scoop, k)
  {
    hide CacheScoop, BufferScoop, ScoopAt, Chunk, Overwritten;
    RowThere(v, scoop, k);
    var at, chunk := ScoopAt(scoop, v.warps, v.start * NUM_SCOOPS), Chunk(v.buffer, scoop, v.n)[..k];
    var next := Overwritten(now, at, chunk);
    forall s: nat, column: nat, c: nat | s < NUM_SCOOPS && column < v.warps * NUM_SCOOPS && c < 16
      ensures WordUpTo(v, next, scoop, k, s, column, c)
    {
      assert WordUpTo(v, now, scoop, 0, s, column, c);
      RowWord(v, now, scoop, k, s, column, c);
    }
  }

  lemma RowWord(v: Write, now: seq<Word>, scoop: nat, k: nat, s: nat, column: nat, c: nat)
    requires v.Fits() && scoop < NUM_SCOOPS && k <= v.n * 65536 && |now| == |v.was|
    requires s < NUM_SCOOPS && column < v.warps * NUM_SCOOPS && c < 16
    requires WordUpTo(v, now, scoop, 0, s, column, c)
    requires ScoopAt(scoop, v.warps, v.start * NUM_SCOOPS) + k <= |now|
    ensures WordUpTo(v, Overwritten(now, ScoopAt(scoop, v.warps, v.start * NUM_SCOOPS),
        Chunk(v.buffer, scoop, v.n)[..k]), scoop, k,
                     s, column, c)
  {
    hide CacheScoop, Overwritten, ScoopAt, Chunk;
    var at, chunk := ScoopAt(scoop, v.warps, v.start * NUM_SCOOPS), Chunk(v.buffer, scoop, v.n)[..k];
    var next := Overwritten(now, at, chunk);
    FileColumns(v.warps);
    WordThere(now, s, column, c);
    WordThere(next, s, column, c);
    var x := ScoopAt(s, v.warps, column) + c;
    WhichWords(v, scoop, k, s, column, c);
    OverwrittenAt(now, at, chunk, x);
    if at <= x < at + k {
      ChunkScoop(v, scoop, column, c);
    }
  }

  lemma WordThere(d: seq<Word>, s: nat, column: nat, c: nat)
    requires |d| % WARP_CELLS == 0 && column < |d| / NONCE_WORDS && s < NUM_SCOOPS && c < 16
    ensures var x := ScoopAt(s, |d| / WARP_CELLS, column) + c; x < |d| && CacheScoop(d, s, column)[c] == d[x]
  {
    hide CacheScoop, ScoopAt;
    ScoopThere(d, s, column);
  }

  lemma OverwrittenAt(d: seq<Word>, at: nat, chunk: seq<Word>, x: nat)
    requires at + |chunk| <= |d| && x < |d|
    ensures Overwritten(d, at, chunk)[x] == if at <= x < at + |chunk| then chunk[x - at] else d[x]
  {
  }

  lemma ChunkScoop(v: Write, scoop: nat, column: nat, c: nat)
    requires v.Fits() && scoop < NUM_SCOOPS && v.start * NUM_SCOOPS <= column < (v.start + v.n) * NUM_SCOOPS && c < 16
    ensures Chunk(v.buffer, scoop, v.n)[(column - v.start * NUM_SCOOPS) * 16 + c] == BufferScoop(v, scoop, column)[c]
  {
    hide CacheScoop, ScoopAt;
    var k, warps := column - v.start * NUM_SCOOPS, |v.buffer| / WARP_CELLS;
    WarpColumns(|v.buffer|);
    ScoopThere(v.buffer, scoop, k);
    ChunkThere(|v.buffer|, scoop, v.n);
    RowStart(scoop, warps, k);
    SliceOfSlice(v.buffer, ScoopAt(scoop, warps, 0), v.n * 65536, k * 16, 16);
  }

  lemma RowStart(s: nat, warps: nat, column: nat)
    ensures ScoopAt(s, warps, column) == ScoopAt(s, warps, 0) + column * 16
  {
  }

  // The words of a stretch are those that the write reaches with it.
  lemma WhichWords(v: Write, scoop: nat, k: nat, s: nat, column: nat, c: nat)
    requires v.Fits() && scoop < NUM_SCOOPS && k <= v.n * 65536
    requires s < NUM_SCOOPS && column < v.warps * NUM_SCOOPS && c < 16
    ensures var at, x := ScoopAt(scoop, v.warps, v.start * NUM_SCOOPS), ScoopAt(s, v.warps, column) + c;
      && (at <= x < at + k ==>
            && s == scoop && v.start * NUM_SCOOPS <= column < (v.start + v.n) * NUM_SCOOPS
            && x - at == (column - v.start * NUM_SCOOPS) * 16 + c)
      && (at <= x < at + k || v.Reaches(scoop, 0, s, column, c) <==> v.Reaches(scoop, k, s, column, c))
      && (at <= x < at + k ==> !v.Reaches(scoop, 0, s, column, c))
  {
    MulMono(s, scoop, v.warps);
    MulMono(scoop, s, v.warps);
  }

  // ----- what the file holds wherever a write is cut off -----

  lemma WarpUntouched(v: Write, now: seq<Word>, scoop: nat, k: nat, name: Name, w: nat)
    requires v.Fits() && WrittenUpTo(v, now, scoop, k) && v.warps == name.warps
    requires w < v.start && FileWarp(name, v.was, w)
    ensures FileWarp(name, now, w)
  {
    hide CacheScoop, AtLevel, RawOf, BufferScoop;
    FileColumns(v.warps);
    forall s: nat, i: nat | s < NUM_SCOOPS && i < NUM_SCOOPS
      ensures FileScoop(name, now, w, s, i)
    {
      var column := w * NUM_SCOOPS + i;
      assert FileScoop(name, v.was, w, s, i);
      forall c | 0 <= c < 16
        ensures CacheScoop(now, s, column)[c] == CacheScoop(v.was, s, column)[c]
      {
        assert WordUpTo(v, now, scoop, k, s, column, c);
      }
      assert CacheScoop(now, s, column) == CacheScoop(v.was, s, column);
    }
  }

  // A warp of the buffer that has been written, the last two words of the file aside.
  lemma WarpWritten(v: Write, now: seq<Word>, scoop: nat, k: nat, name: Name, w: nat)
    requires v.Fits() && WrittenUpTo(v, now, scoop, k) && v.warps == name.warps
    requires v.start <= w < v.start + v.n && HoldsNext(v.buffer, name, v.start, w - v.start)
    requires scoop == NUM_SCOOPS || (scoop == NUM_SCOOPS - 1 && v.start + v.n == v.warps && k + 2 >= v.n * 65536)
    ensures FileWarp(name, now, w)
  {
    hide CacheScoop, AtLevel, RawOf;
    FileColumns(v.warps);
    forall s: nat, i: nat | s < NUM_SCOOPS && i < NUM_SCOOPS
      ensures FileScoop(name, now, w, s, i)
    {
      var column, j := w * NUM_SCOOPS + i, w - v.start;
      assert WarpScoop(v.buffer, j, name.payload, name.seed, name.compress, w, s, i);
      forall c | 0 <= c < if UnderMarker(name.warps, s, column) then 14 else 16
        ensures CacheScoop(now, s, column)[c] == BufferScoop(v, s, column)[c]
      {
        assert WordUpTo(v, now, scoop, k, s, column, c);
      }
      assert Left(CacheScoop(now, s, column), UnderMarker(name.warps, s, column))
          == Left(BufferScoop(v, s, column), UnderMarker(name.warps, s, column));
    }
  }

  // The marker is the end of the last scoop.
  lemma MarkerThere(data: seq<Word>, warps: nat)
    requires warps > 0 && |data| == warps * WARP_CELLS
    ensures warps * NUM_SCOOPS - 1 < |data| / NONCE_WORDS && |data| >= 2
    ensures CacheScoop(data, NUM_SCOOPS - 1, warps * NUM_SCOOPS - 1)[14] == data[|data| - 2]
    ensures CacheScoop(data, NUM_SCOOPS - 1, warps * NUM_SCOOPS - 1)[15] == data[|data| - 1]
  {
    hide CacheScoop;
    FileColumns(warps);
    ScoopThere(data, NUM_SCOOPS - 1, warps * NUM_SCOOPS - 1);
  }

  // Cut off anywhere, the write leaves a marker that counts no warp that is not there.
  lemma CutOffIsSound(v: Write, now: seq<Word>, scoop: nat, k: nat, name: Name)
    requires v.Fits() && WrittenUpTo(v, now, scoop, k) && scoop < NUM_SCOOPS && k <= v.n * 65536
    requires v.warps == name.warps && SoundTmp(name, v.was)
    requires if HasMarker(v.was) then Marked(v.was) == v.start else v.start == 0
    requires Levelled(name.compress) ==> HoldsWarps(v.buffer, name, v.start, v.n)
    ensures SoundTmp(name, now)
  {
    hide CacheScoop, AtLevel, RawOf, BufferScoop, FileWarp, HoldsNext;
    if Levelled(name.compress) && HasMarker(now) {
      MarkerThere(v.was, v.warps);
      MarkerThere(now, v.warps);
      var last := v.warps * NUM_SCOOPS - 1;
      assert WordUpTo(v, now, scoop, k, NUM_SCOOPS - 1, last, 14);
      assert WordUpTo(v, now, scoop, k, NUM_SCOOPS - 1, last, 15);
      forall w | 0 <= w < name.warps && w < Marked(now)
        ensures FileWarp(name, now, w)
      {
        if w < v.start {
          WarpUntouched(v, now, scoop, k, name, w);
        } else {
          assert HoldsNext(v.buffer, name, v.start, w - v.start);
          WarpWritten(v, now, scoop, k, name, w);
        }
      }
    }
  }

  // The end of the last row of the write that ends the file, where the marker lies.
  predicate OverMarker(v: Write, scoop: nat, k: nat) {
    scoop == NUM_SCOOPS - 1 && v.start + v.n == v.warps && v.n * 65536 <= k + 1
  }

  // Cut off anywhere but there, the write leaves the marker as it was; there, what is left is the
  // end of the buffer, so that the file is plotted again from its start.
  lemma CutOffMarker(v: Write, now: seq<Word>, scoop: nat, k: nat)
    requires v.Fits() && WrittenUpTo(v, now, scoop, k) && scoop < NUM_SCOOPS && k <= v.n * 65536
    ensures |now| == |v.was| >= 2
    ensures !OverMarker(v, scoop, k) ==>
      now[|now| - 2] == v.was[|v.was| - 2] && now[|now| - 1] == v.was[|v.was| - 1]
    ensures OverMarker(v, scoop, k) && 0 < v.n ==>
      var last := BufferScoop(v, NUM_SCOOPS - 1, v.warps * NUM_SCOOPS - 1);
      now[|now| - 2] == last[14] && now[|now| - 1] == if k == v.n * 65536 then last[15] else v.was[|v.was| - 1]
  {
    hide CacheScoop, BufferScoop;
    MarkerThere(v.was, v.warps);
    MarkerThere(now, v.warps);
    var last := v.warps * NUM_SCOOPS - 1;
    assert WordUpTo(v, now, scoop, k, NUM_SCOOPS - 1, last, 14);
    assert WordUpTo(v, now, scoop, k, NUM_SCOOPS - 1, last, 15);
  }

  // A write that is not cut off.
  lemma AllWritten(v: Write, now: seq<Word>, name: Name)
    requires v.Fits() && WrittenUpTo(v, now, NUM_SCOOPS, 0)
    requires v.warps == name.warps && SoundTmp(name, v.was) && Levelled(name.compress)
    requires if HasMarker(v.was) then Marked(v.was) == v.start else v.start == 0
    requires HoldsWarps(v.buffer, name, v.start, v.n)
    ensures forall w :: 0 <= w < v.start + v.n ==> FileWarp(name, now, w)
  {
    hide FileWarp, HoldsNext, WrittenUpTo;
    forall w | 0 <= w < v.start + v.n
      ensures FileWarp(name, now, w)
    {
      if w < v.start {
        WarpUntouched(v, now, NUM_SCOOPS, 0, name, w);
      } else {
        assert HoldsNext(v.buffer, name, v.start, w - v.start);
        WarpWritten(v, now, NUM_SCOOPS, 0, name, w);
      }
    }
  }

  // The marker does not touch the rest of the file.
  lemma MarkerAside(name: Name, data: seq<Word>, now: seq<Word>, w: nat)
    requires Whole(name, data) && |now| == |data| && w < name.warps && FileWarp(name, data, w)
    requires forall x :: 0 <= x < |data| - 2 ==> now[x] == data[x]
    ensures FileWarp(name, now, w)
  {
    hide CacheScoop, AtLevel, RawOf;
    FileColumns(name.warps);
    forall s: nat, i: nat | s < NUM_SCOOPS && i < NUM_SCOOPS
      ensures FileScoop(name, now, w, s, i)
    {
      assert FileScoop(name, data, w, s, i);
      MarkerScoop(data, now, name.warps, s, w * NUM_SCOOPS + i);
    }
  }

  lemma MarkerScoop(data: seq<Word>, now: seq<Word>, warps: nat, s: nat, column: nat)
    requires warps > 0 && |data| == |now| == warps * WARP_CELLS && s < NUM_SCOOPS && column < warps * NUM_SCOOPS
    requires forall x :: 0 <= x < |data| - 2 ==> now[x] == data[x]
    ensures column < |data| / NONCE_WORDS
    ensures Left(CacheScoop(now, s, column), UnderMarker(warps, s, column))
         == Left(CacheScoop(data, s, column), UnderMarker(warps, s, column))
  {
    hide CacheScoop;
    FileColumns(warps);
    ScoopThere(data, s, column);
    ScoopThere(now, s, column);
    MulMono(s, 4095, warps);
  }

  // ----- what the marker costs -----

  // The file with a marker.
  function WithMarker(data: seq<Word>, progress: Word): (r: seq<Word>)
    requires |data| >= 2
    ensures |r| == |data| && HasMarker(r) && Marked(r) == progress
    ensures forall x :: 0 <= x < |data| - 2 ==> r[x] == data[x]
  {
    data[|data| - 2 := progress][|data| - 1 := RESUME_MAGIC]
  }

  ghost predicate Keeps(data: seq<Word>, warps: nat, s: nat, column: nat)
    requires warps > 0 && |data| == warps * WARP_CELLS && s < NUM_SCOOPS && column < warps * NUM_SCOOPS
  {
    FileColumns(warps);
    CacheScoop(WithMarker(data, warps % WORD_RANGE), s, column) == CacheScoop(data, s, column)
  }

  // A finished file keeps a scoop, whatever is plotted, if and only if it is not the last scoop of
  // the last nonce.
  lemma MarkerCosts(warps: nat, s: nat, column: nat)
    requires warps > 0 && s < NUM_SCOOPS && column < warps * NUM_SCOOPS
    ensures (forall data: seq<Word> :: |data| == warps * WARP_CELLS ==> Keeps(data, warps, s, column))
       <==> !UnderMarker(warps, s, column)
  {
    hide CacheScoop;
    if UnderMarker(warps, s, column) {
      var zeros: seq<Word> := seq(warps * WARP_CELLS, _ => 0);
      MarkerThere(zeros, warps);
      MarkerThere(WithMarker(zeros, warps % WORD_RANGE), warps);
      assert !Keeps(zeros, warps, s, column);
    } else {
      forall data: seq<Word> | |data| == warps * WARP_CELLS
        ensures Keeps(data, warps, s, column)
      {
        MarkerScoop(data, WithMarker(data, warps % WORD_RANGE), warps, s, column);
      }
    }
  }

  // In a finished plot every scoop is genuine, but for the last scoop of the last nonce, which
  // is so only where it happens to end in the marker.
  lemma FinishedScoop(name: Name, data: seq<Word>, s: nat, column: nat)
    requires SoundPlot(name, data) && Levelled(name.compress) && s < NUM_SCOOPS && column < name.warps * NUM_SCOOPS
    ensures column < |data| / NONCE_WORDS
    ensures var x := AtLevel(RawOf(name.payload, name.seed), s, column, name.compress);
      (CacheScoop(data, s, column) == x) <==>
      (UnderMarker(name.warps, s, column) ==> x[14..] == [Marked(data), RESUME_MAGIC])
  {
    hide CacheScoop, AtLevel, RawOf;
    FileColumns(name.warps);
    var w, i := column / NUM_SCOOPS, column % NUM_SCOOPS;
    DivParts(column, NUM_SCOOPS);
    assert FileWarp(name, data, w);
    assert FileScoop(name, data, w, s, i);
    MarkerThere(data, name.warps);
    var x, y := AtLevel(RawOf(name.payload, name.seed), s, column, name.compress), CacheScoop(data, s, column);
    assert x == x[..14] + x[14..] && y == y[..14] + y[14..];
    if UnderMarker(name.warps, s, column) {
      assert y[14..] == [Marked(data), RESUME_MAGIC];
    }
  }
}
