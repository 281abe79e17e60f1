// The POC2 scoop layout: which half of which slot makes up a scoop, the extraction of one
// scoop from an interleaved buffer, and the shuffle of whole nonces into a cache in which
// the scoops with one number lie together. A cache is one sequence of cells; nonces are its
// columns.
module Layout {
  import opened Words
  import opened Lanes
  import opened PlotChain

  const NUM_SCOOPS: nat := 4096
  const SCOOP_WORDS: nat := 16

  // Scoop s of a nonce: slot 2s, then slot 2(4095 - s) + 1.
  function ScoopOf(nonce: seq<Word>, s: nat): (r: seq<Word>)
    requires |nonce| == NONCE_WORDS && s < NUM_SCOOPS
    ensures |r| == SCOOP_WORDS
  {
    Slot(nonce, 2 * s) + Slot(nonce, 2 * (4095 - s) + 1)
  }

  // The 64 bytes of a nonce at the place of scoop s.
  function Stretch(nonce: seq<Word>, s: nat): (r: seq<Word>)
    requires |nonce| == NONCE_WORDS && s < NUM_SCOOPS
    ensures |r| == SCOOP_WORDS
  {
    nonce[SCOOP_WORDS * s..SCOOP_WORDS * (s + 1)]
  }

  // A scoop is the first half of its own stretch and the second half of its mirror image.
  lemma ScoopHalves(nonce: seq<Word>, s: nat)
    requires |nonce| == NONCE_WORDS && s < NUM_SCOOPS
    ensures ScoopOf(nonce, s) == Stretch(nonce, s)[..8] + Stretch(nonce, NUM_SCOOPS - 1 - s)[8..]
  {
    SliceOfSlice(nonce, SCOOP_WORDS * s, SCOOP_WORDS, 0, 8);
    SliceOfSlice(nonce, SCOOP_WORDS * (4095 - s), SCOOP_WORDS, 8, 8);
  }

  // The rearrangement undoes itself.
  lemma ScoopsOfScoops(nonce: seq<Word>, scoops: seq<Word>, s: nat)
    requires |nonce| == |scoops| == NONCE_WORDS && s < NUM_SCOOPS
    requires forall k :: 0 <= k < NUM_SCOOPS ==> Stretch(scoops, k) == ScoopOf(nonce, k)
    ensures ScoopOf(scoops, s) == Stretch(nonce, s)
  {
    hide ScoopOf, Stretch;
    var m := NUM_SCOOPS - 1 - s;
    ScoopHalves(scoops, s);
    ScoopHalves(nonce, s);
    ScoopHalves(nonce, m);
    var x, y := Stretch(nonce, s), Stretch(nonce, m);
    assert (x[..8] + y[8..])[..8] == x[..8] && (y[..8] + x[8..])[8..] == x[8..];
    assert x == x[..8] + x[8..];
  }

  // ----- interleaved memory as one sequence -----

  function Flat(rows: seq<Reg>, width: nat): (m: seq<Word>)
    requires width > 0 && forall i :: 0 <= i < |rows| ==> |rows[i]| == width
    ensures |m| == |rows| * width
  {
    seq(|rows| * width, q requires 0 <= q < |rows| * width => FlatCell(rows, width, q))
  }

  function FlatCell(rows: seq<Reg>, width: nat, q: nat): Word
    requires width > 0 && q < |rows| * width && forall i :: 0 <= i < |rows| ==> |rows[i]| == width
  {
    QuotientBound(q, |rows|, width);
    rows[q / width][q % width]
  }

  lemma QuotientBound(q: nat, n: nat, width: nat)
    requires width > 0 && q < n * width
    ensures q / width < n && q % width < width && q == q / width * width + q % width
  {
    MulMono(n, q / width, width);
  }

  lemma CellBound(i: nat, l: nat, n: nat, width: nat)
    requires i < n && l < width
    ensures i * width + l < n * width
    ensures (i * width + l) / width == i && (i * width + l) % width == l
  {
    MulMono(i, n, width);
    DivModUnique(i * width + l, width, i, l);
  }

  // The cells of lane l in interleaved memory of n rows.
  ghost function FlatLane(source: seq<Word>, width: nat, l: nat, n: nat): (r: seq<Word>)
    requires |source| == n * width && l < width
    ensures |r| == n
  {
    seq(n, i requires 0 <= i < n => (CellBound(i, l, n, width); source[i * width + l]))
  }

  lemma FlatLaneIsLane(rows: seq<Reg>, width: nat, l: nat)
    requires Wide(rows, width) && l < width
    ensures FlatLane(Flat(rows, width), width, l, |rows|) == Lane(rows, width, l)
  {
    forall i | 0 <= i < |rows|
      ensures FlatLane(Flat(rows, width), width, l, |rows|)[i] == Lane(rows, width, l)[i]
    {
      CellBound(i, l, |rows|, width);
    }
  }

  // ----- extraction of one scoop -----

  method ExtractScoopFromInterleaved(source: seq<Word>, width: nat, lane: nat, scoop: nat) returns (output: seq<Word>)
    requires |source| == NONCE_WORDS * width && lane < width && scoop < NUM_SCOOPS
    ensures output == ScoopOf(FlatLane(source, width, lane, NONCE_WORDS), scoop)
  {
    hide FlatLane;
    ghost var nonce := FlatLane(source, width, lane, NONCE_WORDS);
    var hashIdxFirst := 2 * scoop;
    var hashIdxSecond := (4095 - scoop) * 2 + 1;
    output := [];
    for j := 0 to 8
      invariant output == nonce[8 * hashIdxFirst..8 * hashIdxFirst + j]
    {
      FlatLaneAt(source, width, lane, NONCE_WORDS, hashIdxFirst * 8 + j);
      output := output + [source[(hashIdxFirst * 8 + j) * width + lane]];
    }
    ghost var first := output;
    for j := 0 to 8
      invariant output == first + nonce[8 * hashIdxSecond..8 * hashIdxSecond + j]
    {
      FlatLaneAt(source, width, lane, NONCE_WORDS, hashIdxSecond * 8 + j);
      output := output + [source[(hashIdxSecond * 8 + j) * width + lane]];
    }
  }

  lemma FlatLaneAt(source: seq<Word>, width: nat, l: nat, n: nat, i: nat)
    requires |source| == n * width && l < width && i < n
    ensures 0 <= i * width + l < n * width && FlatLane(source, width, l, n)[i] == source[i * width + l]
  {
    CellBound(i, l, n, width);
  }

  // ----- the shuffle into the cache -----

  // Where cell t of the source goes, in a cache of n columns.
  function Address(t: nat, width: nat, offset: nat, n: nat): nat
    requires width > 0 && t < NONCE_WORDS * width
  {
    QuotientBound(t, NONCE_WORDS, width);
    var i, j, k := t / width / 8, t / width % 8, t % width;
    DataOffset(i, j, k, offset, n)
  }

  function DataOffset(i: nat, j: nat, k: nat, offset: nat, n: nat): nat
    requires i < NUM_SLOTS
  {
    (i % 2 * (4095 - i / 2) + (i + 1) % 2 * (i / 2)) * SCOOP_WORDS * n + (k + offset) * SCOOP_WORDS + i % 2 * 8 + j
  }

  // Byte addresses have 64 bits and wrap; cells of four bytes have as many addresses as this, and
  // scoops of sixteen cells as this. No slice of memory has as much as half of it.
  const ADDRESS_RANGE: nat := 0x4000_0000_0000_0000
  const COLUMN_RANGE: nat := 0x400_0000_0000_0000
  const SLICE_LIMIT: nat := 0x1FFF_FFFF_FFFF_FFFF

  // The address as it is computed, which is another one for columns from COLUMN_RANGE on.
  function Place(t: nat, width: nat, offset: nat, n: nat): nat
    requires width > 0 && t < NONCE_WORDS * width
  {
    Address(t, width, offset, n) % ADDRESS_RANGE
  }

  // Row (scoop number) and column (nonce) of cache cell x, 16 cells to a scoop.
  function RowOf(x: nat, n: nat): nat requires n > 0 { x / 16 / n }
  function ColumnOf(x: nat, n: nat): nat requires n > 0 { x / 16 % n }

  predicate InColumns(x: nat, n: nat, lo: nat, hi: nat) {
    n > 0 && RowOf(x, n) < NUM_SCOOPS && lo <= ColumnOf(x, n) < hi
  }

  // The slot that half h of scoop s is.
  function SlotOf(s: nat, h: nat): nat
    requires s < NUM_SCOOPS && h < 2
  {
    if h == 0 then 2 * s else 2 * (4095 - s) + 1
  }

  // The cell of the source that belongs in cache cell x.
  function SourceIndex(x: nat, width: nat, offset: nat, n: nat): nat
    requires InColumns(x, n, offset, offset + width)
  {
    (SlotOf(RowOf(x, n), x % 16 / 8) * 8 + x % 8) * width + (ColumnOf(x, n) - offset)
  }

  lemma Decode(row: nat, col: nat, c: nat, n: nat)
    requires col < n && c < 16
    ensures var x := (row * n + col) * 16 + c;
      RowOf(x, n) == row && ColumnOf(x, n) == col && x % 16 == c
  {
    DivModUnique(row * n + col, n, row, col);
  }

  lemma Encode(x: nat, n: nat)
    requires n > 0
    ensures x == (RowOf(x, n) * n + ColumnOf(x, n)) * 16 + x % 16 && ColumnOf(x, n) < n
  {
    assert x / 16 == x / 16 / n * n + x / 16 % n;
  }

  lemma DataOffsetIs(i: nat, j: nat, k: nat, offset: nat, n: nat, row: nat)
    requires i < NUM_SLOTS && row < NUM_SCOOPS && i == SlotOf(row, i % 2)
    ensures DataOffset(i, j, k, offset, n) == (row * n + (offset + k)) * 16 + i % 2 * 8 + j
  {
    assert i % 2 * (4095 - i / 2) + (i + 1) % 2 * (i / 2) == row;
    assert row * SCOOP_WORDS * n == row * n * 16;
  }

  // The scoop that slot i is a half of.
  function RowOfSlot(i: nat): (row: nat)
    requires i < NUM_SLOTS
    ensures row < NUM_SCOOPS && SlotOf(row, i % 2) == i
  {
    if i % 2 == 0 then i / 2 else 4095 - i / 2
  }

  lemma CacheCell(at: nat, h: nat, j: nat)
    requires at % 16 == 0 && h < 2 && j < 8
    ensures (at + h * 8 + j) % 16 / 8 == h && (at + h * 8 + j) % 8 == j
  {
    var q := at / 16;
    DivModUnique(at + h * 8 + j, 16, q, h * 8 + j);
    DivModUnique(h * 8 + j, 8, h, j);
    DivModUnique(at + h * 8 + j, 8, 2 * q + h, j);
  }

  // The shuffle is a bijection between the source cells and the cells of its columns.
  lemma ShuffleForth(t: nat, width: nat, offset: nat, n: nat)
    requires width > 0 && t < NONCE_WORDS * width && offset + width <= n
    ensures InColumns(Address(t, width, offset, n), n, offset, offset + width)
    ensures SourceIndex(Address(t, width, offset, n), width, offset, n) == t
    ensures Address(t, width, offset, n) < NONCE_WORDS * n
  {
    hide DataOffset, RowOf, ColumnOf, SlotOf;
    QuotientBound(t, NONCE_WORDS, width);
    var i, j, k := t / width / 8, t / width % 8, t % width;
    var row := RowOfSlot(i);
    DataOffsetIs(i, j, k, offset, n, row);
    Decode(row, offset + k, i % 2 * 8 + j, n);
    MulMono(row, 4096, n);
    CacheCell((row * n + (offset + k)) * 16, i % 2, j);
  }

  lemma ShuffleBack(x: nat, width: nat, offset: nat, n: nat)
    requires width > 0 && offset + width <= n && InColumns(x, n, offset, offset + width)
    ensures SourceIndex(x, width, offset, n) < NONCE_WORDS * width
    ensures Address(SourceIndex(x, width, offset, n), width, offset, n) == x
  {
    hide RowOf, ColumnOf, DataOffset, SlotOf;
    var row, col, h, j := RowOf(x, n), ColumnOf(x, n), x % 16 / 8, x % 8;
    var i := SlotOf(row, h);
    EightCells(i, j);
    SlotParity(row, h);
    HalfAndCell(x);
    CellBound(i * 8 + j, col - offset, NONCE_WORDS, width);
    DataOffsetIs(i, j, col - offset, offset, n, row);
    Encode(x, n);
  }

  lemma EightCells(i: nat, j: nat)
    requires j < 8
    ensures (i * 8 + j) / 8 == i && (i * 8 + j) % 8 == j
  {
  }

  lemma SlotParity(s: nat, h: nat)
    requires s < NUM_SCOOPS && h < 2
    ensures SlotOf(s, h) < NUM_SLOTS && SlotOf(s, h) % 2 == h
  {
  }

  lemma HalfAndCell(x: nat)
    ensures x % 16 / 8 < 2 && x % 16 == x % 16 / 8 * 8 + x % 8
  {
    DivParts(x, 16);
    var q, r := x / 16, x % 16;
    DivParts(r, 8);
    DivModUnique(x, 8, 2 * q + r / 8, r % 8);
  }

  // The cache with the source's nonces in columns offset to offset + width - 1.
  function Scattered(old_: seq<Word>, source: seq<Word>, width: nat, offset: nat): (r: seq<Word>)
    ensures |r| == |old_|
  {
    seq(|old_|, x requires 0 <= x < |old_| => Placed(old_, source, width, offset, |old_| / NONCE_WORDS, x))
  }

  function Placed(old_: seq<Word>, source: seq<Word>, width: nat, offset: nat, n: nat, x: nat): Word
    requires x < |old_|
  {
    if InColumns(x, n, offset, offset + width) && SourceIndex(x, width, offset, n) < |source|
    then source[SourceIndex(x, width, offset, n)]
    else old_[x]
  }

  // The first t source cells are where the shuffle puts them, as far as the cache reaches; all
  // cells it puts nothing into are as before. Nothing is said about the columns being there.
  ghost predicate Spread(old_: seq<Word>, now: seq<Word>, source: seq<Word>, width: nat, offset: nat, t: nat) {
    var n := |old_| / NONCE_WORDS;
    && |now| == |old_| && width > 0 && t <= |source| == NONCE_WORDS * width
    && (forall u :: 0 <= u < t && Place(u, width, offset, n) < |now| ==> now[Place(u, width, offset, n)] == source[u])
    && (forall x :: 0 <= x < |now| && (forall u :: 0 <= u < t ==> Place(u, width, offset, n) != x) ==>
          now[x] == old_[x])
  }

  lemma SpreadNone(old_: seq<Word>, source: seq<Word>, width: nat, offset: nat)
    requires width > 0 && |source| == NONCE_WORDS * width
    ensures Spread(old_, old_, source, width, offset, 0)
  {
  }

  // No two source cells go to the same place, wherever the columns are.
  lemma PlaceInjective(u: nat, v: nat, width: nat, offset: nat, n: nat)
    requires 0 < width <= n && u < NONCE_WORDS * width && v < NONCE_WORDS * width && NONCE_WORDS * n <= SLICE_LIMIT
    requires Place(u, width, offset, n) == Place(v, width, offset, n)
    ensures u == v
  {
    AddressShift(u, width, offset, n);
    AddressShift(v, width, offset, n);
    ShuffleForth(u, width, 0, n);
    ShuffleForth(v, width, 0, n);
    hide Address;
    SameAfterShift(Address(u, width, 0, n), Address(v, width, 0, n), offset * SCOOP_WORDS);
  }

  lemma SameAfterShift(a: nat, b: nat, c: nat)
    requires a < ADDRESS_RANGE && b < ADDRESS_RANGE && (a + c) % ADDRESS_RANGE == (b + c) % ADDRESS_RANGE
    ensures a == b
  {
    DivParts(a + c, ADDRESS_RANGE);
    DivParts(b + c, ADDRESS_RANGE);
  }

  lemma AddressShift(t: nat, width: nat, offset: nat, n: nat)
    requires width > 0 && t < NONCE_WORDS * width
    ensures Address(t, width, offset, n) == Address(t, width, 0, n) + offset * SCOOP_WORDS
  {
  }

  // One more source cell is put to its place.
  lemma SpreadStep(old_: seq<Word>, now: seq<Word>, source: seq<Word>, width: nat, offset: nat, t: nat)
    requires Regular(source, |old_|, width) && t < |source|
    requires Spread(old_, now, source, width, offset, t)
    ensures var x := Place(t, width, offset, |old_| / NONCE_WORDS);
      Spread(old_, if x < |now| then now[x := source[t]] else now, source, width, offset, t + 1)
  {
    var n := |old_| / NONCE_WORDS;
    DivParts(|old_|, NONCE_WORDS);
    var x := Place(t, width, offset, n);
    hide Place;
    forall u | 0 <= u < t
      ensures Place(u, width, offset, n) != x
    {
      if Place(u, width, offset, n) == x {
        PlaceInjective(u, t, width, offset, n);
      }
    }
  }

  lemma PlaceOfStep(i: nat, j: nat, k: nat, width: nat, offset: nat, n: nat, t: nat)
    requires i < NUM_SLOTS && j < 8 && k < width && t == (i * 8 + j) * width + k
    ensures t < NONCE_WORDS * width && Place(t, width, offset, n) == DataOffset(i, j, k, offset, n) % ADDRESS_RANGE
  {
    hide DataOffset;
    CellBound(i * 8 + j, k, NONCE_WORDS, width);
    EightCells(i, j);
  }

  // Columns that are there: every source cell is placed, and all else is as before.
  lemma SpreadInColumns(old_: seq<Word>, now: seq<Word>, source: seq<Word>, width: nat, offset: nat)
    requires Spread(old_, now, source, width, offset, |source|)
    requires offset + width <= |old_| / NONCE_WORDS && |old_| <= SLICE_LIMIT
    ensures now == Scattered(old_, source, width, offset)
  {
    hide Address;
    var n := |old_| / NONCE_WORDS;
    forall u | 0 <= u < |source|
      ensures Place(u, width, offset, n) == Address(u, width, offset, n)
    {
      NoWrap(u, width, offset, n, |old_|);
    }
    hide Place;
    forall x | 0 <= x < |now|
      ensures now[x] == Placed(old_, source, width, offset, n, x)
    {
      if InColumns(x, n, offset, offset + width) {
        ShuffleBack(x, width, offset, n);
        assert Place(SourceIndex(x, width, offset, n), width, offset, n) == x;
      } else {
        forall u | 0 <= u < |source|
          ensures Place(u, width, offset, n) != x
        {
          ShuffleForth(u, width, offset, n);
        }
      }
    }
  }

  // Within the cache, the address is what it is to be.
  lemma NoWrap(t: nat, width: nat, offset: nat, n: nat, length: nat)
    requires width > 0 && t < NONCE_WORDS * width && offset + width <= n
        == length / NONCE_WORDS && length <= SLICE_LIMIT
    ensures Place(t, width, offset, n) == Address(t, width, offset, n) < length
  {
    hide Address;
    DivParts(length, NONCE_WORDS);
    ShuffleForth(t, width, offset, n);
    DivModUnique(Address(t, width, offset, n), ADDRESS_RANGE, 0, Address(t, width, offset, n));
  }

  lemma SpreadSize(old_: seq<Word>, now: seq<Word>, source: seq<Word>, width: nat, offset: nat)
    requires Spread(old_, now, source, width, offset, |source|)
    ensures |now| == |old_| && |source| == NONCE_WORDS * width
  {
  }

  // The scoop of the cache, counted row by row, that scoop s of a column goes to.
  function ScoopPlace(s: nat, column: nat, n: nat): nat {
    (s * n + column) % COLUMN_RANGE
  }

  // Whether the columns are there or not, scoop s of each goes to its slot, if the cache has it.
  lemma SpreadScoop(old_: seq<Word>, now: seq<Word>, source: seq<Word>, width: nat, offset: nat, l: nat, s: nat)
    requires Spread(old_, now, source, width, offset, |source|)
    requires l < width && s < NUM_SCOOPS && 0 < |old_| / NONCE_WORDS
    requires ScoopPlace(s, offset + l, |old_| / NONCE_WORDS) < NUM_SCOOPS * (|old_| / NONCE_WORDS)
    ensures var n := |old_| / NONCE_WORDS;
      var p := ScoopPlace(s, offset + l, n);
      && p / n < NUM_SCOOPS && CacheScoop(now, p / n, p % n) == ScoopOf(FlatLane(source, width, l, NONCE_WORDS), s)
  {
    hide Spread, FlatLane, ScoopOf, ScoopPlace;
    var n := |old_| / NONCE_WORDS;
    SpreadSize(old_, now, source, width, offset);
    var nonce, p := FlatLane(source, width, l, NONCE_WORDS), ScoopPlace(s, offset + l, n);
    QuotientBound(p, NUM_SCOOPS, n);
    DivParts(p, n);
    CacheBound(|old_|, p / n, p % n);
    assert CacheScoop(now, p / n, p % n) == now[p * 16..p * 16 + 16];
    hide CacheScoop;
    forall c | 0 <= c < 16
      ensures now[p * 16 + c] == ScoopOf(nonce, s)[c]
    {
      SpreadCell(old_, now, source, width, offset, l, s, c, p * 16 + c);
      ScoopCell(nonce, s, c);
    }
  }

  lemma SpreadCell(old_: seq<Word>, now: seq<Word>, source: seq<Word>, width: nat, offset: nat, l: nat, s: nat, c: nat,
                   x: nat)
    requires Spread(old_, now, source, width, offset, |source|)
    requires l < width && s < NUM_SCOOPS && c < 16
    requires x == ScoopPlace(s, offset + l, |old_| / NONCE_WORDS) * 16 + c && x < |now|
    ensures var cell := SlotOf(s, c / 8) * 8 + c % 8;
      cell < NONCE_WORDS && now[x] == FlatLane(source, width, l, NONCE_WORDS)[cell]
  {
    var n, cell := |old_| / NONCE_WORDS, SlotOf(s, c / 8) * 8 + c % 8;
    PlaceOfCell(n, width, offset, l, s, c);
    FlatLaneAt(source, width, l, NONCE_WORDS, cell);
    hide Place, FlatLane;
  }

  lemma PlaceOfCell(n: nat, width: nat, offset: nat, l: nat, s: nat, c: nat)
    requires l < width && s < NUM_SCOOPS && c < 16
    ensures var cell := SlotOf(s, c / 8) * 8 + c % 8;
      && cell < NONCE_WORDS && cell * width + l < NONCE_WORDS * width
      && Place(cell * width + l, width, offset, n) == ScoopPlace(s, offset + l, n) * 16 + c
  {
    hide Address;
    AddressOfCell(n, width, offset, l, s, c);
    WrapParts(s * n + (offset + l), c);
  }

  lemma AddressOfCell(n: nat, width: nat, offset: nat, l: nat, s: nat, c: nat)
    requires l < width && s < NUM_SCOOPS && c < 16
    ensures var cell := SlotOf(s, c / 8) * 8 + c % 8;
      && cell < NONCE_WORDS && cell * width + l < NONCE_WORDS * width
      && Address(cell * width + l, width, offset, n) == (s * n + (offset + l)) * 16 + c
  {
    var i, j := SlotOf(s, c / 8), c % 8;
    SlotParity(s, c / 8);
    EightCells(i, j);
    CellBound(i * 8 + j, l, NONCE_WORDS, width);
    DataOffsetIs(i, j, l, offset, n, s);
    hide DataOffset, SlotOf;
  }

  lemma WrapParts(p: nat, c: nat)
    requires c < 16
    ensures (p * 16 + c) % ADDRESS_RANGE == p % COLUMN_RANGE * 16 + c
  {
    DivParts(p, COLUMN_RANGE);
    DivModUnique(p * 16 + c, ADDRESS_RANGE, p / COLUMN_RANGE, p % COLUMN_RANGE * 16 + c);
  }

  // ----- where the check of the bounds wraps -----

  // Some cell goes to the last address. The bounds check adds four bytes to it and gets 0, so it
  // passes, and the cell is copied to outside the cache.
  ghost predicate Escapes(width: nat, offset: nat, n: nat, t: nat)
    requires width > 0 && t <= NONCE_WORDS * width
  {
    exists u :: 0 <= u < t && Place(u, width, offset, n) == ADDRESS_RANGE - 1
  }

  // Some scoop of a column goes to the last slot that there are addresses for.
  ghost predicate LeavesCache(width: nat, offset: nat, n: nat) {
    exists s, l :: 0 <= s < NUM_SCOOPS && 0 <= l < width && AtTheEnd(s, l, offset, n)
  }

  predicate AtTheEnd(s: nat, l: nat, offset: nat, n: nat) {
    ScoopPlace(s, offset + l, n) == COLUMN_RANGE - 1
  }

  lemma EscapesExactly(width: nat, offset: nat, n: nat)
    requires width > 0
    ensures Escapes(width, offset, n, NONCE_WORDS * width) <==> LeavesCache(width, offset, n)
  {
    hide Place, AtTheEnd;
    if s, l :| 0 <= s < NUM_SCOOPS && 0 <= l < width && AtTheEnd(s, l, offset, n) {
      PlaceOfEnd(s, l, width, offset, n);
    }
    if u :| 0 <= u < NONCE_WORDS * width && Place(u, width, offset, n) == ADDRESS_RANGE - 1 {
      CellOfPlace(u, width, offset, n);
    }
  }

  lemma PlaceOfEnd(s: nat, l: nat, width: nat, offset: nat, n: nat)
    requires s < NUM_SCOOPS && l < width && AtTheEnd(s, l, offset, n)
    ensures Escapes(width, offset, n, NONCE_WORDS * width)
  {
    hide Place;
    PlaceOfCell(n, width, offset, l, s, 15);
  }

  lemma CellOfPlace(u: nat, width: nat, offset: nat, n: nat)
    requires width > 0 && u < NONCE_WORDS * width && Place(u, width, offset, n) == ADDRESS_RANGE - 1
    ensures LeavesCache(width, offset, n)
  {
    hide DataOffset, SlotOf;
    QuotientBound(u, NONCE_WORDS, width);
    var i, j, k := u / width / 8, u / width % 8, u % width;
    var row := RowOfSlot(i);
    DataOffsetIs(i, j, k, offset, n, row);
    var p, c := row * n + (offset + k), i % 2 * 8 + j;
    WrapParts(p, c);
    assert AtTheEnd(row, k, offset, n);
  }

  lemma InColumnsStays(width: nat, offset: nat, n: nat, length: nat)
    requires width > 0 && offset + width <= n == length / NONCE_WORDS && length <= SLICE_LIMIT
    ensures !Escapes(width, offset, n, NONCE_WORDS * width)
  {
    hide Place, Address;
    forall u | 0 <= u < NONCE_WORDS * width
      ensures Place(u, width, offset, n) < ADDRESS_RANGE - 1
    {
      NoWrap(u, width, offset, n, length);
    }
  }

  lemma NextCells(i: nat, j: nat, width: nat)
    ensures (i * 8 + j) * width + width == (i * 8 + (j + 1)) * width
    ensures (i * 8 + 8) * width == (i + 1) * 8 * width
  {
    MulGap(i * 8 + j, 1, width);
  }

  // Cells beyond the target are skipped; when the columns fit, none is. With outside, a cell has
  // been copied to where the target is not.
  method UnpackShuffleScatter(source: seq<Word>, target: array<Word>, targetOffset: nat, width: nat)
    returns (ghost skipped: nat, ghost outside: bool)
    requires target.Length <= SLICE_LIMIT
    modifies target
    ensures width > 0 && |source| == NONCE_WORDS * width && targetOffset + width <= target.Length / NONCE_WORDS ==>
      skipped == 0 && !outside && target[..] == Scattered(old(target[..]), source, width, targetOffset)
    ensures 0 < width <= target.Length / NONCE_WORDS && |source| == NONCE_WORDS * width ==>
      && Spread(old(target[..]), target[..], source, width, targetOffset, |source|)
      && (outside <==> LeavesCache(width, targetOffset, target.Length / NONCE_WORDS))
  {
    hide Spread, Scattered, Escapes, LeavesCache;
    ghost var was, n := target[..], target.Length / NONCE_WORDS;
    ghost var regular := Regular(source, target.Length, width);
    skipped, outside := 0, false;
    if regular {
      SpreadNone(was, source, width, targetOffset);
      NothingEscapes(width, targetOffset, n);
    }
    for i := 0 to NUM_SCOOPS * 2
      invariant targetOffset + width <= n && regular ==> skipped == 0
      invariant regular ==> Passed(was, target[..], source, width, targetOffset, i * 8 * width, outside)
    {
      for j := 0 to 8
        invariant targetOffset + width <= n && regular ==> skipped == 0
        invariant regular ==> Passed(was, target[..], source, width, targetOffset, (i * 8 + j) * width, outside)
      {
        ghost var more;
        more, outside := ScatterCells(source, target, targetOffset, width, i, j, was, outside);
        skipped := skipped + more;
        NextCells(i, j, width);
      }
      NextCells(i, 8, width);
    }
    if regular {
      EscapesExactly(width, targetOffset, n);
    }
    if targetOffset + width <= n && regular {
      SpreadInColumns(was, target[..], source, width, targetOffset);
      InColumnsStays(width, targetOffset, n, target.Length);
    }
  }

  lemma NothingEscapes(width: nat, offset: nat, n: nat)
    requires width > 0
    ensures !Escapes(width, offset, n, 0)
  {
  }

  // As many nonces as the width says, and a cache of at least as many columns.
  ghost predicate Regular(source: seq<Word>, length: nat, width: nat) {
    0 < width <= length / NONCE_WORDS && length <= SLICE_LIMIT && |source| == NONCE_WORDS * width
  }

  // The first t cells have been gone through.
  ghost predicate Passed(was: seq<Word>, now: seq<Word>, source: seq<Word>, width: nat, offset: nat, t: nat,
                         outside: bool)
    requires Regular(source, |was|, width)
  {
    && Spread(was, now, source, width, offset, t) && t <= NONCE_WORDS * width
    && (outside <==> Escapes(width, offset, |was| / NONCE_WORDS, t))
  }

  // Cell j of slot i of every lane.
  method ScatterCells(source: seq<Word>, target: array<Word>, targetOffset: nat, width: nat, i: nat, j: nat,
                      ghost was: seq<Word>, ghost escaped: bool) returns (ghost skipped: nat, ghost outside: bool)
    requires i < NUM_SLOTS && j < 8 && |was| == target.Length <= SLICE_LIMIT
    requires Regular(source, |was|, width) ==>
      Passed(was, target[..], source, width, targetOffset, (i * 8 + j) * width, escaped)
    modifies target
    ensures Regular(source, |was|, width) ==>
      Passed(was, target[..], source, width, targetOffset, (i * 8 + j) * width + width, outside)
    ensures targetOffset + width <= |was| / NONCE_WORDS && Regular(source, |was|, width) ==> skipped == 0
  {
    hide Passed, DataOffset, Place, Regular;
    var targetSize := target.Length / NONCE_WORDS;
    ghost var regular := Regular(source, |was|, width);
    ghost var fits := regular && targetOffset + width <= targetSize;
    skipped, outside := 0, escaped;
    for k := 0 to width
      invariant fits ==> skipped == 0
      invariant regular ==> Passed(was, target[..], source, width, targetOffset, (i * 8 + j) * width + k, outside)
    {
      var dataOffset := DataOffset(i, j, k, targetOffset, targetSize) % ADDRESS_RANGE;
      var bufferOffset := (i * 8 + j) * width + k;
      PlaceOfStep(i, j, k, width, targetOffset, targetSize, bufferOffset);
      ghost var before := target[..];
      ghost var skip, left := CopyCell(source, target, dataOffset, bufferOffset);
      if regular {
        CellPassed(was, before, source, width, targetOffset, bufferOffset, outside);
      }
      if fits {
        CellFits(source, width, targetOffset, target.Length, bufferOffset);
      }
      skipped, outside := skipped + if skip then 1 else 0, outside || left;
    }
  }

  // The check lets the last address pass, because it adds to it first.
  method CopyCell(source: seq<Word>, target: array<Word>, dataOffset: nat, bufferOffset: nat)
    returns (ghost skip: bool, ghost left: bool)
    requires dataOffset < ADDRESS_RANGE && target.Length <= SLICE_LIMIT
    modifies target
    ensures target[..] == if dataOffset < target.Length && bufferOffset < |source|
                          then old(target[..])[dataOffset := source[bufferOffset]] else old(target[..])
    ensures dataOffset < target.Length && bufferOffset < |source| ==> !skip
    ensures left <==> dataOffset == ADDRESS_RANGE - 1 && bufferOffset < |source|
  {
    skip, left := false, false;
    if (dataOffset + 1) % ADDRESS_RANGE > target.Length || bufferOffset + 1 > |source| {
      skip := true;
    } else if dataOffset < target.Length {
      target[dataOffset] := source[bufferOffset];
    } else {
      left := true;
    }
  }

  lemma CellPassed(was: seq<Word>, now: seq<Word>, source: seq<Word>, width: nat, offset: nat, t: nat, escaped: bool)
    requires Regular(source, |was|, width) && t < NONCE_WORDS * width
    requires Passed(was, now, source, width, offset, t, escaped)
    ensures var x := Place(t, width, offset, |was| / NONCE_WORDS);
      && |now| == |was| && t < |source|
      && Passed(was, if x < |was| then now[x := source[t]] else now, source, width, offset, t + 1,
                escaped || x == ADDRESS_RANGE - 1)
  {
    hide Spread, Escapes, Place;
    SpreadLength(was, now, source, width, offset, t);
    SpreadStep(was, now, source, width, offset, t);
    EscapeStep(width, offset, |was| / NONCE_WORDS, t);
  }

  lemma SpreadLength(old_: seq<Word>, now: seq<Word>, source: seq<Word>, width: nat, offset: nat, t: nat)
    requires Spread(old_, now, source, width, offset, t)
    ensures |now| == |old_|
  {
  }

  lemma CellFits(source: seq<Word>, width: nat, offset: nat, length: nat, t: nat)
    requires Regular(source, length, width) && offset + width <= length / NONCE_WORDS && t < NONCE_WORDS * width
    ensures Place(t, width, offset, length / NONCE_WORDS) < length && t < |source|
  {
    hide Place;
    NoWrap(t, width, offset, length / NONCE_WORDS, length);
  }

  lemma EscapeStep(width: nat, offset: nat, n: nat, t: nat)
    requires width > 0 && t < NONCE_WORDS * width
    ensures Escapes(width, offset, n, t + 1)
       <==> Escapes(width, offset, n, t) || Place(t, width, offset, n) == ADDRESS_RANGE - 1
  {
    hide Place;
  }

  // ----- what the cache holds afterwards -----

  function CacheScoop(cache: seq<Word>, s: nat, column: nat): (r: seq<Word>)
    requires column < |cache| / NONCE_WORDS && s < NUM_SCOOPS
    ensures |r| == SCOOP_WORDS
  {
    var n := |cache| / NONCE_WORDS;
    CacheBound(|cache|, s, column);
    cache[(s * n + column) * 16..(s * n + column) * 16 + 16]
  }

  lemma CacheBound(length: nat, s: nat, column: nat)
    requires column < length / NONCE_WORDS && s < NUM_SCOOPS
    ensures (s * (length / NONCE_WORDS) + column) * 16 + 16 <= length
  {
    MulMono(s, 4096, length / NONCE_WORDS);
  }

  // Word c of it.
  lemma CacheWord(cache: seq<Word>, s: nat, column: nat, c: nat)
    requires column < |cache| / NONCE_WORDS && s < NUM_SCOOPS && c < 16
    ensures var n := |cache| / NONCE_WORDS;
      var x := (s * n + column) * 16 + c;
      && x < |cache| && CacheScoop(cache, s, column)[c] == cache[x]
      && RowOf(x, n) == s && ColumnOf(x, n) == column && x % 16 == c
  {
    CacheBound(|cache|, s, column);
    Decode(s, column, c, |cache| / NONCE_WORDS);
  }

  // Layout agreement: column offset + l of the cache holds, scoop by scoop, what extraction
  // returns for lane l; every other cell is as before.
  lemma ScatteredScoop(old_: seq<Word>, source: seq<Word>, width: nat, offset: nat, l: nat, s: nat)
    requires l < width && |source| == NONCE_WORDS * width && offset + width <= |old_| / NONCE_WORDS && s < NUM_SCOOPS
    ensures CacheScoop(Scattered(old_, source, width, offset), s, offset + l)
         == ScoopOf(FlatLane(source, width, l, NONCE_WORDS), s)
  {
    hide Placed, Scattered, FlatLane, ScoopOf;
    var r, nonce := Scattered(old_, source, width, offset), FlatLane(source, width, l, NONCE_WORDS);
    forall c | 0 <= c < 16
      ensures CacheScoop(r, s, offset + l)[c] == ScoopOf(nonce, s)[c]
    {
      CacheBound(|old_|, s, offset + l);
      ScatteredCell(old_, source, width, offset, l, s, c);
    }
  }

  lemma ScatteredCell(old_: seq<Word>, source: seq<Word>, width: nat, offset: nat, l: nat, s: nat, c: nat)
    requires l < width && |source| == NONCE_WORDS * width && offset + width <= |old_| / NONCE_WORDS
    requires s < NUM_SCOOPS && c < 16
    ensures var x := (s * (|old_| / NONCE_WORDS) + (offset + l)) * 16 + c;
      x < |old_| && Scattered(old_, source, width, offset)[x] == ScoopOf(FlatLane(source, width, l, NONCE_WORDS), s)[c]
  {
    hide Placed, RowOf, ColumnOf;
    var n := |old_| / NONCE_WORDS;
    var x := (s * n + (offset + l)) * 16 + c;
    CacheBound(|old_|, s, offset + l);
    Decode(s, offset + l, c, n);
    var cell := SlotOf(s, c / 8) * 8 + c % 8;
    assert x % 16 / 8 == c / 8 && x % 8 == c % 8 by { SameCell(x, c); }
    CellBound(cell, l, NONCE_WORDS, width);
    PlacedIn(old_, source, width, offset, n, x);
    ScoopCell(FlatLane(source, width, l, NONCE_WORDS), s, c);
  }

  lemma SameCell(x: nat, c: nat)
    requires x % 16 == c
    ensures x % 8 == c % 8
  {
  }

  lemma ScoopCell(nonce: seq<Word>, s: nat, c: nat)
    requires |nonce| == NONCE_WORDS && s < NUM_SCOOPS && c < 16
    ensures SlotOf(s, c / 8) * 8 + c % 8 < NONCE_WORDS
    ensures ScoopOf(nonce, s)[c] == nonce[SlotOf(s, c / 8) * 8 + c % 8]
  {
  }

  lemma PlacedIn(old_: seq<Word>, source: seq<Word>, width: nat, offset: nat, n: nat, x: nat)
    requires x < |old_| && InColumns(x, n, offset, offset + width)
    requires SourceIndex(x, width, offset, n) < |source|
    ensures Placed(old_, source, width, offset, n, x) == source[SourceIndex(x, width, offset, n)]
  {
  }

  lemma ScatteredElsewhere(old_: seq<Word>, source: seq<Word>, width: nat, offset: nat, x: nat)
    requires x < |old_| && !InColumns(x, |old_| / NONCE_WORDS, offset, offset + width)
    ensures Scattered(old_, source, width, offset)[x] == old_[x]
  {
  }
}
