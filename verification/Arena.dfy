/** The bump arena (runtime/src/allocator.rs). Arithmetic is checked: a request whose end does
    not fit a machine word panics. */
module Arena {
  import opened Ast
  import opened Integers
  import opened Memory

  const CHUNK_SIZE: nat := 0x1_0000
  const CHUNK_ALIGN: nat := 16

  // ---------------------------------------------------------------- rounding by masks

  /** `x & !m`, bit by bit. */
  function AndNot(x: nat, m: nat): (r: nat) {
    if x == 0 then 0 else (if m % 2 == 1 then 0 else x % 2) + 2 * AndNot(x / 2, m / 2)
  }

  function AlignUp(offset: nat, align: nat): nat
    requires align > 0
  {
    AndNot(offset + align - 1, align - 1)
  }

  /** Clearing the bits of a mask takes away at most the mask. */
  lemma {:induction false} AndNotBounds(x: nat, m: nat)
    ensures x - m <= AndNot(x, m) <= x
    decreases x
  {
    if x > 0 {
      AndNotBounds(x / 2, m / 2);
      assert x == 2 * (x / 2) + x % 2 && m == 2 * (m / 2) + m % 2;
    }
  }

  /** Exactly the bits of the mask are cleared. */
  lemma {:induction false} AndNotActsOnBits(x: nat, m: nat, k: nat)
    ensures BitAt(AndNot(x, m), k) <==> BitAt(x, k) && !BitAt(m, k)
    decreases x, k
  {
    hide BitAt;
    if x == 0 {
      ZeroHasNoBits(k);
    } else {
      var j := if k == 0 then 0 else k - 1;
      HalfBits(x, j);
      HalfBits(m, j);
      HalfBits(AndNot(x, m), j);
      AndNotActsOnBits(x / 2, m / 2, j);
    }
  }

  /** With the mask of a power of two it leaves a multiple of it. */
  lemma {:induction false} AndNotRounds(x: nat, k: nat)
    ensures AndNot(x, Power(k) - 1) % Power(k) == 0
    decreases k
  {
    hide AndNot, Power;
    if x == 0 {
      AndNotStep(x, Power(k) - 1);
      SmallRemainder(0, Power(k));
    } else if k == 0 {
      PowerIs(0);
    } else {
      var half, y := Power(k - 1), AndNot(x / 2, Power(k - 1) - 1);
      AndNotRounds(x / 2, k - 1);
      DoubleDivides(y, half);
      assert Power(k) == 2 * half && AndNot(x, Power(k) - 1) == 2 * y by {
        PowerIs(k - 1);
        MaskHalves(half);
        AndNotStep(x, 2 * half - 1);
      }
    }
  }

  lemma AndNotStep(x: nat, m: nat)
    ensures AndNot(x, m) == if x == 0 then 0 else (if m % 2 == 1 then 0 else x % 2) + 2 * AndNot(x / 2, m / 2)
  {
  }

  lemma MaskHalves(half: nat)
    requires half > 0
    ensures (2 * half - 1) / 2 == half - 1 && (2 * half - 1) % 2 == 1
  {
  }

  lemma DoubleDivides(y: nat, half: nat)
    requires half > 0 && y % half == 0
    ensures (2 * y) % (2 * half) == 0
  {
    DivMod(y, half);
    assert 2 * y == (y / half) * (2 * half);
    MultipleDivides(y / half, 2 * half);
  }

  lemma AlignUpBounds(offset: nat, align: nat)
    requires align > 0
    ensures offset <= AlignUp(offset, align) <= offset + align - 1
  {
    AndNotBounds(offset + align - 1, align - 1);
  }

  lemma {:induction false} PowersDivide(j: nat, k: nat)
    requires j <= k
    ensures Divides(Power(j), Power(k))
    decreases k
  {
    if j < k {
      PowersDivide(j, k - 1);
      assert Power(k) == 2 * Power(k - 1);
      assert Divides(Power(k - 1), Power(k));
      DividesThrough(Power(j), Power(k - 1), Power(k));
    } else {
      assert Power(k) == 1 * Power(j);
    }
  }

  /** A rounded offset into a chunk at `base` is an aligned address. */
  predicate LandsAligned(base: Address, offset: nat, align: nat)
    requires align > 0
  {
    (base + AlignUp(offset, align)) % align == 0
  }

  /** For a power of two, a rounded offset into a chunk is aligned whatever the chunk's address
      exactly when the alignment is at most the chunk's own. */
  lemma AlignmentIsGuaranteed(align: nat)
    requires PowerOfTwo(align)
    ensures (forall base: nat, offset: nat :: base % CHUNK_ALIGN == 0 ==> LandsAligned(base, offset, align))
            <==> align <= CHUNK_ALIGN
  {
    hide AlignUp, Power;
    PowerOfTwoIsPower(align);
    var k: nat :| align == Power(k);
    SixteenIsPower();
    if k <= 4 {
      if k < 4 { PowerGrows(k, 4); }
      forall base: nat, offset: nat | base % CHUNK_ALIGN == 0 ensures LandsAligned(base, offset, align) {
        RoundedIsAligned(base, offset, k);
      }
    } else {
      PowerGrows(4, k);
      ZeroIsAligned(align);
      SmallRemainder(CHUNK_ALIGN, align);
      assert CHUNK_ALIGN % CHUNK_ALIGN == 0 && !LandsAligned(CHUNK_ALIGN, 0, align);
    }
  }

  lemma ZeroIsAligned(align: nat)
    requires align > 0 && PowerOfTwo(align)
    ensures AlignUp(0, align) == 0
  {
    hide AndNot, Power;
    PowerOfTwoIsPower(align);
    var k: nat :| align == Power(k);
    AlignUpBounds(0, align);
    AndNotRounds(align - 1, k);
    SmallRemainder(AlignUp(0, align), align);
  }

  lemma RoundedIsAligned(base: nat, offset: nat, k: nat)
    requires k <= 4 && base % CHUNK_ALIGN == 0
    ensures (base + AlignUp(offset, Power(k))) % Power(k) == 0
  {
    hide AndNot, Power, Divides;
    var align := Power(k);
    AndNotRounds(offset + align - 1, k);
    SixteenIsPower();
    PowersDivide(k, 4);
    ModDivides(CHUNK_ALIGN, base);
    DividesThrough(align, CHUNK_ALIGN, base);
    ModDivides(align, AlignUp(offset, align));
    DividesSum(align, base, AlignUp(offset, align));
    ModDivides(align, base + AlignUp(offset, align));
  }

  lemma SixteenIsPower()
    ensures Power(4) == CHUNK_ALIGN
  {
    assert Power(3) == 8;
  }

  function ChunkSizeFor(size: nat, align: nat): nat { if CHUNK_SIZE > size + align then CHUNK_SIZE else size + align }

  /** A request panics: alignment 0, a sum that does not fit a machine word, or a chunk whose size
      is no layout. */
  predicate Panics(offset: nat, capacity: nat, size: nat, align: nat) {
    || align == 0
    || offset + align - 1 > U64_MAX
    || AlignUp(offset, align) + size > U64_MAX
    || (AlignUp(offset, align) + size > capacity
        && (size + align > U64_MAX || !IsLayout(Layout(ChunkSizeFor(size, align), CHUNK_ALIGN))))
  }

  // ---------------------------------------------------------------- the arena

  datatype Piece = Piece(start: Address, size: nat, align: nat)

  datatype Chunk = Chunk(start: Address, layout: Layout)

  predicate Within(b: Piece, c: Chunk) { c.start <= b.start && b.start + b.size <= c.start + c.layout.size }

  function SizeOf(blocks: seq<Piece>): nat {
    if blocks == [] then 0 else SizeOf(blocks[..|blocks| - 1]) + blocks[|blocks| - 1].size
  }

  function SizeOfChunks(chunks: seq<Chunk>): nat {
    if chunks == [] then 0 else SizeOfChunks(chunks[..|chunks| - 1]) + chunks[|chunks| - 1].layout.size
  }

  /** Each block lies inside a chunk, in the last one below `end`. */
  predicate AllWithin(given: seq<Piece>, chunks: seq<Chunk>, end: nat) {
    forall i :: 0 <= i < |given| ==> IsWithin(given[i], chunks, end)
  }

  predicate IsWithin(b: Piece, chunks: seq<Chunk>, end: nat) {
    exists c :: 0 <= c < |chunks| && Within(b, chunks[c]) && (c == |chunks| - 1 ==> b.start + b.size <= end)
  }

  predicate AllApart(given: seq<Piece>) {
    forall i, j :: 0 <= i < j < |given| ==> Apart(given[i].start, given[i].size, given[j].start, given[j].size)
  }

  ghost predicate IsAligned(b: Piece) { PowerOfTwo(b.align) && b.align <= CHUNK_ALIGN ==> b.start % b.align == 0 }

  ghost predicate AllAligned(given: seq<Piece>) { forall i :: 0 <= i < |given| ==> IsAligned(given[i]) }

  lemma GivenNext(given: seq<Piece>, b: Piece, chunks: seq<Chunk>, from: nat, end: nat)
    requires chunks != [] && AllWithin(given, chunks, from) && AllApart(given) && AllAligned(given) && IsAligned(b)
    requires var c := chunks[|chunks| - 1];
             c.start <= from <= b.start && b.start + b.size == end <= c.start + c.layout.size
    requires forall i :: 0 <= i < |chunks| - 1 ==>
               var c := chunks[|chunks| - 1];
               Apart(chunks[i].start, chunks[i].layout.size, c.start, c.layout.size)
    ensures AllWithin(given + [b], chunks, end) && AllApart(given + [b]) && AllAligned(given + [b])
  {
    var last := |chunks| - 1;
    forall i | 0 <= i < |given|
      ensures Apart(given[i].start, given[i].size, b.start, b.size) && IsWithin(given[i], chunks, end)
    {
      assert IsWithin(given[i], chunks, from);
    }
    assert IsWithin(b, chunks, end) by { assert Within(b, chunks[last]); }
  }

  class ArenaAllocator {
    const system: System
    var chunks: seq<Chunk>
    var current: Address
    var offset: nat
    var capacity: nat
    /** The blocks given out since the last reset. */
    ghost var given: seq<Piece>

    ghost predicate Valid()
      reads this, system
    {
      && system.Valid() && chunks != []
      && (forall i :: 0 <= i < |chunks| ==>
            chunks[i].start in system.blocks && system.blocks[chunks[i].start] == chunks[i].layout
            && chunks[i].layout.align == CHUNK_ALIGN)
      && (forall i, j :: 0 <= i < j < |chunks| ==> chunks[i].start != chunks[j].start)
      && current == chunks[|chunks| - 1].start && capacity == chunks[|chunks| - 1].layout.size && offset <= capacity
      && AllWithin(given, chunks, current + offset) && AllApart(given) && AllAligned(given)
      && SizeOf(given) <= SizeOfChunks(chunks[..|chunks| - 1]) + offset
    }

    constructor (system: System)
      requires system.Valid()
      modifies system
      ensures Valid() && this.system == system && given == [] && |chunks| == 1 && offset == 0 && capacity == CHUNK_SIZE
      ensures chunks[0].start !in old(system.blocks) && system.mismatches == old(system.mismatches)
      ensures system.blocks == old(system.blocks)[chunks[0].start := Layout(CHUNK_SIZE, CHUNK_ALIGN)]
    {
      this.system := system;
      var p := system.Allocate(Layout(CHUNK_SIZE, CHUNK_ALIGN));
      chunks := [Chunk(p, Layout(CHUNK_SIZE, CHUNK_ALIGN))];
      current, offset, capacity, given := p, 0, CHUNK_SIZE, [];
    }

    /** Gives out a block inside one chunk, apart from every block given out since the last
        reset, and aligned if the alignment is a power of two up to the chunks' own. */
    method Alloc(size: nat, align: nat) returns (r: Option<Address>)
      requires Valid()
      modifies this, system
      ensures Valid()
      ensures r.None? ==>
                && given == old(given) && chunks == old(chunks) && offset == old(offset)
                && system.blocks == old(system.blocks)
      ensures r.Some? ==> align > 0 && given == old(given) + [Piece(r.value, size, align)] && old(chunks) <= chunks
      ensures r.Some? ==>
                var aligned := AlignUp(old(offset), align);
                if aligned + size <= old(capacity) then
                  r.value == old(current) + aligned && chunks == old(chunks) && offset == aligned + size
                else
                  r.value == current && |chunks| == |old(chunks)| + 1 && offset == size
                  && capacity == (if size + align < 0x1_0000 then 0x1_0000 else size + align)
      ensures r.None? <==> Panics(old(offset), old(capacity), size, align)
      ensures align > 0 && old(offset) + size + align <= LAYOUT_MAX - CHUNK_ALIGN ==> r.Some?
      ensures system.mismatches == old(system.mismatches)
    {
      hide AlignUp, IsAligned, AllWithin, AllApart, AllAligned, SizeOf, SizeOfChunks, System.Valid;
      if align == 0 || offset + align - 1 > U64_MAX { return None; }
      var aligned := AlignUp(offset, align);
      AlignUpBounds(offset, align);
      if aligned + size > U64_MAX { return None; }
      if aligned + size <= capacity {
        r := Some(current + aligned);
        GiveAligned(size, align, aligned);
        Give(Piece(current + aligned, size, align), aligned + size);
        return;
      }
      if size + align > U64_MAX { return None; }
      var chunkSize := ChunkSizeFor(size, align);
      if !IsLayout(Layout(chunkSize, CHUNK_ALIGN)) { return None; }
      AddChunk(chunkSize);
      r := Some(current);
      GiveAligned(size, align, 0);
      Give(Piece(current, size, align), size);
    }

    /** Alignment within the current chunk. */
    lemma GiveAligned(size: nat, align: nat, at: nat)
      requires Valid() && align > 0 && (at == 0 || at == AlignUp(offset, align))
      ensures IsAligned(Piece(current + at, size, align))
    {
      hide AlignUp;
      if PowerOfTwo(align) && align <= CHUNK_ALIGN {
        assert current % CHUNK_ALIGN == 0;
        AlignmentIsGuaranteed(align);
        ZeroIsAligned(align);
        assert LandsAligned(current, 0, align) && LandsAligned(current, offset, align);
      }
    }

    lemma ChunksApart(i: nat, j: nat)
      requires Valid() && i < j < |chunks|
      ensures Apart(chunks[i].start, chunks[i].layout.size, chunks[j].start, chunks[j].layout.size)
    {
    }

    /** The next block of the current chunk, at or behind the bump offset. */
    method Give(b: Piece, end: nat)
      requires Valid() && current + offset <= b.start && b.start + b.size == current + end && end <= capacity
      requires IsAligned(b)
      modifies this`offset, this`given
      ensures Valid() && given == old(given) + [b] && offset == end
    {
      hide System.Valid, Within, IsAligned, SizeOfChunks;
      ghost var last := |chunks| - 1;
      forall i | 0 <= i < last
        ensures Apart(chunks[i].start, chunks[i].layout.size, chunks[last].start, chunks[last].layout.size)
      {
        ChunksApart(i, last);
      }
      GivenNext(given, b, chunks, current + offset, current + end);
      assert (given + [b])[..|given|] == given;
      given := given + [b];
      offset := end;
    }

    /** A fresh chunk becomes the current one. */
    method AddChunk(size: nat)
      requires Valid()
      modifies this, system`blocks
      ensures Valid() && given == old(given) && offset == 0 && capacity == size
      ensures old(chunks) <= chunks && |chunks| == |old(chunks)| + 1
    {
      var p := system.Allocate(Layout(size, CHUNK_ALIGN));
      ghost var before := chunks;
      chunks := chunks + [Chunk(p, Layout(size, CHUNK_ALIGN))];
      assert chunks[..|chunks| - 1] == before;
      assert SizeOfChunks(before) == SizeOfChunks(before[..|before| - 1]) + capacity;
      forall i | 0 <= i < |given| ensures IsWithin(given[i], chunks, p) {
        assert IsWithin(given[i], before, current + offset);
        var c :| 0 <= c < |before| && Within(given[i], before[c]);
        assert Within(given[i], chunks[c]);
      }
      current, capacity, offset := p, size, 0;
    }

    /** Gives back all chunks but the first, each with its own layout, and starts over. */
    method Reset()
      requires Valid()
      modifies this, system
      ensures Valid() && given == [] && chunks == old(chunks)[..1] && offset == 0 && BytesUsed() == 0
      ensures system.mismatches == old(system.mismatches)
    {
      given := [];
      while |chunks| > 1
        invariant system.Valid() && 1 <= |chunks| <= |old(chunks)| && chunks == old(chunks)[..|chunks|]
        invariant given == [] && system.mismatches == old(system.mismatches)
        invariant forall i :: 0 <= i < |chunks| ==>
                    chunks[i].start in system.blocks && system.blocks[chunks[i].start] == chunks[i].layout
        decreases |chunks|
      {
        var last := chunks[|chunks| - 1];
        chunks := chunks[..|chunks| - 1];
        system.Free(last.start, last.layout);
      }
      current, capacity, offset := chunks[0].start, chunks[0].layout.size, 0;
    }

    function BytesUsed(): nat
      requires chunks != []
      reads this
    {
      SizeOfChunks(chunks[..|chunks| - 1]) + offset
    }

    /** Since the last reset every block lies inside one chunk, no two overlap, each is aligned
        as asked up to 16, and the arena accounts for at least their sizes. */
    lemma BlocksAreSafe(i: nat)
      requires Valid() && i < |given|
      ensures forall j :: 0 <= j < |given| && j != i ==>
                Apart(given[i].start, given[i].size, given[j].start, given[j].size)
      ensures exists c :: 0 <= c < |chunks| && Within(given[i], chunks[c])
      ensures IsAligned(given[i]) && SizeOf(given) <= BytesUsed()
    {
      assert IsWithin(given[i], chunks, current + offset);
    }

    /** Dropping the arena gives back every chunk with its own layout. */
    method Drop()
      requires Valid()
      modifies system
      ensures system.Valid() && system.mismatches == old(system.mismatches)
      ensures forall c :: 0 <= c < |chunks| ==> chunks[c].start !in system.blocks
    {
      var i := 0;
      while i < |chunks|
        invariant i <= |chunks| && system.Valid() && system.mismatches == old(system.mismatches)
        invariant forall c :: 0 <= c < i ==> chunks[c].start !in system.blocks
        invariant forall c :: i <= c < |chunks| ==>
                    chunks[c].start in system.blocks && system.blocks[chunks[c].start] == chunks[c].layout
      {
        system.Free(chunks[i].start, chunks[i].layout);
        i := i + 1;
      }
    }
  }
}
