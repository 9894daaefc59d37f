/** The size-class pool (runtime/src/allocator.rs). */
module Pool {
  import opened Ast
  import Integers
  import opened Memory

  const SIZE_CLASSES: seq<nat> := [16, 32, 64, 128, 256, 512, 1024, 2048]
  const MAX_FREE_PER_CLASS: nat := 256
  const CLASSES: nat := 8
  const MIN_ALIGN: nat := 8

  /** The first class that holds a size. */
  function ClassIndex(size: nat): (c: Option<nat>)
    ensures c.Some? ==> c.value < CLASSES && size <= SIZE_CLASSES[c.value]
    ensures c.Some? ==> forall i :: 0 <= i < c.value ==> SIZE_CLASSES[i] < size
    ensures c.None? <==> size > 2048
  {
    if size <= 16 then Some(0)
    else if size <= 32 then Some(1)
    else if size <= 64 then Some(2)
    else if size <= 128 then Some(3)
    else if size <= 256 then Some(4)
    else if size <= 512 then Some(5)
    else if size <= 1024 then Some(6)
    else if size <= 2048 then Some(7)
    else None
  }

  method FindClass(size: nat) returns (c: Option<nat>)
    ensures c == ClassIndex(size)
  {
    var i := 0;
    while i < CLASSES
      invariant i <= CLASSES && forall k :: 0 <= k < i ==> SIZE_CLASSES[k] < size
    {
      if SIZE_CLASSES[i] >= size { return Some(i); }
      i := i + 1;
    }
    c := None;
  }

  function AtLeast(align: nat): (a: nat)
    ensures a >= MIN_ALIGN && a >= align && (a == MIN_ALIGN || a == align)
  {
    if align > MIN_ALIGN then align else MIN_ALIGN
  }

  /** The size of the system block behind a request. */
  function BlockSize(size: nat): (n: nat)
    ensures size <= n
  {
    if ClassIndex(size).Some? then SIZE_CLASSES[ClassIndex(size).value] else size
  }

  /** It is the least class that holds the request, or the size itself where there is none. */
  lemma BlockSizeIsLeast(size: nat, limit: nat)
    requires limit in SIZE_CLASSES
    ensures size <= limit ==> BlockSize(size) <= limit && BlockSize(size) in SIZE_CLASSES
    ensures BlockSize(size) == size || BlockSize(size) in SIZE_CLASSES
    ensures size > 2048 ==> BlockSize(size) == size
  {
  }

  function LayoutOf(size: nat, align: nat): Layout { Layout(BlockSize(size), AtLeast(align)) }

  type FreeLists = seq<seq<Address>>

  /** A request of this size is served from the cache. */
  predicate Reuses(lists: FreeLists, size: nat) {
    var c := ClassIndex(size);
    c.Some? && c.value < |lists| && lists[c.value] != []
  }

  /** A block of this size goes to the cache. */
  predicate CachesMore(lists: FreeLists, size: nat) {
    var c := ClassIndex(size);
    c.Some? && c.value < |lists| && |lists[c.value]| < MAX_FREE_PER_CLASS
  }

  predicate Cached(lists: FreeLists, p: Address) { exists i :: 0 <= i < |lists| && p in lists[i] }

  function CachedCount(lists: FreeLists): nat {
    if lists == [] then 0 else CachedCount(lists[..|lists| - 1]) + |lists[|lists| - 1]|
  }

  /** No block is cached twice, in one class or in two. */
  predicate NoneTwice(lists: FreeLists) {
    && (forall i, j, k :: 0 <= i < |lists| && 0 <= j < k < |lists[i]| ==> lists[i][j] != lists[i][k])
    && (forall i, j, p :: 0 <= i < j < |lists| && p in lists[i] ==> p !in lists[j])
  }

  lemma {:induction false} CountUpdate(lists: FreeLists, i: nat, l: seq<Address>)
    requires i < |lists|
    ensures CachedCount(lists[i := l]) == CachedCount(lists) - |lists[i]| + |l|
    ensures CachedCount(lists) >= |lists[i]|
    decreases |lists|
  {
    var n := |lists| - 1;
    if i == n {
      assert lists[i := l][..n] == lists[..n];
    } else {
      CountUpdate(lists[..n], i, l);
      assert lists[i := l][..n] == lists[..n][i := l];
    }
  }

  lemma PopKeeps(lists: FreeLists, i: nat)
    requires i < |lists| && lists[i] != [] && NoneTwice(lists)
    ensures var p := lists[i][|lists[i]| - 1];
            var rest := lists[i := lists[i][..|lists[i]| - 1]];
            && NoneTwice(rest) && !Cached(rest, p) && Cached(lists, p)
            && CachedCount(rest) == CachedCount(lists) - 1
            && forall q :: q != p ==> (Cached(rest, q) <==> Cached(lists, q))
  {
    var l := lists[i];
    var p, rest := l[|l| - 1], lists[i := l[..|l| - 1]];
    CountUpdate(lists, i, l[..|l| - 1]);
    assert p in lists[i];
    forall q | q != p ensures Cached(rest, q) <==> Cached(lists, q) {
      if Cached(lists, q) {
        var j :| 0 <= j < |lists| && q in lists[j];
        assert q in rest[j];
      }
      if Cached(rest, q) {
        var j :| 0 <= j < |rest| && q in rest[j];
        assert q in lists[j];
      }
    }
    forall j, q | 0 <= j < |rest| && q in rest[j] ensures q in lists[j] && (j == i ==> q != p) {}
  }

  lemma PushKeeps(lists: FreeLists, i: nat, p: Address)
    requires i < |lists| && NoneTwice(lists) && !Cached(lists, p)
    ensures var more := lists[i := lists[i] + [p]];
            && NoneTwice(more) && CachedCount(more) == CachedCount(lists) + 1
            && forall q :: Cached(more, q) <==> q == p || Cached(lists, q)
  {
    var more := lists[i := lists[i] + [p]];
    CountUpdate(lists, i, lists[i] + [p]);
    assert forall j :: 0 <= j < |lists| ==> p !in lists[j];
    forall q ensures Cached(more, q) <==> q == p || Cached(lists, q) {
      assert p in more[i];
      if Cached(lists, q) {
        var j :| 0 <= j < |lists| && q in lists[j];
        assert q in more[j];
      }
      if Cached(more, q) && q != p {
        var j :| 0 <= j < |more| && q in more[j];
        assert q in lists[j];
      }
    }
  }

  lemma EmptyKeeps(lists: FreeLists, i: nat)
    requires i < |lists| && NoneTwice(lists)
    ensures var rest := lists[i := []];
            && NoneTwice(rest) && CachedCount(rest) == CachedCount(lists) - |lists[i]|
            && (forall q :: Cached(rest, q) ==> Cached(lists, q))
            && (forall q :: q in lists[i] ==> !Cached(rest, q) && Cached(lists, q))
  {
    CountUpdate(lists, i, []);
    var rest := lists[i := []];
    forall q | Cached(rest, q) ensures Cached(lists, q) && q !in lists[i] {
      var j :| 0 <= j < |rest| && q in rest[j];
      assert q in lists[j];
    }
  }

  /** What a caller asked for. */
  datatype Request = Request(size: nat, align: nat)

  type Blocks = map<Address, Layout>

  /** Every live block is the system's, as large as its request's class, and not cached; every
      cached block is the system's, of its class's size, and cached once; all have the minimum
      alignment; no class caches more than its limit. */
  predicate Sound(lists: FreeLists, live: map<Address, Request>, blocks: Blocks) {
    && |lists| == CLASSES && NoneTwice(lists)
    && (forall i :: 0 <= i < CLASSES ==> |lists[i]| <= MAX_FREE_PER_CLASS)
    && (forall p :: p in live ==> p in blocks && blocks[p].size == BlockSize(live[p].size) && !Cached(lists, p))
    && (forall p :: p in live ==> p % MIN_ALIGN == 0)
    && (forall i, p :: 0 <= i < CLASSES && p in lists[i] ==> p in blocks && blocks[p].size == SIZE_CLASSES[i])
    && (forall i, p :: 0 <= i < CLASSES && p in lists[i] ==> p % MIN_ALIGN == 0)
  }

  /** All the pool's blocks have the minimum alignment. */
  ghost predicate Plain(lists: FreeLists, live: map<Address, Request>, blocks: Blocks) {
    forall p :: p in live || Cached(lists, p) ==> p in blocks && blocks[p].align == MIN_ALIGN
  }

  predicate AllPlain(l: seq<Address>,
                     blocks: Blocks) { forall p :: p in l ==> p in blocks && blocks[p].align == MIN_ALIGN }

  lemma ReuseKeepsSound(lists: FreeLists, live: map<Address, Request>, blocks: Blocks, size: nat, align: nat)
    requires Sound(lists, live, blocks) && ClassIndex(size).Some? && lists[ClassIndex(size).value] != []
    ensures var c := ClassIndex(size).value;
            var p := lists[c][|lists[c]| - 1];
            var rest, more := lists[c := lists[c][..|lists[c]| - 1]], live[p := Request(size, align)];
            && p !in live && p in blocks && p % MIN_ALIGN == 0 && Sound(rest, more, blocks)
            && |more| + CachedCount(rest) == |live| + CachedCount(lists)
            && (Plain(lists, live, blocks) ==> Plain(rest, more, blocks))
  {
    hide ClassIndex, NoneTwice, CachedCount, Cached, BlockSize, Sound, Plain;
    var c := ClassIndex(size).value;
    SoundLength(lists, live, blocks);
    UncacheKeepsSound(lists, live, blocks, c);
    BlockSizeOfClass(size);
    var l := lists[c];
    AdoptKeepsSound(lists[c := l[..|l| - 1]], live, blocks, l[|l| - 1], Request(size, align));
  }

  lemma UncacheKeepsSound(lists: FreeLists, live: map<Address, Request>, blocks: Blocks, c: nat)
    requires Sound(lists, live, blocks) && c < CLASSES && lists[c] != []
    ensures var p := lists[c][|lists[c]| - 1];
            var rest := lists[c := lists[c][..|lists[c]| - 1]];
            && p !in live && p in blocks && blocks[p].size == SIZE_CLASSES[c] && p % MIN_ALIGN == 0 && !Cached(rest, p)
            && Sound(rest, live, blocks) && CachedCount(rest) == CachedCount(lists) - 1
            && (Plain(lists, live, blocks) ==> Plain(rest, live, blocks) && blocks[p].align == MIN_ALIGN)
  {
    hide ClassIndex, NoneTwice, CachedCount, Cached, BlockSize;
    PopKeeps(lists, c);
    var rest := lists[c := lists[c][..|lists[c]| - 1]];
    forall k, q | 0 <= k < CLASSES && q in rest[k] ensures q in lists[k] {}
  }

  lemma AdoptKeepsSound(lists: FreeLists, live: map<Address, Request>, blocks: Blocks, p: Address, r: Request)
    requires Sound(lists, live, blocks) && p !in live && !Cached(lists, p)
    requires p in blocks && blocks[p].size == BlockSize(r.size) && p % MIN_ALIGN == 0
    ensures Sound(lists, live[p := r], blocks) && |live[p := r]| == |live| + 1
    ensures Plain(lists, live, blocks) && blocks[p].align == MIN_ALIGN ==> Plain(lists, live[p := r], blocks)
  {
    hide ClassIndex, NoneTwice, Cached, BlockSize;
    SizeNext(live, p, r);
  }

  lemma BlockSizeOfClass(size: nat)
    requires ClassIndex(size).Some?
    ensures BlockSize(size) == SIZE_CLASSES[ClassIndex(size).value]
  {
  }

  lemma SizeNext(live: map<Address, Request>, p: Address, r: Request)
    requires p !in live
    ensures |live[p := r]| == |live| + 1
  {
    assert live[p := r].Keys == live.Keys + {p};
    assert |live[p := r].Keys| == |live.Keys| + 1;
  }

  lemma TakeKeepsSound(lists: FreeLists, live: map<Address, Request>, blocks: Blocks, p: Address, size: nat, align: nat)
    requires Sound(lists, live, blocks) && p !in blocks && p % MIN_ALIGN == 0
    ensures var more := live[p := Request(size, align)];
            && p !in live && Sound(lists, more, blocks[p := LayoutOf(size, align)]) && |more| == |live| + 1
            && (Plain(lists, live, blocks) && align <= MIN_ALIGN ==>
                  Plain(lists, more, blocks[p := LayoutOf(size, align)]))
  {
    hide ClassIndex, NoneTwice, BlockSize;
    SizeNext(live, p, Request(size, align));
    assert !Cached(lists, p);
  }

  lemma CacheKeepsSound(lists: FreeLists, live: map<Address, Request>, blocks: Blocks, p: Address)
    requires Sound(lists, live, blocks) && p in live && ClassIndex(live[p].size).Some?
    requires |lists[ClassIndex(live[p].size).value]| < MAX_FREE_PER_CLASS
    ensures var c := ClassIndex(live[p].size).value;
            var more, rest := lists[c := lists[c] + [p]], live - {p};
            && Sound(more, rest, blocks) && |rest| + CachedCount(more) == |live| + CachedCount(lists)
            && (Plain(lists, live, blocks) ==> Plain(more, rest, blocks))
  {
    var c := ClassIndex(live[p].size).value;
    BlockSizeOfClass(live[p].size);
    hide ClassIndex, NoneTwice, CachedCount, Cached, BlockSize;
    var rest := live - {p};
    assert rest.Keys == live.Keys - {p} && |rest.Keys| == |live.Keys| - 1;
    EnterKeepsSound(lists, rest, blocks, c, p);
  }

  /** A block in nobody's hands enters the cache. */
  lemma EnterKeepsSound(lists: FreeLists, live: map<Address, Request>, blocks: Blocks, c: nat, p: Address)
    requires Sound(lists, live, blocks) && c < CLASSES && |lists[c]| < MAX_FREE_PER_CLASS
    requires p !in live && !Cached(lists, p) && p % MIN_ALIGN == 0
    requires p in blocks && blocks[p].size == SIZE_CLASSES[c]
    ensures var more := lists[c := lists[c] + [p]];
            && Sound(more, live, blocks) && CachedCount(more) == CachedCount(lists) + 1
            && (Plain(lists, live, blocks) && blocks[p].align == MIN_ALIGN ==> Plain(more, live, blocks))
  {
    hide ClassIndex, NoneTwice, CachedCount, Cached, BlockSize;
    PushKeeps(lists, c, p);
  }

  lemma ReleaseKeepsSound(lists: FreeLists, live: map<Address, Request>, blocks: Blocks, p: Address)
    requires Sound(lists, live, blocks) && p in live
    ensures p in blocks && blocks[p].size == BlockSize(live[p].size)
    ensures var rest := live - {p};
            && Sound(lists, rest, blocks - {p}) && |rest| == |live| - 1
            && (Plain(lists, live, blocks) ==> Plain(lists, rest, blocks - {p}))
  {
    hide ClassIndex, NoneTwice, BlockSize;
    var rest := live - {p};
    assert rest.Keys == live.Keys - {p} && |rest.Keys| == |live.Keys| - 1;
    forall q | q in rest || Cached(lists, q) ensures q != p {}
  }

  lemma DrainKeepsSound(lists: FreeLists, live: map<Address, Request>, blocks: Blocks, i: nat)
    requires Sound(lists, live, blocks) && i < CLASSES
    ensures var rest, left := lists[i := []], blocks - (set p | p in lists[i]);
            && Sound(rest, live, left) && CachedCount(rest) == CachedCount(lists) - |lists[i]|
            && (Plain(lists, live, blocks) ==> Plain(rest, live, left))
  {
    hide ClassIndex, CachedCount, BlockSize;
    EmptyKeeps(lists, i);
    var rest, left := lists[i := []], blocks - (set p | p in lists[i]);
    forall k, p | 0 <= k < CLASSES && p in rest[k] ensures p in left && left[p] == blocks[p] {
      assert p in lists[k];
      assert Cached(rest, p);
    }
    forall p | Cached(rest, p) ensures p in left && left[p] == blocks[p] {
      var k :| 0 <= k < |rest| && p in rest[k];
    }
    forall p | p in live ensures p in left && left[p] == blocks[p] && !Cached(rest, p) {
      assert p in lists[i] ==> Cached(lists, p);
    }
  }

  class SizeClassAllocator {
    const system: System
    var freeLists: FreeLists
    var allocCount: nat
    var reuseCount: nat
    /** Blocks in the callers' hands, and what they were asked as. */
    ghost var live: map<Address, Request>
    ghost var calls: nat
    ghost var taken: nat
    ghost var freed: nat
    /** Calls that panicked because no layout has the size and alignment asked for. */
    ghost var failed: nat
    /** Whether no request so far asked for more than the minimum alignment. */
    ghost var modest: bool
    /** The mismatches the system had seen before. */
    ghost var baseline: nat

    ghost predicate Valid()
      reads this, system
    {
      && system.Valid() && Sound(freeLists, live, system.blocks)
      && allocCount + reuseCount == calls && taken + failed == allocCount
      && taken - freed == |live| + CachedCount(freeLists)
      && (modest ==> system.mismatches == baseline && Plain(freeLists, live, system.blocks))
    }

    constructor (system: System)
      requires system.Valid()
      ensures Valid() && this.system == system && live == map[] && modest && baseline == system.mismatches
      ensures allocCount == 0 && reuseCount == 0 && freeLists == seq(CLASSES, _ => [])
    {
      this.system := system;
      freeLists := seq(CLASSES, _ => []);
      allocCount, reuseCount, live, calls, taken, freed, failed, modest := 0, 0, map[], 0, 0, 0, 0, true;
      baseline := system.mismatches;
      new;
      NothingCached(freeLists);
    }

    /** Reuses the block cached last in the size's class, or takes one from the system, which
        panics when the layout is none. The block is aligned to 8, and as asked if it is new. */
    method Allocate(size: nat, align: nat) returns (r: Option<Address>)
      requires Valid()
      modifies this, system
      ensures Valid() && baseline == old(baseline)
      ensures system.mismatches == old(system.mismatches) && calls == old(calls) + 1
      ensures r.None? <==> !Reuses(old(freeLists), size) && !IsLayout(LayoutOf(size, align))
      ensures r.None? ==>
                && live == old(live) && modest == old(modest) && freeLists == old(freeLists)
                && system.blocks == old(system.blocks) && allocCount == old(allocCount) + 1
      ensures r.Some? ==>
                && r.value !in old(live) && live == old(live)[r.value := Request(size, align)]
                && modest == (old(modest) && align <= MIN_ALIGN) && r.value % MIN_ALIGN == 0
      ensures r.Some? ==>
                if Reuses(old(freeLists), size) then
                  var c := ClassIndex(size).value;
                  var l := old(freeLists)[c];
                  && r.value == l[|l| - 1] && freeLists == old(freeLists)[c := l[..|l| - 1]]
                  && reuseCount == old(reuseCount) + 1 && system.blocks == old(system.blocks)
                else
                  && freeLists == old(freeLists) && allocCount == old(allocCount) + 1
                  && r.value % AtLeast(align) == 0
                  && system.blocks == old(system.blocks)[r.value := LayoutOf(size, align)]
    {
      hide Sound, Plain, CachedCount, ClassIndex, LayoutOf, IsLayout, System.Valid;
      assert |freeLists| == CLASSES by { SoundLength(freeLists, live, system.blocks); }
      var c := FindClass(size);
      if c.Some? && freeLists[c.value] != [] {
        var p := Reuse(c.value, size, align);
        r := Some(p);
      } else if !IsLayout(LayoutOf(size, align)) {
        calls, allocCount, failed := calls + 1, allocCount + 1, failed + 1;
        r := None;
      } else {
        var p := Take(size, align);
        r := Some(p);
      }
    }

    method Reuse(c: nat, size: nat, align: nat) returns (p: Address)
      requires Valid() && ClassIndex(size) == Some(c) && |freeLists| == CLASSES && freeLists[c] != []
      modifies this
      ensures Valid() && p !in old(live) && live == old(live)[p := Request(size, align)] && p % MIN_ALIGN == 0
      ensures modest == (old(modest) && align <= MIN_ALIGN) && baseline == old(baseline)
      ensures calls == old(calls) + 1 && reuseCount == old(reuseCount) + 1
      ensures var l := old(freeLists)[c]; p == l[|l| - 1] && freeLists == old(freeLists)[c := l[..|l| - 1]]
    {
      hide Sound, Plain, CachedCount, ClassIndex, LayoutOf, System.Valid;
      var l := freeLists[c];
      ReuseKeepsSound(freeLists, live, system.blocks, size, align);
      p := l[|l| - 1];
      freeLists := freeLists[c := l[..|l| - 1]];
      calls, reuseCount := calls + 1, reuseCount + 1;
      live, modest := live[p := Request(size, align)], modest && align <= MIN_ALIGN;
    }

    method Take(size: nat, align: nat) returns (p: Address)
      requires Valid() && IsLayout(LayoutOf(size, align))
      modifies this, system
      ensures Valid() && p !in old(live) && live == old(live)[p := Request(size, align)]
      ensures modest == (old(modest) && align <= MIN_ALIGN) && baseline == old(baseline)
      ensures system.mismatches == old(system.mismatches) && calls == old(calls) + 1
      ensures freeLists == old(freeLists) && allocCount == old(allocCount) + 1
      ensures p % AtLeast(align) == 0 && p % MIN_ALIGN == 0
      ensures system.blocks == old(system.blocks)[p := LayoutOf(size, align)]
    {
      hide Sound, Plain, CachedCount, ClassIndex, LayoutOf, IsLayout, System.Valid;
      LayoutIsAligned(size, align);
      ghost var before := system.blocks;
      p := system.Allocate(LayoutOf(size, align));
      AlignedToMinimum(p, size, align);
      TakeKeepsSound(freeLists, live, before, p, size, align);
      calls, allocCount, taken := calls + 1, allocCount + 1, taken + 1;
      live, modest := live[p := Request(size, align)], modest && align <= MIN_ALIGN;
    }

    /** Caches the block if its class has room, and gives it back to the system otherwise, which
        panics when the size and alignment passed make no layout. */
    method Deallocate(p: Address, size: nat, align: nat) returns (ok: bool)
      requires Valid() && p in live && live[p].size == size
      modifies this, system
      ensures Valid() && calls == old(calls) && baseline == old(baseline)
      ensures ok <==> CachesMore(old(freeLists), size) || IsLayout(LayoutOf(size, align))
      ensures !ok ==>
                && live == old(live) && modest == old(modest) && freeLists == old(freeLists)
                && system.blocks == old(system.blocks) && system.mismatches == old(system.mismatches)
      ensures ok ==> live == old(live) - {p} && modest == (old(modest) && align <= MIN_ALIGN)
      ensures ok ==>
                if CachesMore(old(freeLists), size) then
                  var c := ClassIndex(size).value;
                  && freeLists == old(freeLists)[c := old(freeLists)[c] + [p]]
                  && system.blocks == old(system.blocks) && system.mismatches == old(system.mismatches)
                else
                  && freeLists == old(freeLists) && p in old(system.blocks)
                  && system.blocks == old(system.blocks) - {p}
                  && system.mismatches == old(system.mismatches)
                       + (if old(system.blocks)[p] == LayoutOf(size, align) then 0 else 1)
    {
      hide Sound, Plain, CachedCount, ClassIndex, LayoutOf, IsLayout, System.Valid;
      assert |freeLists| == CLASSES by { SoundLength(freeLists, live, system.blocks); }
      var c := FindClass(size);
      if c.Some? && |freeLists[c.value]| < MAX_FREE_PER_CLASS {
        CacheKeepsSound(freeLists, live, system.blocks, p);
        freeLists := freeLists[c.value := freeLists[c.value] + [p]];
      } else if !IsLayout(LayoutOf(size, align)) {
        return false;
      } else {
        freed := freed + 1;
        ReleaseKeepsSound(freeLists, live, system.blocks, p);
        PlainMatches(freeLists, live, system.blocks, p, align);
        system.Free(p, LayoutOf(size, align));
      }
      modest := modest && align <= MIN_ALIGN;
      live := live - {p};
      ok := true;
    }

    /** Gives every cached block back, always with the minimum alignment: without a mismatch
        exactly when every cached block was taken with it. */
    method Purge()
      requires Valid()
      modifies this, system
      ensures Valid() && live == old(live) && modest == old(modest) && baseline == old(baseline)
      ensures forall i :: 0 <= i < CLASSES ==> freeLists[i] == []
      ensures system.mismatches >= old(system.mismatches)
      ensures system.mismatches == old(system.mismatches) <==>
                forall i :: 0 <= i < CLASSES ==> AllPlain(old(freeLists)[i], old(system.blocks))
    {
      hide Sound, Plain, CachedCount, System.Valid, AllPlain;
      SoundLength(freeLists, live, system.blocks);
      var i := 0;
      while i < CLASSES
        invariant i <= CLASSES && Valid() && live == old(live) && modest == old(modest) && baseline == old(baseline)
        invariant |freeLists| == CLASSES && forall k :: 0 <= k < i ==> freeLists[k] == []
        invariant forall k :: i <= k < CLASSES ==> freeLists[k] == old(freeLists)[k]
        invariant forall k :: i <= k < CLASSES ==>
                    (AllPlain(freeLists[k], system.blocks) <==> AllPlain(freeLists[k], old(system.blocks)))
        invariant system.mismatches >= old(system.mismatches)
        invariant system.mismatches == old(system.mismatches) <==>
                    forall k :: 0 <= k < i ==> AllPlain(old(freeLists)[k], old(system.blocks))
      {
        PurgeClass(i);
        i := i + 1;
      }
    }

    method PurgeClass(i: nat)
      requires Valid() && i < CLASSES && |freeLists| == CLASSES
      modifies this, system
      ensures Valid() && live == old(live) && modest == old(modest) && baseline == old(baseline)
      ensures freeLists == old(freeLists)[i := []]
      ensures system.blocks == old(system.blocks) - (set p | p in old(freeLists)[i])
      ensures forall k :: 0 <= k < CLASSES && k != i ==>
                (AllPlain(freeLists[k], system.blocks) <==> AllPlain(freeLists[k], old(system.blocks)))
      ensures system.mismatches >= old(system.mismatches)
      ensures system.mismatches == old(system.mismatches) <==> AllPlain(old(freeLists)[i], old(system.blocks))
    {
      hide Sound, Plain, CachedCount, AllPlain;
      var slots := freeLists[i];
      DrainKeepsSound(freeLists, live, system.blocks, i);
      DrainedSlots(freeLists, live, system.blocks, i);
      freeLists := freeLists[i := []];
      freed := freed + |slots|;
      FreeSlots(slots, SIZE_CLASSES[i]);
    }

    /** Gives the blocks of one class back to the system. */
    method FreeSlots(slots: seq<Address>, size: nat)
      requires system.Valid()
      requires forall j, k :: 0 <= j < k < |slots| ==> slots[j] != slots[k]
      requires forall p :: p in slots ==> p in system.blocks && system.blocks[p].size == size
      modifies system
      ensures system.Valid() && system.blocks == old(system.blocks) - (set p | p in slots)
      ensures system.mismatches >= old(system.mismatches)
      ensures system.mismatches == old(system.mismatches) <==> AllPlain(slots, old(system.blocks))
    {
      hide System.Valid;
      var k := 0;
      assert slots[..0] == [];
      while k < |slots|
        invariant k <= |slots| && system.Valid()
        invariant system.blocks == old(system.blocks) - (set p | p in slots[..k])
        invariant system.mismatches >= old(system.mismatches)
        invariant system.mismatches == old(system.mismatches) <==> AllPlain(slots[..k], old(system.blocks))
      {
        assert slots[..k + 1] == slots[..k] + [slots[k]];
        assert slots[k] in slots && slots[k] !in slots[..k];
        system.Free(slots[k], Layout(size, MIN_ALIGN));
        k := k + 1;
      }
      assert slots[..k] == slots;
    }

    /** Live blocks of any two requests do not overlap. */
    lemma LiveBlocksAreApart(p: Address, q: Address)
      requires Valid() && p in live && q in live && p != q
      ensures Apart(p, live[p].size, q, live[q].size)
    {
      assert Apart(p, system.blocks[p].size, q, system.blocks[q].size);
    }

    /** Over any calls: no block is both live and cached, or cached twice; the blocks taken and
        not given back are the live and the cached ones; no class caches more than 256; every
        call is an allocation or a reuse; and without large alignments every block was given
        back with its own layout. */
    lemma PoolIsConserved(p: Address)
      requires Valid()
      ensures p in live ==> !Cached(freeLists, p)
      ensures NoneTwice(freeLists) && taken - freed == |live| + CachedCount(freeLists)
      ensures |freeLists| == CLASSES && forall i :: 0 <= i < CLASSES ==> |freeLists[i]| <= MAX_FREE_PER_CLASS
      ensures allocCount + reuseCount == calls && taken + failed == allocCount
      ensures modest ==> system.mismatches == baseline
    {
    }
  }

  lemma NothingCached(lists: FreeLists)
    requires forall i :: 0 <= i < |lists| ==> lists[i] == []
    ensures CachedCount(lists) == 0 && NoneTwice(lists)
    decreases |lists|
  {
    if lists != [] { NothingCached(lists[..|lists| - 1]); }
  }

  lemma SoundLength(lists: FreeLists, live: map<Address, Request>, blocks: Blocks)
    requires Sound(lists, live, blocks)
    ensures |lists| == CLASSES
  {
  }

  lemma LayoutIsAligned(size: nat, align: nat)
    ensures LayoutOf(size, align).align == AtLeast(align) > 0
  {
  }

  /** A power of two from 8 on is a multiple of 8. */
  lemma AlignedToMinimum(p: Address, size: nat, align: nat)
    requires IsLayout(LayoutOf(size, align)) && p % AtLeast(align) == 0
    ensures p % MIN_ALIGN == 0
  {
    var a := AtLeast(align);
    assert Integers.PowerOfTwo(a / 2) && Integers.PowerOfTwo(a / 2 / 2);
    assert a == 8 * (a / 8);
    Integers.DivMod(p, a);
    assert p == (p / a * (a / 8)) * 8;
    Integers.MultipleDivides(p / a * (a / 8), 8);
  }

  lemma PlainMatches(lists: FreeLists, live: map<Address, Request>, blocks: Blocks, p: Address, align: nat)
    requires Sound(lists, live, blocks) && p in live
    ensures Plain(lists, live, blocks) && align <= MIN_ALIGN ==> blocks[p] == LayoutOf(live[p].size, align)
  {
  }

  lemma DrainedSlots(lists: FreeLists, live: map<Address, Request>, blocks: Blocks, i: nat)
    requires Sound(lists, live, blocks) && i < CLASSES
    ensures forall j, k :: 0 <= j < k < |lists[i]| ==> lists[i][j] != lists[i][k]
    ensures forall p :: p in lists[i] ==> p in blocks && blocks[p].size == SIZE_CLASSES[i]
    ensures var left := blocks - (set p | p in lists[i]);
            forall k :: 0 <= k < CLASSES && k != i ==> (AllPlain(lists[k], left) <==> AllPlain(lists[k], blocks))
    ensures Plain(lists, live, blocks) ==> AllPlain(lists[i], blocks)
  {
    var left := blocks - (set p | p in lists[i]);
    forall k, p | 0 <= k < CLASSES && k != i && p in lists[k] ensures p in left && left[p] == blocks[p] {
      assert p !in lists[i] by { if k < i { assert p in lists[k]; } }
    }
    forall p | p in lists[i] ensures Cached(lists, p) {}
  }

  lemma SmallLayouts()
    ensures ClassIndex(16) == Some(0)
    ensures IsLayout(LayoutOf(16, 8)) && IsLayout(LayoutOf(16, 16))
  {
    assert Integers.PowerOfTwo(2) && Integers.PowerOfTwo(4) && Integers.PowerOfTwo(8);
  }

  /** With an alignment above the minimum the promise fails: a block of 16 bytes aligned to 16 is
      cached and later given back as if aligned to 8. */
  method MisalignedPurge() returns (mismatches: nat)
    ensures mismatches > 0
  {
    hide IsLayout;
    SmallLayouts();
    var system := new System();
    var pool := new SizeClassAllocator(system);
    var p := pool.Allocate(16, 16);
    var ok := pool.Deallocate(p.value, 16, 16);
    assert p.value in pool.freeLists[0] && system.blocks[p.value].align == 16;
    assert !AllPlain(pool.freeLists[0], system.blocks);
    pool.Purge();
    mismatches := system.mismatches;
  }

  /** A cached block is given to whoever asks for its class, whatever the alignment: after a
      block was taken with alignment 8 and returned, any request of its size gets it. */
  method MisalignedReuse(size: nat, align: nat) returns (system: System, p: Option<Address>)
    requires size <= 2048
    ensures p.Some? && p.value in system.blocks && system.blocks[p.value].align == 8
  {
    hide IsLayout, LayoutOf, ClassIndex, SizeClassAllocator.Valid, AtLeast;
    ClassLayouts(size);
    system := new System();
    var pool := new SizeClassAllocator(system);
    ghost var c := ClassIndex(size).value;
    var first := pool.Allocate(size, 8);
    assert pool.freeLists[c] == [] && system.blocks[first.value] == LayoutOf(size, 8);
    var ok := pool.Deallocate(first.value, size, 8);
    assert pool.freeLists[c] == [first.value];
    p := pool.Allocate(size, align);
  }

  lemma ClassLayouts(size: nat)
    requires size <= 2048
    ensures IsLayout(LayoutOf(size, 8)) && LayoutOf(size, 8).align == 8
  {
    assert Integers.PowerOfTwo(2) && Integers.PowerOfTwo(4) && Integers.PowerOfTwo(8);
  }
}
