/** The system allocator, as the pool and the arena of runtime/src/allocator.rs use it: it gives
    out aligned blocks apart from all others in use. It never runs out of memory here. */
module Memory {
  import Integers

  type Address = nat

  const LAYOUT_MAX: nat := 0x7FFF_FFFF_FFFF_FFFF

  datatype Layout = Layout(size: nat, align: nat)

  /** Whether `Layout::from_size_align` accepts a layout. */
  predicate IsLayout(l: Layout) { Integers.PowerOfTwo(l.align) && l.size + l.align <= LAYOUT_MAX + 1 }

  /** The bytes of two blocks do not overlap. */
  predicate Apart(p: Address, n: nat, q: Address, m: nat) { p + n <= q || q + m <= p }

  class System {
    var blocks: map<Address, Layout>
    /** How many blocks were given back with a layout other than their own. */
    var mismatches: nat

    ghost predicate Valid()
      reads this
    {
      && (forall p :: p in blocks ==> blocks[p].align > 0 && p % blocks[p].align == 0)
      && (forall p, q :: p in blocks && q in blocks && p != q ==> Apart(p, blocks[p].size, q, blocks[q].size))
    }

    constructor ()
      ensures Valid() && blocks == map[] && mismatches == 0
    {
      blocks, mismatches := map[], 0;
    }

    method Allocate(layout: Layout) returns (p: Address)
      requires Valid() && layout.align > 0
      modifies this`blocks
      ensures Valid() && p !in old(blocks) && blocks == old(blocks)[p := layout] && p % layout.align == 0
      ensures forall q :: q in old(blocks) ==> Apart(p, layout.size, q, old(blocks)[q].size)
    {
      RoomExists(blocks, layout);
      p :| IsRoom(blocks, layout, p);
      blocks := blocks[p := layout];
    }

    method Free(p: Address, layout: Layout)
      requires Valid() && p in blocks
      modifies this
      ensures Valid() && blocks == old(blocks) - {p}
      ensures mismatches == old(mismatches) + (if old(blocks)[p] == layout then 0 else 1)
    {
      if blocks[p] != layout { mismatches := mismatches + 1; }
      blocks := blocks - {p};
    }
  }

  predicate IsRoom(blocks: map<Address, Layout>, layout: Layout, p: Address)
    requires layout.align > 0
  {
    p !in blocks && p % layout.align == 0 && forall q :: q in blocks ==> Apart(p, layout.size, q, blocks[q].size)
  }

  ghost predicate EndsBelow(blocks: map<Address, Layout>, top: nat) {
    forall q :: q in blocks ==> q + blocks[q].size < top
  }

  lemma {:induction false} TopExists(blocks: map<Address, Layout>)
    ensures exists top: nat :: EndsBelow(blocks, top)
    decreases |blocks|
  {
    if blocks == map[] {
      assert EndsBelow(blocks, 0);
    } else {
      var p :| p in blocks;
      var rest := blocks - {p};
      assert rest.Keys == blocks.Keys - {p};
      TopExists(rest);
      var top: nat :| EndsBelow(rest, top);
      var end := p + blocks[p].size + 1;
      var more := if top < end then end else top;
      forall q | q in blocks ensures q + blocks[q].size < more {
        if q in rest { assert rest[q] == blocks[q]; } else { assert q == p; }
      }
      assert EndsBelow(blocks, more);
    }
  }

  lemma RoomExists(blocks: map<Address, Layout>, layout: Layout)
    requires layout.align > 0
    ensures exists p :: IsRoom(blocks, layout, p)
  {
    TopExists(blocks);
    var top: nat :| EndsBelow(blocks, top);
    var p := top * layout.align;
    Integers.MulGrows(layout.align, top);
    Integers.MultipleDivides(top, layout.align);
    assert IsRoom(blocks, layout, p);
  }
}
