/** How src/memmgr/slab.c carves a mapping into nodes, and whether it unmaps what
    it mapped. */
module SlabGeometry {
  import opened Geometry

  /** The constants of a build: the page size, and the sizes of a slab header
      and of a node header. */
  datatype Build = Build(page: nat, header: nat, overhead: nat)

  predicate Sound(b: Build) {
    b.page >= 1 && b.header > 0 && 0 < b.overhead < b.page
  }

  /** What _PoolInit derives: the size of a node with its header, and without. */
  datatype Pool = Pool(pages: nat, nodeSize: int, size: int)

  /** Rounding down to 32 bytes by a mask of 32 bits. */
  lemma {:induction false} MaskRoundsDown(n: nat)
    requires n < 0x1_0000_0000
    ensures And(n, 0xffff_ffe0) == n - n % 32
  {
    assert Pow2(5) == 32 by { assert Pow2(4) == 16; }
    HalfWordIsPow2();
    hide And, Pow2;
    MaskIsMod(n, 5);
    ComplementTakesAway(n, 31, 32);
  }

  /** _PoolInit, as far as sizes go: a given size, or the most a slab of so many
      pages holds for so many nodes, rounded down to 32 bytes. */
  method PoolInit(b: Build, pages: nat, size: nat, nodes: nat) returns (pool: Pool)
    requires size == 0 ==> nodes >= 1 && b.header <= pages * b.page < 0x8000_0000
    ensures pool.pages == pages && pool.nodeSize == pool.size + b.overhead
    ensures size != 0 ==> pool.size == size
    ensures size == 0 ==> pool.nodeSize == RoundDown((pages * b.page - b.header) / nodes)
  {
    if size != 0 {
      pool := Pool(pages, size + b.overhead, size);
    } else {
      var nodeSize := (pages * b.page - b.header) / nodes;
      DivAtMost(pages * b.page - b.header, nodes);
      MaskRoundsDown(nodeSize);
      nodeSize := And(nodeSize, 0xffff_ffe0);
      pool := Pool(pages, nodeSize, nodeSize - b.overhead);
    }
  }

  function RoundDown(n: nat): nat {
    n - n % 32
  }

  lemma {:induction false} DivAtMost(a: nat, d: nat)
    requires d >= 1
    ensures a / d <= a && d * (a / d) <= a
  {
    assert a == d * (a / d) + a % d;
    assert a / d == 1 * (a / d);
    MulAtMost(1, d, a / d);
  }

  lemma {:induction false} MulAtMost(a: nat, b: nat, c: nat)
    requires a <= b
    ensures a * c <= b * c && c * a <= c * b
  {
    assert b * c == a * c + (b - a) * c;
    assert (b - a) * c >= 0;
  }

  // ----- carving

  /** Where node l of a slab starts. */
  function NodeAt(b: Build, nodeSize: nat, l: nat): nat {
    b.header + l * nodeSize
  }

  /** How many nodes _NewSlab carves out of a mapping. */
  function Carved(b: Build, mapped: nat, nodeSize: nat): nat
    requires b.header <= mapped && nodeSize >= 1
  {
    (mapped - b.header) / nodeSize
  }

  /** Nodes do not overlap, start past the header and end inside the mapping. */
  lemma {:induction false} NodesAreDisjointAndInside(b: Build, mapped: nat, nodeSize: nat, l: nat, m: nat)
    requires b.header <= mapped && nodeSize >= 1 && l < m < Carved(b, mapped, nodeSize)
    ensures b.header <= NodeAt(b, nodeSize, l)
    ensures NodeAt(b, nodeSize, l) + nodeSize <= NodeAt(b, nodeSize, m)
    ensures NodeAt(b, nodeSize, m) + nodeSize <= mapped
  {
    NodeIsInside(b, mapped, nodeSize, m);
    MulAtMost(l + 1, m, nodeSize);
    assert (l + 1) * nodeSize == l * nodeSize + nodeSize;
  }

  lemma {:induction false} NodeIsInside(b: Build, mapped: nat, nodeSize: nat, l: nat)
    requires b.header <= mapped && nodeSize >= 1 && l < Carved(b, mapped, nodeSize)
    ensures NodeAt(b, nodeSize, l) + nodeSize <= mapped
  {
    var n := Carved(b, mapped, nodeSize);
    DivAtMost(mapped - b.header, nodeSize);
    MulAtMost(l + 1, n, nodeSize);
    assert (l + 1) * nodeSize == l * nodeSize + nodeSize;
    assert n * nodeSize == nodeSize * n;
  }

  /** The mapping of a slab is exactly its pages. */
  lemma {:induction false} SlabMapping(b: Build, pages: nat)
    requires Sound(b)
    ensures RoundUp(pages * b.page, b.page) == pages * b.page
  {
    MultipleMod(b.page, pages);
    assert b.page * pages == pages * b.page;
  }

  /** A pool whose node size is computed carves at least the configured number
      of nodes, unless that size is rounded down to nothing. */
  lemma {:induction false} CarvesAsConfigured(b: Build, pages: nat, nodes: nat)
    requires Sound(b) && nodes >= 1 && b.header <= pages * b.page
    requires RoundDown((pages * b.page - b.header) / nodes) > 0
    ensures Carved(b, RoundUp(pages * b.page, b.page), RoundDown((pages * b.page - b.header) / nodes)) >= nodes
  {
    SlabMapping(b, pages);
    var room := pages * b.page - b.header;
    var nodeSize := RoundDown(room / nodes);
    DivAtMost(room, nodes);
    MulAtMost(nodeSize, room / nodes, nodes);
    assert nodes * (room / nodes) == (room / nodes) * nodes;
    FitsDiv(room, nodeSize, nodes);
  }

  lemma {:induction false} FitsDiv(a: nat, d: nat, n: nat)
    requires d >= 1
    ensures n <= a / d <==> d * n <= a
  {
    assert a == d * (a / d) + a % d;
    MulOrder(d, a / d, n);
    MulAtMost(n, if n <= a / d then a / d else n, d);
    if n <= a / d { MulAtMost(n, a / d, d); }
  }

  /** MMPoolAlloc takes one page more than the nodes need, but leaves no room for
      the slab header of its own: the slab holds the nodes asked for exactly
      when they leave room for the header in their last page. */
  lemma {:induction false} PrivatePoolCarvesExactly(b: Build, nodes: nat, size: nat)
    requires Sound(b) && b.header <= b.page
    ensures var nodeSize := size + b.overhead;
            var pages := nodes * nodeSize / b.page + 1;
            b.header <= pages * b.page
            && (Carved(b, RoundUp(pages * b.page, b.page), nodeSize) >= nodes
                <==> (nodes * nodeSize) % b.page + b.header <= b.page)
  {
    var nodeSize := size + b.overhead;
    var need := nodes * nodeSize;
    var pages := need / b.page + 1;
    assert need == b.page * (need / b.page) + need % b.page;
    assert pages * b.page == b.page * (need / b.page) + b.page;
    SlabMapping(b, pages);
    FitsDiv(pages * b.page - b.header, nodeSize, nodes);
    assert nodeSize * nodes == need;
  }

  /** The nodes in the first slab of a private pool of one node. */
  function OnlyNodes(b: Build, size: nat): nat
    requires Sound(b) && b.header <= b.page
  {
    PrivatePoolCarvesExactly(b, 1, size);
    var nodeSize := size + b.overhead;
    Carved(b, RoundUp((nodeSize / b.page + 1) * b.page, b.page), nodeSize)
  }

  /** A private pool of one node can end up with a slab of none: on every build
      whose slab header takes more than one byte, for some size of node. */
  lemma {:induction false} PrivatePoolOfNone(b: Build)
    requires Sound(b) && b.header <= b.page
    ensures (exists size: nat :: OnlyNodes(b, size) == 0) <==> b.header >= 2
  {
    if b.header >= 2 {
      var nodeSize := b.page * (b.overhead + 1) - 1;
      assert b.page * (b.overhead + 1) == b.page * b.overhead + b.page;
      MulAtMost(1, b.page, b.overhead);
      ModIs(nodeSize, b.page, b.overhead, b.page - 1);
      var size: nat := nodeSize - b.overhead;
      PrivatePoolCarvesExactly(b, 1, size);
      assert OnlyNodes(b, size) == 0;
    } else {
      forall size: nat ensures OnlyNodes(b, size) != 0 {
        PrivatePoolCarvesExactly(b, 1, size);
      }
    }
  }

  /** No node of any slab starts where a slab starts, so the word that holds
      either a link to a node or the address of the slab tells which: slabs
      are mapped apart from each other. */
  lemma {:induction false} TagNeverMistaken(b: Build, base: nat, other: nat, mapped: nat, otherMapped: nat,
      nodeSize: nat, l: nat)
    requires Sound(b) && b.header <= mapped && nodeSize >= 1 && l < Carved(b, mapped, nodeSize)
    requires otherMapped > 0 && (other == base || other + otherMapped <= base || base + mapped <= other)
    ensures base + NodeAt(b, nodeSize, l) != other
  {
    NodeIsInside(b, mapped, nodeSize, l);
  }

  // ----- unmapping

  lemma {:induction false} RoundUpIs(size: nat, page: nat, q: nat)
    requires page >= 1 && (q == 0 || page * (q - 1) < size) && size <= page * q
    ensures RoundUp(size, page) == page * q
  {
    RoundUpIsLeast(size, page);
    var n := RoundUp(size, page) / page;
    assert RoundUp(size, page) == page * n;
    MulOrder(page, n, q);
    MulOrder(page, q, n);
    if q > 0 {
      MulOrder(page, n, q - 1);
      MulAtMost(n, if n <= q - 1 then q - 1 else n, page);
    }
  }

  /** SysFree of a slab, with the size it was mapped with, unmaps all of it. */
  lemma {:induction false} SlabUnmapsExactly(b: Build, pages: nat)
    requires Sound(b)
    ensures var mapped := RoundUp(pages * b.page, b.page); RoundUp(mapped, b.page) == mapped
  {
    SlabMapping(b, pages);
  }

  /** A huge block keeps the size to unmap in its header: with `actual`, all
      that was mapped less the header; without, the size asked for. */
  function HugeSize(b: Build, size: nat, withActual: bool): int
    requires Sound(b)
  {
    if withActual then RoundUp(size + b.overhead, b.page) - b.overhead else size
  }

  /** A huge block is unmapped exactly if it was taken with `actual`, or its
      size ends in a page with room left for the header. */
  lemma {:induction false} HugeUnmapsExactly(b: Build, size: nat, withActual: bool)
    requires Sound(b)
    ensures HugeSize(b, size, withActual) >= size
    ensures RoundUp(HugeSize(b, size, withActual), b.page) == RoundUp(size + b.overhead, b.page)
       <==> withActual || (0 < size % b.page && size % b.page + b.overhead <= b.page)
    ensures RoundUp(HugeSize(b, size, withActual), b.page) <= RoundUp(size + b.overhead, b.page)
  {
    RoundUpIsLeast(size + b.overhead, b.page);
    if withActual {
      HugeWithActual(b, size);
    } else {
      HugeWithoutActual(b, size);
    }
  }

  lemma {:induction false} HugeWithActual(b: Build, size: nat)
    requires Sound(b)
    ensures RoundUp(HugeSize(b, size, true), b.page) == RoundUp(size + b.overhead, b.page)
  {
    var p := b.page;
    RoundUpIsLeast(size + b.overhead, p);
    var q := RoundUp(size + b.overhead, p) / p;
    assert RoundUp(size + b.overhead, p) == p * q;
    hide RoundUp;
    assert q > 0;
    assert p * (q - 1) == p * q - p;
    RoundUpIs(p * q - b.overhead, p, q);
  }

  lemma {:induction false} HugeWithoutActual(b: Build, size: nat)
    requires Sound(b)
    ensures RoundUp(size, b.page) == RoundUp(size + b.overhead, b.page)
       <==> 0 < size % b.page && size % b.page + b.overhead <= b.page
    ensures RoundUp(size, b.page) <= RoundUp(size + b.overhead, b.page)
  {
    var p := b.page;
    var n, r := size / p, size % p;
    assert size == p * n + r;
    assert p * (n + 1) == p * n + p;
    assert p * (n + 2) == p * n + 2 * p;
    hide RoundUp;
    if r == 0 {
      assert n > 0 ==> p * (n - 1) == p * n - p;
      RoundUpIs(size, p, n);
      RoundUpIs(size + b.overhead, p, n + 1);
    } else {
      RoundUpIs(size, p, n + 1);
      RoundUpIs(size + b.overhead, p, if r + b.overhead <= p then n + 1 else n + 2);
    }
  }
}
