/** Blocks of memory as MMAllocEx, MMFree, MMSize and MMStrcatv of
    src/memmgr/slab.c handle them: the search for a size class, blocks that
    grow in place, move or go huge, and freeing. */
module Heap {
  import opened Basics
  import opened AppendFormat
  import opened Geometry
  import opened SlabGeometry

  type Addr = nat

  const CLASSES: nat := 16

  /** Sizes from here on are negative as ssize_t. */
  const NEGATIVE: nat := 0x8000_0000_0000_0000

  // ----- the size class of a request

  predicate Nondecreasing(classes: seq<nat>) {
    forall i, j | 0 <= i < j < |classes| :: classes[i] <= classes[j]
  }

  /** The least class that fits; the number of classes if none does. */
  function ClassFor(classes: seq<nat>, size: nat): (i: nat)
    ensures i <= |classes| && (i < |classes| ==> size <= classes[i]) && forall j | 0 <= j < i :: size > classes[j]
  {
    if classes == [] || size <= classes[0] then 0 else 1 + ClassFor(classes[1..], size)
  }

  lemma {:induction false} ClassForIs(classes: seq<nat>, size: nat, i: nat)
    requires Nondecreasing(classes) && i <= |classes|
    requires (i < |classes| ==> size <= classes[i]) && (i > 0 ==> size > classes[i - 1])
    ensures ClassFor(classes, size) == i
  {
    var c := ClassFor(classes, size);
    assert i > 0 ==> forall j | 0 <= j < i - 1 :: classes[j] <= classes[i - 1];
  }

  /** The unrolled search of _MMAlloc. */
  method FindClass(classes: seq<nat>, size: nat) returns (i: nat)
    requires |classes| == CLASSES && Nondecreasing(classes)
    ensures i == ClassFor(classes, size)
  {
    i := 0;
    if size > classes[i + 7] { i := i + 8; }
    if size > classes[i + 3] { i := i + 4; }
    if size > classes[i + 1] { i := i + 2; }
    if size > classes[i] {
      i := i + 1;
      if size > classes[i] {
        i := i + 1;
      }
    }
    ClassForIs(classes, size, i);
  }

  // ----- blocks

  /** A block that is out with a caller: its class, or None for a huge block;
      the size in its header; how much was mapped for it if it is huge; all the
      bytes it has room for; and its key. */
  datatype Block = Block(cls: Option<nat>, size: nat, mapped: nat, bytes: Bytes, key: int)

  /** What the pools and the system hand out next: an address for each class
      (and for huge blocks), what the memory there holds, the key left in it,
      and whether the system grants a mapping. */
  datatype Supply = Supply(pick: nat -> Addr, junk: nat -> Byte, staleKey: int, granted: bool)

  datatype Outcome = Got(at: Addr) | Null | Aborted | Overrun

  predicate BlockOk(b: Build, classes: seq<nat>, block: Block)
    requires Sound(b)
  {
    match block.cls
    case Some(i) => i < |classes| && block.size <= classes[i] == |block.bytes|
    case None =>
      && block.size <= |block.bytes| && block.mapped == |block.bytes| + b.overhead
      && RoundUp(block.size, b.page) <= block.mapped
  }

  function Junk(supply: Supply, n: nat): (r: Bytes)
    ensures |r| == n
  {
    seq<Byte>(n, (i: nat) => supply.junk(i))
  }

  /** A request that no class is large enough for is mapped by itself. */
  function HugeBlock(b: Build, size: nat, withActual: bool, supply: Supply): (block: Block)
    requires Sound(b)
    ensures block.cls == None && size <= block.size <= |block.bytes| && block.mapped == |block.bytes| + b.overhead
    ensures RoundUp(block.size, b.page) <= block.mapped
    ensures block.size == if withActual then |block.bytes| else size
  {
    var mapped := RoundUp(size + b.overhead, b.page);
    HugeUnmapsExactly(b, size, withActual);
    RoundUpIsLeast(size + b.overhead, b.page);
    Block(None, HugeSize(b, size, withActual), mapped, Junk(supply, mapped - b.overhead), 0)
  }

  /** The block that a request is given, contents as they come. */
  function NewBlock(b: Build, classes: seq<nat>, size: nat, withActual: bool, supply: Supply): (block: Block)
    requires Sound(b) && |classes| == CLASSES
    ensures BlockOk(b, classes, block) && size <= block.size && (!withActual ==> block.size == size)
    ensures withActual ==> block.size == |block.bytes|
    ensures block.cls == if ClassFor(classes, size) < CLASSES then Some(ClassFor(classes, size)) else None
  {
    var i := ClassFor(classes, size);
    if i < CLASSES then
      Block(Some(i), if withActual then classes[i] else size, 0, Junk(supply, classes[i]), supply.staleKey)
    else
      HugeBlock(b, size, withActual, supply)
  }

  /** What a caller may rely on when a block is resized: the bytes up to the
      lesser size, and zeros beyond the old size if it asks for them. */
  predicate Resized(before: Block, after: Block, zero: bool)
    requires before.size <= |before.bytes| && after.size <= |after.bytes|
  {
    && (forall k | 0 <= k < before.size && k < after.size :: after.bytes[k] == before.bytes[k])
    && (zero ==> forall k | before.size <= k < after.size :: after.bytes[k] == 0)
  }

  predicate AllZero(block: Block)
    requires block.size <= |block.bytes|
  {
    forall k | 0 <= k < block.size :: block.bytes[k] == 0
  }

  /** memcpy and memset over the bytes of a block. */
  function Copied(to: Bytes, from: Bytes, n: nat): (r: Bytes)
    requires n <= |to| && n <= |from|
    ensures |r| == |to|
  {
    from[..n] + to[n..]
  }

  function Zeroed(to: Bytes, from: nat, end: nat): (r: Bytes)
    requires from <= end <= |to|
    ensures |r| == |to|
  {
    to[..from] + seq(end - from, _ => 0) + to[end..]
  }

  /** The contents after a move. */
  function Moved(before: Block, after: Block, zero: bool): (r: Bytes)
    requires before.size <= |before.bytes| && after.size <= |after.bytes|
    ensures |r| == |after.bytes|
  {
    if after.size > before.size then
      var copied := Copied(after.bytes, before.bytes, before.size);
      if zero then Zeroed(copied, before.size, after.size) else copied
    else Copied(after.bytes, before.bytes, after.size)
  }

  lemma {:induction false} MovedIsResized(before: Block, after: Block, zero: bool)
    requires before.size <= |before.bytes| && after.size <= |after.bytes|
    ensures Resized(before, after.(bytes := Moved(before, after, zero)), zero)
  {
  }

  /** The request is met by the node the caller has. */
  predicate InPlace(classes: seq<nat>, block: Block, size: nat)
    requires block.cls.Some? ==> block.cls.value < |classes|
  {
    block.cls.Some? && size <= classes[block.cls.value]
  }

  /** The length that the in-place path clears is negative: the node shrinks,
      is to be cleared, and its new size is the size asked for. */
  predicate ClearsBackwards(block: Block, size: nat, withActual: bool, zero: bool) {
    zero && !withActual && size < block.size
  }

  lemma {:induction false} BlockRoom(b: Build, classes: seq<nat>, block: Block)
    requires Sound(b) && BlockOk(b, classes, block)
    ensures block.size <= |block.bytes|
  {
  }

  lemma {:induction false} ClearedIsZero(b: Build, classes: seq<nat>, block: Block, cleared: Block)
    requires Sound(b) && BlockOk(b, classes, block) && block.size <= |block.bytes|
    requires cleared == block.(bytes := Zeroed(block.bytes, 0, block.size))
    ensures BlockOk(b, classes, cleared) && AllZero(cleared)
  {
  }

  /** The key does not matter to what resizing promises. */
  lemma {:induction false} SameRoom(before: Block, mem: Block, after: Block, zero: bool)
    requires before.size <= |before.bytes| && mem.size <= |mem.bytes| && after.size == mem.size
    requires after.bytes == Moved(before, mem, zero)
    requires Resized(before, mem.(bytes := Moved(before, mem, zero)), zero)
    ensures after.size <= |after.bytes| && Resized(before, after, zero)
  {
  }

  class Store {
    const build: Build
    const classes: seq<nat>

    var blocks: map<Addr, Block>

    /** Nodes back on a free list, with their class. */
    var freed: map<Addr, nat>

    /** The list of huge blocks, linked through hugeLink, and its counter. */
    var hugeList: seq<Addr>
    var hugeCount: int

    /** Bytes that were mapped for huge blocks and are never unmapped. */
    var stranded: nat

    ghost predicate Valid()
      reads this
    {
      && Sound(build) && |classes| == CLASSES && Nondecreasing(classes)
      && (forall a | a in blocks :: BlockOk(build, classes, blocks[a]))
      && (forall a | a in freed :: a !in blocks)
      && (forall i, j | 0 <= i < j < |hugeList| :: hugeList[i] != hugeList[j])
      && (forall a :: a in hugeList <==> a in blocks && blocks[a].cls.None?)
      && hugeCount == |hugeList|
    }

    /** The system refuses a request, which nothing but its size or a mapping can
        be the reason for. */
    predicate Refused(size: nat, supply: Supply) {
      size >= NEGATIVE || (ClassFor(classes, size) == CLASSES && !supply.granted)
    }

    /** A pool hands out a node of its own that is not out, the system an
        address that is not in use. */
    ghost predicate Suits(supply: Supply)
      reads this
    {
      forall i: nat :: supply.pick(i) !in blocks
          && (supply.pick(i) in freed ==> i < CLASSES && freed[supply.pick(i)] == i)
    }

    constructor (build: Build, classes: seq<nat>)
      requires Sound(build) && |classes| == CLASSES && Nondecreasing(classes)
      ensures Valid() && blocks == map[] && this.build == build && this.classes == classes
    {
      this.build, this.classes := build, classes;
      blocks, freed, hugeList, hugeCount, stranded := map[], map[], [], 0, 0;
    }

    /** _MMAlloc. Waiting for a mapping ends only when it is granted. */
    method Alloc(size: nat, withActual: bool, wait: bool, supply: Supply) returns (o: Outcome)
      requires Valid() && Suits(supply)
      modifies this`blocks, this`freed, this`hugeList, this`hugeCount
      ensures Valid()
      ensures var i := ClassFor(classes, size);
              o == if size >= NEGATIVE then (if wait then Aborted else Null)
                   else if i < CLASSES || supply.granted || wait then Got(supply.pick(i)) else Null
      ensures o.Got? ==>
              o.at !in old(blocks) && blocks == old(blocks)[o.at := NewBlock(build, classes, size, withActual, supply)]
      ensures o.Got? ==> freed == old(freed) - {o.at}
      ensures !o.Got? ==> blocks == old(blocks) && freed == old(freed)
    {
      if size >= NEGATIVE {
        return if wait then Aborted else Null;
      }
      var i := FindClass(classes, size);
      var at := supply.pick(i);
      var block := NewBlock(build, classes, size, withActual, supply);
      if i == CLASSES {
        if !supply.granted && !wait {
          return Null;
        }
        hugeCount := hugeCount + 1;
        hugeList := [at] + hugeList;
      } else {
        freed := freed - {at};
      }
      blocks := blocks[at := block];
      o := Got(at);
    }

    /** MMFree of a block, or once more of a node that is already free, which
        changes nothing. */
    method Free(at: Addr)
      requires Valid() && (at in blocks || at in freed)
      modifies this
      ensures Valid()
      ensures blocks == old(blocks) - {at}
      ensures at !in old(blocks) ==> freed == old(freed) && hugeList == old(hugeList) && stranded == old(stranded)
      ensures at in old(blocks) && old(blocks)[at].cls.Some? ==>
              freed == old(freed)[at := old(blocks)[at].cls.value] && stranded == old(stranded)
      ensures at in old(blocks) && old(blocks)[at].cls.None? ==>
                freed == old(freed)
                    && stranded == old(stranded) + old(blocks)[at].mapped - RoundUp(old(blocks)[at].size, build.page)
    {
      if at in blocks {
        var block := blocks[at];
        if block.cls.None? {
          var k := 0;
          while hugeList[k] != at
            invariant k < |hugeList| && forall i | 0 <= i < k :: hugeList[i] != at
            decreases |hugeList| - k
            modifies {}
          {
            assert exists i :: 0 <= i < |hugeList| && hugeList[i] == at;
            k := k + 1;
          }
          ghost var was := hugeList;
          hugeList := hugeList[..k] + hugeList[k + 1..];
          CutOne(was, k);
          hugeCount := hugeCount - 1;
          stranded := stranded + (block.mapped - RoundUp(block.size, build.page));
        } else {
          freed := freed[at := block.cls.value];
        }
        blocks := blocks - {at};
      } else {
        assert blocks - {at} == blocks;
      }
    }

    /** Every block but one is untouched. */
    twostate predicate OthersKept(but: Option<Addr>)
      reads this
    {
      forall a | a in old(blocks) && but != Some(a) :: a in blocks && blocks[a] == old(blocks)[a]
    }

    /** No block appears but one that was not there. */
    twostate predicate NoneAppears(but: Addr)
      reads this
    {
      forall a | a in blocks && a != but :: a in old(blocks)
    }

    /** What a caller that got a block at an address may rely on. */
    twostate predicate Served(ptr: Option<Addr>, at: Addr, size: nat, withActual: bool, zero: bool, actual: nat)
      requires Valid() && old(Valid()) && (ptr.Some? ==> ptr.value in old(blocks)) && at in blocks
      reads this
    {
      var block := blocks[at];
      BlockRoom(build, classes, block);
      && size <= block.size
      && (if withActual then actual == block.size == |block.bytes| else block.size == size)
      && (ptr.Some? ==>
            var before := old(blocks)[ptr.value];
            BlockRoom(build, classes, before);
            && Resized(before, block, zero) && (before.key != 0 ==> block.key == before.key))
      && (ptr.None? && zero ==> AllZero(block))
    }

    /** The resizing of a node that is large enough. */
    method ResizeInPlace(ptr: Addr, size: nat, withActual: bool, zero: bool) returns (o: Outcome, actual: nat)
      requires Valid() && ptr in blocks && InPlace(classes, blocks[ptr], size)
      modifies this`blocks
      ensures o == if ClearsBackwards(old(blocks)[ptr], size, withActual, zero) then Overrun else Got(ptr)
      ensures o.Got? ==>
              Valid() && ptr in blocks && blocks == old(blocks)[ptr := blocks[ptr]]
              && blocks[ptr].cls == old(blocks)[ptr].cls
      ensures o.Got? ==> Served(Some(ptr), ptr, size, withActual, zero, actual)
    {
      var node := blocks[ptr];
      assert BlockOk(build, classes, node);
      var end := node.size;
      var size' := if withActual then classes[node.cls.value] else size;
      actual := if withActual then size' else 0;
      if zero && size' < end {
        return Overrun, actual;
      }
      node := node.(size := size', bytes := if zero then Zeroed(node.bytes, end, size') else node.bytes);
      assert BlockOk(build, classes, node);
      blocks := blocks[ptr := node];
      o := Got(ptr);
    }

    /** Copying a block into a new one, with its key, and freeing it. */
    method Move(ptr: Addr, at: Addr, zero: bool)
      requires Valid() && ptr in blocks && at in blocks && ptr != at
      modifies this
      ensures Valid() && at in blocks
      ensures blocks == old(blocks)[at := blocks[at]] - {ptr}
      ensures var before, given := old(blocks)[ptr], old(blocks)[at];
              before.size <= |before.bytes| && given.size <= |given.bytes| &&
              blocks[at] == given.(bytes := Moved(before, given, zero),
                  key := if before.key != 0 then before.key else given.key)
    {
      var node, mem := blocks[ptr], blocks[at];
      BlockRoom(build, classes, node);
      BlockRoom(build, classes, mem);
      if node.key != 0 {
        mem := mem.(key := node.key);
      }
      mem := mem.(bytes := Moved(node, mem, zero));
      assert BlockOk(build, classes, mem);
      blocks := blocks[at := mem];
      Free(ptr);
    }

    /** memset over a block. */
    method Clear(at: Addr)
      requires Valid() && at in blocks
      modifies this`blocks
      ensures Valid() && at in blocks && blocks == old(blocks)[at := blocks[at]]
      ensures blocks[at] == old(blocks)[at].(bytes := blocks[at].bytes)
      ensures |blocks[at].bytes| == |old(blocks)[at].bytes| && blocks[at].size <= |blocks[at].bytes|
      ensures AllZero(blocks[at])
    {
      hide Zeroed, AllZero, Nondecreasing, Sound;
      var mem := blocks[at];
      BlockRoom(build, classes, mem);
      mem := mem.(bytes := Zeroed(mem.bytes, 0, mem.size));
      ClearedIsZero(build, classes, blocks[at], mem);
      blocks := blocks[at := mem];
    }

    /** A new block, with the contents of the one it replaces if there is one. */
    method AllocAnew(ptr: Option<Addr>, size: nat, withActual: bool, wait: bool, zero: bool, supply: Supply)
      returns (o: Outcome, actual: nat)
      requires Valid() && Suits(supply) && (ptr.Some? ==> ptr.value in blocks)
      modifies this
      ensures Valid() && !o.Overrun?
      ensures !o.Got? ==> blocks == old(blocks) && freed == old(freed)
      ensures !o.Got? ==> size >= NEGATIVE || (ClassFor(classes, size) == CLASSES && !supply.granted && !wait)
      ensures o.Got? ==> o.at in blocks && o.at !in old(blocks) && o.at == supply.pick(ClassFor(classes, size))
      ensures o.Got? ==> blocks == old(blocks)[o.at := blocks[o.at]] - (if ptr.Some? then {ptr.value} else {})
      ensures ptr.None? ==> freed == old(freed) - (if o.Got? then {o.at} else {})
      ensures o.Got? ==> Served(ptr, o.at, size, withActual, zero, actual)
      ensures o.Got? ==>
              blocks[o.at].cls == if ClassFor(classes, size) < CLASSES then Some(ClassFor(classes, size)) else None
    {
      hide BlockOk, Resized, AllZero, Suits, Moved, Nondecreasing, Zeroed, ClassFor;
      actual := 0;
      o := Alloc(size, withActual, wait, supply);
      if o.Got? {
        var mem := blocks[o.at];
        BlockRoom(build, classes, mem);
        if withActual {
          actual := mem.size;
        }
        if ptr.Some? {
          var before := blocks[ptr.value];
          BlockRoom(build, classes, before);
          Move(ptr.value, o.at, zero);
          MovedIsResized(before, mem, zero);
          SameRoom(before, mem, blocks[o.at], zero);
        } else if zero {
          Clear(o.at);
        }
      }
    }

    /** MMAllocEx: allocate, or resize a block in place, by moving it to another
        class, to a huge block or back. */
    method AllocEx(ptr: Option<Addr>, size: nat, withActual: bool, wait: bool, zero: bool, supply: Supply)
      returns (o: Outcome, actual: nat)
      requires Valid() && Suits(supply) && (ptr.Some? ==> ptr.value in blocks)
      modifies this
      ensures o.Overrun? <==> ptr.Some? && InPlace(classes, old(blocks)[ptr.value], size)
                              && ClearsBackwards(old(blocks)[ptr.value], size, withActual, zero)
      ensures ptr.Some? && InPlace(classes, old(blocks)[ptr.value], size) ==> o.Overrun? || o == Got(ptr.value)
      ensures !o.Overrun? ==> Valid()
      ensures o.Null? || o.Aborted? ==> blocks == old(blocks) && freed == old(freed)
      ensures o.Null? || o.Aborted? ==>
              size >= NEGATIVE || (ClassFor(classes, size) == CLASSES && !supply.granted && !wait)
      ensures o.Got? ==> o.at in blocks && OthersKept(ptr) && NoneAppears(o.at)
      ensures o.Got? ==>
              (o.at !in old(blocks) || ptr == Some(o.at)) && (ptr.Some? && ptr.value != o.at ==> ptr.value !in blocks)
      ensures o.Got? ==> Served(ptr, o.at, size, withActual, zero, actual)
      ensures o.Got? && (ptr.None? || !InPlace(classes, old(blocks)[ptr.value], size)) ==>
              o.at == supply.pick(ClassFor(classes, size))
      ensures ptr.None? ==> freed == old(freed) - (if o.Got? then {o.at} else {})
      ensures o.Got? && (ptr.None? || !InPlace(classes, old(blocks)[ptr.value], size)) ==>
                blocks[o.at].cls == if ClassFor(classes, size) < CLASSES then Some(ClassFor(classes, size)) else None
    {
      assert ptr.Some? ==> BlockOk(build, classes, blocks[ptr.value]);
      assert ptr.Some? && blocks[ptr.value].cls.Some? ==> blocks[ptr.value].cls.value < |classes|;
      hide BlockOk, Resized, AllZero, Suits;
      if ptr.Some? && InPlace(classes, blocks[ptr.value], size) {
        o, actual := ResizeInPlace(ptr.value, size, withActual, zero);
      } else {
        o, actual := AllocAnew(ptr, size, withActual, wait, zero, supply);
      }
    }

    /** MMSize of a block of a sized pool: the block now has all its node. */
    method Size(at: Addr) returns (size: nat)
      requires Valid() && at in blocks && blocks[at].cls.Some?
      modifies this`blocks
      ensures Valid() && blocks == old(blocks)[at := old(blocks)[at].(size := size)] && size == |old(blocks)[at].bytes|
    {
      var node := blocks[at];
      assert BlockOk(build, classes, node);
      if node.size != classes[node.cls.value] {
        node := node.(size := classes[node.cls.value]);
      }
      blocks := blocks[at := node];
      size := node.size;
    }

    /** The string in a block that is out. */
    function Text(at: Addr): Bytes
      requires at in blocks
      reads this
    {
      Str(blocks[at].bytes)
    }

    /** vstrcatf into a block that has all its room. */
    method Append(at: Addr, text: Bytes) returns (needed: nat)
      requires Valid() && at in blocks && IsText(text) && Terminated(blocks[at].bytes)
      modifies this`blocks
      ensures Valid() && blocks == old(blocks)[at := old(blocks)[at].(bytes := After(old(blocks)[at].bytes, text))]
      ensures needed == |old(Text(at))| + |text| + 1 && Terminated(blocks[at].bytes)
      ensures Text(at) == if needed <= |old(blocks)[at].bytes| then old(Text(at)) + text else old(Text(at))
    {
      var node := blocks[at];
      AppendsAllOrNothing(node.bytes, text);
      needed := FirstZero(node.bytes) + |text| + 1;
      node := node.(bytes := After(node.bytes, text));
      assert BlockOk(build, classes, node) by { assert BlockOk(build, classes, blocks[at]); }
      blocks := blocks[at := node];
    }

    /** The first half of MMStrcatv: the string to append to, with all the room
        of its block, or a new empty one. */
    method StartString(ptr: Option<Addr>, supply: Supply, ghost later: Supply) returns (at: Option<Addr>, size: nat)
      requires Valid() && Suits(supply) && Suits(later)
      requires forall i: nat, j: nat :: supply.pick(i) != later.pick(j)
      requires ptr.Some? ==> ptr.value in blocks && blocks[ptr.value].cls.Some? && Terminated(blocks[ptr.value].bytes)
      modifies this
      ensures Valid()
      ensures ptr.Some? ==> at == ptr
      ensures at.None? ==> blocks == old(blocks) && freed == old(freed)
      ensures at.Some? ==> at.value in blocks && blocks == old(blocks)[at.value := blocks[at.value]]
      ensures at.Some? ==>
              size == blocks[at.value].size == |blocks[at.value].bytes| && Terminated(blocks[at.value].bytes)
      ensures at.Some? ==> Text(at.value) == if ptr.Some? then old(Text(ptr.value)) else []
      ensures at.Some? && ptr.None? ==> at.value !in old(blocks) && at.value == supply.pick(ClassFor(classes, 64))
      ensures at.None? ==> Refused(64, supply)
      ensures at.Some? && ptr.None? && ClassFor(classes, 64) < CLASSES ==> size == classes[ClassFor(classes, 64)]
      ensures ptr.Some? ==> size == |old(blocks)[ptr.value].bytes|
      ensures Suits(later)
    {
      hide BlockOk, AllZero, Resized, FirstZero, Nondecreasing, Sound;
      if ptr.Some? {
        at := ptr;
        size := Size(ptr.value);
      } else {
        var o;
        o, size := AllocEx(None, 64, true, false, true, supply);
        if !o.Got? {
          return None, 0;
        }
        at := Some(o.at);
        RoomOfClass(build, classes, blocks[o.at]);
        Terminate(o.at);
      }
    }

    /** An empty string at the start of a block. */
    method Terminate(at: Addr)
      requires Valid() && at in blocks && blocks[at].bytes != []
      modifies this`blocks
      ensures Valid() && at in blocks && blocks == old(blocks)[at := blocks[at]]
      ensures blocks[at] == old(blocks)[at].(bytes := blocks[at].bytes) && |blocks[at].bytes| == |old(blocks)[at].bytes|
      ensures Terminated(blocks[at].bytes) && Text(at) == []
    {
      var node := blocks[at];
      var cleared := node.(bytes := node.bytes[0 := 0]);
      FirstZeroIs(cleared.bytes, 0);
      assert BlockOk(build, classes, cleared) by { assert BlockOk(build, classes, node); }
      blocks := blocks[at := cleared];
    }

    /** The second half of MMStrcatv, when the text did not fit. */
    method GrowAndAppend(at: Addr, text: Bytes, supply: Supply) returns (o: Outcome)
      requires Valid() && Suits(supply) && IsText(text) && at in blocks && Terminated(blocks[at].bytes)
      requires blocks[at].size == |blocks[at].bytes| < |Text(at)| + |text| + 1
      modifies this
      ensures Valid()
      ensures var needed := |old(Text(at))| + |text| + 1;
              if o.Got? then o.at == supply.pick(ClassFor(classes, needed)) else Refused(needed, supply)
      ensures !o.Got? ==> blocks == old(blocks)
      ensures o.Got? ==>
              o.at in blocks && o.at !in old(blocks) && at !in blocks && OthersKept(Some(at)) && NoneAppears(o.at)
      ensures o.Got? ==> Terminated(blocks[o.at].bytes) && Text(o.at) == old(Text(at)) + text
    {
      var needed := |Text(at)| + |text| + 1;
      ghost var before := blocks[at];
      assert BlockOk(build, classes, before);
      var size;
      o, size := AllocEx(Some(at), needed, true, false, true, supply);
      if o.Got? {
        ResizedKeepsText(before, blocks[o.at]);
        needed := Append(o.at, text);
      }
    }

    /** MMStrcatv: append to the string in a block of a sized pool, or to a new
        block, growing it once if it must. `at` is where the string is then. */
    method StrCat(ptr: Option<Addr>, text: Bytes, first: Supply, second: Supply) returns (rc: int, at: Option<Addr>,
        grown: bool)
      requires Valid() && Suits(first) && Suits(second) && IsText(text)
      requires forall i: nat, j: nat :: first.pick(i) != second.pick(j)
      requires ptr.Some? ==> ptr.value in blocks && blocks[ptr.value].cls.Some? && Terminated(blocks[ptr.value].bytes)
      modifies this
      ensures Valid()
      ensures rc == 0 || rc == -1
      ensures at.Some? ==> at.value in blocks && Terminated(blocks[at.value].bytes)
      ensures rc == 0 ==> at.Some? && Text(at.value) == (if ptr.Some? then old(Text(ptr.value)) else []) + text
      ensures rc == -1 && ptr.Some? ==> at == ptr && Text(at.value) == old(Text(ptr.value))
      ensures rc == -1 && ptr.None? && at.Some? ==> Text(at.value) == []
      ensures ptr.Some? ==> (grown <==> |old(Text(ptr.value))| + |text| + 1 > |old(blocks)[ptr.value].bytes|)
      ensures rc == -1 && ptr.Some? ==> grown && Refused(|old(Text(ptr.value))| + |text| + 1, second)
      ensures rc == -1 && ptr.None? ==>
              if grown then at.Some? && Refused(|text| + 1, second) else at.None? && Refused(64, first)
      ensures ptr.None? && at.Some? && ClassFor(classes, 64) < CLASSES ==>
              (grown <==> |text| + 1 > classes[ClassFor(classes, 64)])
      ensures rc == 0 && !grown ==> at == if ptr.Some? then ptr else Some(first.pick(ClassFor(classes, 64)))
      ensures rc == 0 && grown ==>
              at == Some(second.pick(ClassFor(classes, |text| + 1 + if ptr.Some? then |old(Text(ptr.value))| else 0)))
      ensures OthersKept(ptr)
      ensures forall a | a in blocks && at != Some(a) :: a in old(blocks) && ptr != Some(a)
    {
      hide BlockOk, Resized, Str, After, Terminated, IsText, Nondecreasing, Sound, ClassFor, Refused, Valid;
      grown := false;
      var size;
      at, size := StartString(ptr, first, second);
      if at.None? {
        return -1, None, false;
      }
      var needed := Append(at.value, text);
      if needed > size {
        grown := true;
        var o := GrowAndAppend(at.value, text, second);
        if !o.Got? {
          return -1, at, grown;
        }
        at := Some(o.at);
      }
      rc := 0;
    }
  }

  /** Resizing to no less keeps the string. */
  lemma {:induction false} ResizedKeepsText(before: Block, after: Block)
    requires before.size == |before.bytes| && Terminated(before.bytes)
    requires before.size <= after.size <= |after.bytes| && Resized(before, after, true)
    ensures Terminated(after.bytes) && Str(after.bytes) == Str(before.bytes)
  {
    var n := FirstZero(before.bytes);
    assert after.bytes[n] == before.bytes[n];
    assert forall i | 0 <= i < n :: after.bytes[i] == before.bytes[i];
    FirstZeroIs(after.bytes, n);
  }

  lemma {:induction false} RoomOfClass(b: Build, classes: seq<nat>, block: Block)
    requires Sound(b) && BlockOk(b, classes, block)
    ensures block.cls.Some? ==> block.cls.value < |classes| && |block.bytes| == classes[block.cls.value]
  {
  }

  lemma {:induction false} CutOne(list: seq<Addr>, k: nat)
    requires k < |list| && forall i, j | 0 <= i < j < |list| :: list[i] != list[j]
    ensures var cut := list[..k] + list[k + 1..];
            && (forall i, j | 0 <= i < j < |cut| :: cut[i] != cut[j])
            && (forall a :: a in cut <==> a in list && a != list[k])
  {
    var cut := list[..k] + list[k + 1..];
    assert forall i | 0 <= i < |cut| :: cut[i] == list[if i < k then i else i + 1];
    forall a | a in list && a != list[k] ensures a in cut {
      var i :| 0 <= i < |list| && list[i] == a;
      assert cut[if i < k then i else i - 1] == a;
    }
  }
}
