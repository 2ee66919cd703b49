/** kmalloc, kcalloc, kfree and krealloc, updating the headers of the kernel heap in place. */
module HeapAllocator {
  import opened LinkedList
  import opened KernelHeap

  /** A page block in use: its fields lead to live blocks. */
  predicate InUse(h: Heap, p: nat)
    requires p in h.pages
  {
    var d := h.pages[p].data;
    && d.highest != 0 && HighestOk(h.blocks, h.pages, p) && d.first != 0
    && d.last != 0 && d.last in h.blocks && d.last <= d.highest
  }

  /** What the code that allocates relies on. */
  ghost predicate Searchable(h: Heap, order: seq<nat>) {
    && Linked(h.pages, Ends(h.head, h.tail), order) && h.nPageBlocks == |order|
    && (forall p :: p in h.pages ==> InUse(h, p))
  }

  lemma SoundSearchable(h: Heap, order: seq<nat>, lists: map<nat, seq<nat>>)
    requires Sound(h, order, lists)
    ensures Searchable(h, order)
  {
    forall p | p in h.pages ensures InUse(h, p) {
      HighestSet(h.blocks, h.pages, lists, p);
      var list := lists[p];
      assert ListOk(h.blocks, h.pages, p, list) && CellOk(h.blocks, list, |list| - 1);
      assert list[|list| - 1] in list;
      assert BlockOk(h.blocks, h.pages, list[|list| - 1]) && HighestOk(h.blocks, h.pages, p);
    }
  }

  function NewHighest(h: Heap, b: nat, rest: seq<nat>): nat
    requires b in h.blocks && h.blocks[b].data.page in h.pages
  {
    var d := h.pages[h.blocks[b].data.page].data;
    if d.highest == b then MaxOf(rest) else d.highest
  }

  /** What the code that takes block `b` out of its list relies on. */
  ghost predicate Releasable(h: Heap, b: nat, rest: seq<nat>) {
    && b in h.blocks && h.blocks[b].data.page in h.pages
    && var c, d := h.blocks[b], h.pages[h.blocks[b].data.page].data;
    && d.nMemBlocks > 0 && (c.next != 0 ==> c.next in h.blocks) && (c.prev != 0 ==> c.prev in h.blocks)
    && Linked(Unlinked(h.blocks, b), EndsWithout(Ends(d.first, d.last), b, c), rest)
  }

  lemma FreeableReleasable(h: Heap, list: seq<nat>, k: nat)
    requires Freeable(h, list, k)
    ensures Releasable(h, list[k], Cut(list, k))
  {
    var d := h.pages[h.blocks[list[k]].data.page].data;
    assert k + 1 < |list| ==> CellOk(h.blocks, list, k + 1);
    assert k > 0 ==> CellOk(h.blocks, list, k - 1);
    UnlinkedLinked(h.blocks, Ends(d.first, d.last), list, k);
  }

  function Zeroed(bytes: nat -> int, a: nat, n: nat): nat -> int {
    (x: nat) => if a <= x < a + n then 0 else bytes(x)
  }

  function Copied(bytes: nat -> int, to: nat, from: nat, n: nat): nat -> int {
    (x: nat) => if to <= x < to + n then bytes(from + (x - to)) else bytes(x)
  }

  class Allocator {
    var blocks: Blocks // the headers marked live
    var pages: PageBlocks
    var pageBlockHead: nat
    var pageBlockTail: nat
    var nPageBlocks: nat
    var bytes: nat -> int // what callers keep in their blocks

    ghost function View(): Heap
      reads this
    {
      Heap(blocks, pages, pageBlockHead, pageBlockTail, nPageBlocks)
    }

    /** Gets memory for a page block at `a` and puts it at the end of the list of page blocks. */
    method AllocateNewPageBlock(a: nat, n: nat)
      requires a !in pages && (pageBlockTail != 0 ==> pageBlockTail in pages)
      modifies this`pages, this`pageBlockHead, this`pageBlockTail, this`nPageBlocks
      ensures View() == WithPage(old(View()), a, n + (MIN_PAGES - n % MIN_PAGES))
    {
      var nPages := n + (MIN_PAGES - n % MIN_PAGES);
      pages := pages[a := Cell(PageBlock(0, 0, 0, 0, 0, nPages), 0, 0)];
      if pageBlockTail != 0 {
        pages := pages[pageBlockTail := pages[pageBlockTail].(next := a)];
      }
      if pageBlockHead == 0 {
        pageBlockHead := a;
      }
      pages := pages[a := pages[a].(prev := pageBlockTail)];
      pageBlockTail := a;
      nPageBlocks := nPageBlocks + 1;
    }

    /** The first page block with room for a block of `size` bytes, or 0. */
    method FindPageBlock(size: nat, ghost order: seq<nat>) returns (current: nat)
      requires Searchable(View(), order)
      ensures var k := FirstFit(blocks, pages, order, size);
        if k < |order| then current == order[k] && current != 0 else current == 0
    {
      current := pageBlockHead;
      ghost var k, fit := 0, FirstFit(blocks, pages, order, size);
      if order != [] { assert CellOk(pages, order, 0); }
      while current != 0
        invariant 0 <= k <= fit && current == if k < |order| then order[k] else 0
        invariant current != 0 ==> current in pages
        invariant k < |order| ==> current != 0
        decreases |order| - k
      {
        assert CellOk(pages, order, k);
        assert k + 1 < |order| ==> CellOk(pages, order, k + 1);
        assert InUse(View(), current);
        var highest := pages[current].data.highest;
        var top := highest + HEADER + blocks[highest].data.size;
        if top + (size + HEADER) <= current + pages[current].data.nPages * PAGE {
          return;
        }
        current := pages[current].next;
        k := k + 1;
      }
    }

    /** Writes the header of a new block on top of page block `p` and appends it to the list. */
    method Place(p: nat, size: nat) returns (b: nat)
      requires p in pages && HighestOk(blocks, pages, p) && (pages[p].data.highest == 0 <==> pages[p].data.first == 0)
      requires pages[p].data.last != 0 ==> pages[p].data.last in blocks && pages[p].data.last <= pages[p].data.highest
      modifies this`blocks, this`pages
      ensures View() == Placed(old(View()), p, size) && b == Top(old(blocks), old(pages), p)
    {
      var d := pages[p].data;
      if d.first == 0 {
        b := p + PAGE_HEADER;
      } else {
        b := d.highest + HEADER + blocks[d.highest].data.size;
      }
      blocks := blocks[b := Cell(Block(size, p), 0, 0)];
      if d.last != 0 {
        blocks := blocks[d.last := blocks[d.last].(next := b)];
      }
      if d.first == 0 {
        d := d.(first := b);
      }
      blocks := blocks[b := blocks[b].(prev := d.last)];
      if b > d.highest {
        d := d.(highest := b);
      }
      d := d.(last := b, nMemBlocks := d.nMemBlocks + 1, nBytesUsed := d.nBytesUsed + (size + HEADER));
      pages := pages[p := pages[p].(data := d)];
    }

    /** Allocates `amount` bytes, rounded up. A new page block would be placed at `space`. */
    method KMalloc(amount: nat, space: nat, ghost order: seq<nat>) returns (ptr: nat)
      requires Searchable(View(), order) && space !in pages && space != 0
      modifies this`blocks, this`pages, this`pageBlockHead, this`pageBlockTail, this`nPageBlocks
      ensures amount == 0 ==> ptr == 0 && View() == old(View())
      ensures amount > 0 ==>
        && ptr == Address(old(View()), order, RoundUp(amount), space) + HEADER
        && View() == Allocated(old(View()), order, RoundUp(amount), space)
    {
      if amount == 0 {
        return 0;
      }
      var size := RoundUp(amount);
      var currentPageBlock := 0;
      if nPageBlocks != 0 {
        currentPageBlock := FindPageBlock(size, order);
      }
      ghost var k := FirstFit(blocks, pages, order, size);
      if currentPageBlock == 0 {
        if order != [] { assert CellOk(pages, order, |order| - 1); }
        AllocateNewPageBlock(space, size / PAGE);
        currentPageBlock := space;
      } else {
        assert InUse(View(), order[k]);
      }
      var block := Place(currentPageBlock, size);
      return block + HEADER;
    }

    /** Links the neighbours of block `b` to each other. */
    method UnlinkBlock(b: nat)
      requires b in blocks && (blocks[b].next != 0 ==> blocks[b].next in blocks)
      requires blocks[b].prev != 0 ==> blocks[b].prev in blocks
      modifies this`blocks
      ensures blocks == Unlinked(old(blocks), b)
    {
      var next, prev := blocks[b].next, blocks[b].prev;
      if next != 0 {
        blocks := blocks[next := blocks[next].(prev := prev)];
      }
      if prev != 0 {
        blocks := blocks[prev := blocks[prev].(next := next)];
      }
    }

    /** The block with the greatest address in the list that begins at `first`. */
    method FindHighest(first: nat, ghost last: nat, ghost list: seq<nat>) returns (highest: nat)
      requires Linked(blocks, Ends(first, last), list)
      ensures highest == MaxOf(list)
    {
      highest := 0;
      var blk := first;
      ghost var i := 0;
      if list != [] { assert CellOk(blocks, list, 0); }
      while blk != 0
        invariant 0 <= i <= |list| && blk == (if i < |list| then list[i] else 0) && (i < |list| ==> blk != 0)
        invariant highest == MaxOf(list[..i])
        decreases |list| - i
      {
        assert CellOk(blocks, list, i);
        assert i + 1 < |list| ==> CellOk(blocks, list, i + 1);
        assert list[..i + 1][..i] == list[..i];
        if blk > highest {
          highest := blk;
        }
        blk := blocks[blk].next;
        i := i + 1;
      }
      assert list[..i] == list;
    }

    /** Takes page block `p` off the list, except that the head of the list is not moved, and unmaps it. */
    method FreePageBlock(p: nat, b: nat)
      requires p in pages && nPageBlocks > 0 && Neighbour(pages, pages[p].next, p) && Neighbour(pages, pages[p].prev, p)
      modifies this`blocks, this`pages, this`pageBlockTail, this`nPageBlocks
      ensures View() == WithoutPage(old(View()), b, p)
    {
      var next, prev := pages[p].next, pages[p].prev;
      if next != 0 {
        pages := pages[next := pages[next].(prev := prev)];
      }
      if prev != 0 {
        pages := pages[prev := pages[prev].(next := next)];
      }
      if pageBlockTail == p {
        pageBlockTail := pages[p].prev;
      }
      nPageBlocks := nPageBlocks - 1;
      pages := pages - {p};
      blocks := blocks - {b};
    }

    /** Takes block `b` out of its list, which keeps the blocks `rest`. */
    method ReleaseBlock(b: nat, ghost rest: seq<nat>)
      requires Releasable(View(), b, rest)
      modifies this`blocks, this`pages, this`bytes
      ensures View() == Released(old(View()), b, NewHighest(old(View()), b, rest))
      ensures bytes == Zeroed(old(bytes), b + HEADER, old(blocks)[b].data.size)
    {
      var block := blocks[b];
      var p := block.data.page;
      var d := pages[p].data;
      d := d.(nBytesUsed := d.nBytesUsed - (HEADER + block.data.size), nMemBlocks := d.nMemBlocks - 1);
      UnlinkBlock(b);
      if d.last == b {
        d := d.(last := block.prev);
      }
      if d.first == b {
        d := d.(first := block.next);
      }
      if d.highest == b {
        var highest := FindHighest(d.first, d.last, rest);
        d := d.(highest := highest);
      }
      bytes := Zeroed(bytes, b + HEADER, block.data.size);
      blocks := blocks - {b};
      pages := pages[p := pages[p].(data := d)];
    }

    /** Whether a live block's header stands in front of the address. */
    predicate Marked(ptr: nat)
      reads this
    {
      ptr >= HEADER && ptr - HEADER in blocks
    }

    /**
     Frees the block at `ptr`, number `k` of its list, and its page block once that is empty. A null
     pointer, or one without a live header in front of it, changes nothing.
     */
    method KFree(ptr: nat, ghost list: seq<nat>, ghost k: nat)
      requires Marked(ptr) ==> Freeable(View(), list, k) && ptr == list[k] + HEADER
      modifies this
      ensures !old(Marked(ptr)) ==> View() == old(View()) && bytes == old(bytes)
      ensures old(Marked(ptr)) ==> View() == Freed(old(View()), list, k)
      ensures old(Marked(ptr)) ==>
        bytes == if |list| > 1 then Zeroed(old(bytes), ptr, old(blocks)[list[k]].data.size) else old(bytes)
    {
      if ptr == 0 || !Marked(ptr) {
        return;
      }
      var b := ptr - HEADER;
      var p := blocks[b].data.page;
      if pages[p].data.nMemBlocks - 1 != 0 {
        FreeableReleasable(View(), list, k);
        ReleaseBlock(b, Cut(list, k));
      } else {
        FreePageBlock(p, b);
      }
    }

    method KCalloc(nobj: nat, szObj: nat, space: nat, ghost order: seq<nat>) returns (ptr: nat)
      requires Searchable(View(), order) && space !in pages && space != 0
      modifies this
      ensures nobj * szObj == 0 ==> ptr == 0 && View() == old(View())
      ensures nobj * szObj > 0 ==>
        && ptr == Address(old(View()), order, RoundUp(nobj * szObj), space) + HEADER
        && View() == Allocated(old(View()), order, RoundUp(nobj * szObj), space)
      ensures bytes == Zeroed(old(bytes), ptr, nobj * szObj)
    {
      ptr := KMalloc(nobj * szObj, space, order);
      bytes := Zeroed(bytes, ptr, nobj * szObj);
    }

    /** How far the memory after a block is free. Below the end of the page block the search gives up at once. */
    static method FreeSpaceAfter(blkAfter: nat, end: nat, isLive: nat -> bool, ghost n: nat) returns (nFreeSpace: nat)
      requires blkAfter < end || isLive(blkAfter + ALIGNMENT * n)
      ensures blkAfter < end ==> nFreeSpace == 0
    {
      var endBlock := blkAfter;
      ghost var i := 0;
      while !isLive(endBlock) && endBlock >= end
        invariant 0 <= i && endBlock == blkAfter + ALIGNMENT * i && (blkAfter < end ==> i == 0)
        invariant i <= n || blkAfter < end
        decreases n - i
      {
        endBlock := endBlock + ALIGNMENT;
        i := i + 1;
      }
      nFreeSpace := endBlock - blkAfter;
    }

    /** Moves the contents of block `b` to a new block and frees `b`. */
    method Move(b: nat, newSize: nat, space: nat, ghost order: seq<nat>, ghost short: map<nat, int>) returns (r: nat)
      requires Ordered(View(), order, short) && b in blocks && blocks[b].data.size <= newSize && newSize > 0
      requires space !in pages && Unused(pages, space, PagesFor(RoundUp(newSize)))
      requires HasRoom(View(), order, RoundUp(newSize))
      modifies this
      ensures MovedTo(old(View()), old(bytes), View(), bytes, order, b, r, newSize, space, short)
    {
      ghost var h, bytes0 := View(), bytes;
      ghost var list, k := MoveGood(h, order, b, RoundUp(newSize), space, short);
      r := CopyToNew(b, newSize, space, order, list, k);
      ghost var h1 := Allocated(h, order, RoundUp(newSize), space);
      MoveContents(h.blocks, h1.blocks, blocks, bytes0, bytes, b, r - HEADER, newSize, RoundUp(newSize));
    }

    method CopyToNew(b: nat, newSize: nat, space: nat, ghost order: seq<nat>, ghost list: seq<nat>, ghost k: nat)
      returns (r: nat)
      requires Searchable(View(), order) && space !in pages && space != 0 && b in blocks && newSize > 0
      requires Freeable(Allocated(View(), order, RoundUp(newSize), space), list, k) && list[k] == b
      modifies this
      ensures var h1 := Allocated(old(View()), order, RoundUp(newSize), space); View() == Freed(h1, list, k)
      ensures r == Address(old(View()), order, RoundUp(newSize), space) + HEADER
      ensures Allocated(old(View()), order, RoundUp(newSize), space).blocks[b].data == old(blocks)[b].data ==>
        Moved(old(bytes), bytes, b, old(blocks)[b].data.size, r - HEADER, newSize)
    {
      var oldSize := blocks[b].data.size;
      r := KCalloc(newSize, 1, space, order);
      bytes := Copied(bytes, r, b + HEADER, oldSize);
      KFree(b + HEADER, list, k);
    }

    /** Makes block `b` smaller. As many bytes as are given up are zeroed, but behind the block. */
    method Shrink(b: nat, size: nat, ghost order: seq<nat>, ghost short: map<nat, int>)
      requires Ordered(View(), order, short) && b in blocks && size < blocks[b].data.size && Spares(View(), b, size)
      modifies this`blocks, this`bytes
      ensures ShrunkTo(old(View()), old(bytes), View(), bytes, b, size, short)
    {
      ghost var h, bytes0 := View(), bytes;
      var oldSize := blocks[b].data.size;
      blocks := blocks[b := blocks[b].(data := Block(size, blocks[b].data.page))];
      bytes := Zeroed(bytes, b + HEADER + oldSize, oldSize - size);
      ShrunkGood(h, order, b, size, short);
      assert Ordered(View(), order, Shorter(h, b, size, short));
      ShrinkContents(h, order, bytes0, bytes, b, size, short);
    }

    /**
     Resizes the block at `ptr` to `newSize` bytes, rounded up. It grows in place if it is the highest
     of its page block and there is room, in a new block otherwise. A pointer without a live header in
     front of it is refused.
     */
    method KRealloc(ptr: nat, newSize: nat, space: nat, isLive: nat -> bool, ghost order: seq<nat>,
                    ghost short: map<nat, int>)
      returns (r: nat)
      requires Ordered(View(), order, short) && space !in pages
      requires Unused(pages, space, PagesFor(RoundUp(RoundUp(newSize))))
      // a block that has to move finds room
      requires ptr >= HEADER && Moves(View(), ptr - HEADER, RoundUp(newSize)) ==>
        HasRoom(View(), order, RoundUp(RoundUp(newSize)))
      // what a shrinking block zeroes is free
      requires newSize != 0 && Marked(ptr) && blocks[ptr - HEADER].data.size > RoundUp(newSize) ==>
        Spares(View(), ptr - HEADER, RoundUp(newSize))
      modifies this
      ensures newSize == 0 ==> r == 0 && View() == old(View()) && bytes == old(bytes)
      ensures newSize != 0 && ptr == 0 ==>
        && r == Address(old(View()), order, RoundUp(RoundUp(newSize)), space) + HEADER
        && View() == Allocated(old(View()), order, RoundUp(RoundUp(newSize)), space)
        && bytes == Zeroed(old(bytes), r, RoundUp(newSize))
      ensures newSize != 0 && ptr != 0 && !old(Marked(ptr)) ==> r == 0 && View() == old(View()) && bytes == old(bytes)
      ensures newSize != 0 && old(Marked(ptr)) && old(blocks)[ptr - HEADER].data.size == RoundUp(newSize) ==>
        r == ptr && View() == old(View()) && bytes == old(bytes)
      ensures newSize != 0 && old(Marked(ptr)) && old(blocks)[ptr - HEADER].data.size > RoundUp(newSize) ==>
        r == ptr && ShrunkTo(old(View()), old(bytes), View(), bytes, ptr - HEADER, RoundUp(newSize), short)
      ensures newSize != 0 && old(Marked(ptr)) && old(blocks)[ptr - HEADER].data.size < RoundUp(newSize) ==>
        GrownTo(old(View()), old(bytes), View(), bytes, order, ptr - HEADER, r, RoundUp(newSize), space, short)
    {
      if newSize == 0 {
        return 0;
      }
      var size := RoundUp(newSize);
      if ptr == 0 {
        OrderedSearchable(View(), order, short);
        r := KCalloc(size, 1, space, order);
        return;
      }
      if !Marked(ptr) {
        return 0;
      }
      var b := ptr - HEADER;
      var oldSize := blocks[b].data.size;
      if oldSize == size {
        return ptr;
      }
      if size < oldSize {
        Shrink(b, size, order, short);
        return ptr;
      }
      r := Grow(b, size, space, isLive, order, short);
    }

    method Grow(b: nat, size: nat, space: nat, isLive: nat -> bool, ghost order: seq<nat>, ghost short: map<nat, int>)
      returns (r: nat)
      requires Ordered(View(), order, short) && space !in pages && b in blocks && blocks[b].data.size < size
      requires Unused(pages, space, PagesFor(RoundUp(size)))
      requires Moves(View(), b, size) ==> HasRoom(View(), order, RoundUp(size))
      modifies this
      ensures GrownTo(old(View()), old(bytes), View(), bytes, order, b, r, size, space, short)
    {
      GoodBlock(View(), order, short, b);
      var oldSize := blocks[b].data.size;
      var p := blocks[b].data.page;
      var end := p + pages[p].data.nPages * PAGE;
      if pages[p].data.highest == b && b + HEADER + oldSize + (size - oldSize) <= end {
        GrowInPlace(b, size, order, short);
        return b + HEADER;
      }
      if b + HEADER + oldSize < end && !isLive(b + HEADER + oldSize) && pages[p].data.highest != b {
        var nFreeSpace := FreeSpaceAfter(b + HEADER + oldSize, end, isLive, 0);
        if oldSize + nFreeSpace >= size {
          assert false; // the block would be extended over the free space, of which none is ever found
        }
      }
      r := Move(b, size, space, order, short);
    }

    method GrowInPlace(b: nat, size: nat, ghost order: seq<nat>, ghost short: map<nat, int>)
      requires Ordered(View(), order, short) && b in blocks && blocks[b].data.page in pages && InPlace(View(), b, size)
      requires blocks[b].data.size <= size
      modifies this`blocks, this`bytes
      ensures Reallocated(old(blocks), old(bytes), blocks, bytes, b, b, size)
      ensures View() == Grown(old(View()), b, size)
      ensures Good(View(), Shorter(old(View()), b, size, short))
    {
      ghost var h, bytes0 := View(), bytes;
      InPlaceGood(h, order, b, size, short);
      var oldSize := blocks[b].data.size;
      blocks := blocks[b := blocks[b].(data := Block(size, blocks[b].data.page))];
      bytes := Zeroed(bytes, b + HEADER + oldSize, size - oldSize);
      GrowContents(h.blocks, blocks, bytes0, bytes, b, size);
    }
  }

  /** The block is now at `r`, a new block, with its contents, and the old block has been freed. */
  ghost predicate MovedTo(h: Heap, bytes: nat -> int, h': Heap, bytes': nat -> int, order: seq<nat>, b: nat, r: nat,
                          size: nat, space: nat, short: map<nat, int>)
  {
    exists b': nat :: r == b' + HEADER && b' == Address(h, order, RoundUp(size), space)
      && Reallocated(h.blocks, bytes, h'.blocks, bytes', b, b', size)
      && OutcomeOfFree(Allocated(h, order, RoundUp(size), space), h', b,
        StillShort(h, order, RoundUp(size), space, short))
  }

  /** The block is now at `r`, with its contents, and the heap is as good as the branch taken leaves it. */
  ghost predicate GrownTo(h: Heap, bytes: nat -> int, h': Heap, bytes': nat -> int, order: seq<nat>, b: nat, r: nat,
                          size: nat, space: nat, short: map<nat, int>)
  {
    exists b': nat :: r == b' + HEADER && Reallocated(h.blocks, bytes, h'.blocks, bytes', b, b', size)
      && GrowOutcome(h, h', order, b, size, space, short)
  }

  /** No live block and no page block begins among the bytes that shrinking zeroes. */
  ghost predicate Spares(h: Heap, b: nat, size: nat)
    requires b in h.blocks && size < h.blocks[b].data.size
  {
    var from, n := End(h.blocks, b), h.blocks[b].data.size - size;
    && (forall c :: c in h.blocks ==> !(from <= c < from + n))
    && (forall p :: p in h.pages ==> !(from <= p < from + n))
  }

  /** The block has the new size and the bytes that fit, all other blocks are untouched, and the heap is good. */
  ghost predicate ShrunkTo(h: Heap, bytes: nat -> int, h': Heap, bytes': nat -> int, b: nat, size: nat,
                           short: map<nat, int>) {
    && b in h.blocks && h' == Grown(h, b, size) && Good(h', Shorter(h, b, size, short))
    && (forall x: nat :: b + HEADER <= x < b + HEADER + size ==> bytes'(x) == bytes(x))
    && (forall c :: c in h.blocks && c != b ==> Untouched(h.blocks, bytes, h'.blocks, bytes', c))
  }

  lemma ShrinkContents(h: Heap, order: seq<nat>, bytes: nat -> int, bytes': nat -> int, b: nat, size: nat,
                       short: map<nat, int>)
    requires Ordered(h, order, short) && b in h.blocks && size < h.blocks[b].data.size && Spares(h, b, size)
    requires bytes' == Zeroed(bytes, End(h.blocks, b), h.blocks[b].data.size - size)
    ensures forall x: nat :: b + HEADER <= x < b + HEADER + size ==> bytes'(x) == bytes(x)
    ensures forall c :: c in h.blocks && c != b ==> Untouched(h.blocks, bytes, Grown(h, b, size).blocks, bytes', c)
  {
    assert Good(h, short);
    GoodApart(h, short);
    forall c | c in h.blocks && c != b ensures Untouched(h.blocks, bytes, Grown(h, b, size).blocks, bytes', c) {
      assert Apart(h.blocks, b, c) && Apart(h.blocks, c, b);
    }
  }

  /** The count of used bytes of the block's page block falls short by the growth as well. */
  function Shorter(h: Heap, b: nat, size: nat, short: map<nat, int>): map<nat, int>
    requires b in h.blocks
  {
    var p := h.blocks[b].data.page;
    short[p := Get(short, p) + size - h.blocks[b].data.size]
  }

  /** In place the heap stays good with a count that falls short by the growth; otherwise a block was freed. */
  ghost predicate GrowOutcome(h: Heap, h': Heap, order: seq<nat>, b: nat, size: nat, space: nat, short: map<nat, int>) {
    && b in h.blocks && h.blocks[b].data.page in h.pages
    && if InPlace(h, b, size) then
      h' == Grown(h, b, size) && Good(h', Shorter(h, b, size, short))
    else
      OutcomeOfFree(Allocated(h, order, RoundUp(size), space), h', b, StillShort(h, order, RoundUp(size), space, short))
  }

  /** Block `b` became block `b'`: its contents were kept, the rest zeroed, and other blocks left alone. */
  ghost predicate Reallocated(blocks: Blocks, bytes: nat -> int, blocks': Blocks, bytes': nat -> int, b: nat, b': nat,
                              newSize: nat) {
    && b in blocks && b' in blocks' && blocks[b].data.size <= newSize <= blocks'[b'].data.size
    && (forall x: nat :: b' + HEADER <= x < b' + HEADER + blocks[b].data.size ==> bytes'(x) == bytes(b + (x - b')))
    && (forall x: nat :: b' + HEADER + blocks[b].data.size <= x < b' + HEADER + newSize ==> bytes'(x) == 0)
    && (forall c :: c in blocks && c != b ==> Untouched(blocks, bytes, blocks', bytes', c))
  }

  ghost predicate Untouched(blocks: Blocks, bytes: nat -> int, blocks': Blocks, bytes': nat -> int, c: nat) {
    SameData(blocks, blocks', c) && forall x: nat :: c + HEADER <= x < End(blocks, c) ==> bytes'(x) == bytes(x)
  }

  /** Freeing block `b` keeps the heap good exactly if `b` was not the last block of the head page block. */
  ghost predicate OutcomeOfFree(h: Heap, h': Heap, b: nat, short: map<nat, int>) {
    && b in h.blocks && h.blocks[b].data.page in h.pages
    && if LastOfHead(h, b) then forall short' :: !Good(h', short') else Good(h', short)
  }

  predicate LastOfHead(h: Heap, b: nat)
    requires b in h.blocks && h.blocks[b].data.page in h.pages
  {
    h.pages[h.blocks[b].data.page].data.nMemBlocks == 1 && h.head == h.blocks[b].data.page
  }

  lemma OrderedSearchable(h: Heap, order: seq<nat>, short: map<nat, int>)
    requires Ordered(h, order, short)
    ensures Searchable(h, order)
  {
    var lists :| Sound(h, order, lists) && Short(h, lists, short);
    SoundSearchable(h, order, lists);
  }

  /** The list of a live block, ready to free it. */
  lemma GoodFreeable(h: Heap, b: nat, short: map<nat, int>) returns (list: seq<nat>, k: nat)
    requires Good(h, short) && b in h.blocks
    ensures Freeable(h, list, k) && list[k] == b
    ensures OutcomeOfFree(h, Freed(h, list, k), b, short) && Reduced(h.blocks, Freed(h, list, k).blocks, b)
  {
    var order :| Ordered(h, order, short);
    var lists :| Sound(h, order, lists) && Short(h, lists, short);
    k := SoundFreeable(h, order, lists, b);
    list := lists[h.blocks[b].data.page];
    FreedGood(h, order, lists, b, k, short);
  }

  ghost predicate AllApart(blocks: Blocks) {
    forall b: nat, c: nat :: Apart(blocks, b, c)
  }

  lemma GoodApart(h: Heap, short: map<nat, int>)
    requires Good(h, short)
    ensures AllApart(h.blocks)
  {
    var order :| Ordered(h, order, short);
    var lists :| Sound(h, order, lists) && Short(h, lists, short);
  }

  /** Everything the move of block `b` into a block of `size` bytes relies on and brings about. */
  lemma MoveGood(h: Heap, order: seq<nat>, b: nat, size: nat, space: nat, short: map<nat, int>)
    returns (list: seq<nat>, k: nat)
    requires Ordered(h, order, short) && b in h.blocks && HasRoom(h, order, size)
    requires space !in h.pages && Unused(h.pages, space, PagesFor(size))
    ensures Searchable(h, order)
    ensures var h1 := Allocated(h, order, size, space);
      && Extended(h.blocks, h1.blocks, Address(h, order, size, space), size) && AllApart(h1.blocks)
      && Freeable(h1, list, k) && list[k] == b && Reduced(h1.blocks, Freed(h1, list, k).blocks, b)
      && OutcomeOfFree(h1, Freed(h1, list, k), b, StillShort(h, order, size, space, short))
  {
    OrderedSearchable(h, order, short);
    AllocatedGood(h, order, size, space, short);
    var h1, short1 := Allocated(h, order, size, space), StillShort(h, order, size, space, short);
    GoodApart(h1, short1);
    assert SameData(h.blocks, h1.blocks, b);
    list, k := GoodFreeable(h1, b, short1);
  }

  /** The bytes after moving: the new block zeroed, the old contents copied, perhaps the old block zeroed. */
  ghost predicate Moved(bytes: nat -> int, bytes': nat -> int, b: nat, size: nat, b': nat, newSize: nat) {
    var copied := Copied(Zeroed(bytes, b' + HEADER, newSize), b' + HEADER, b + HEADER, size);
    bytes' == copied || bytes' == Zeroed(copied, b + HEADER, size)
  }

  lemma MoveUntouched(blocks: Blocks, bytes: nat -> int, bytes': nat -> int, b: nat, b': nat, newSize: nat, c: nat)
    requires AllApart(blocks) && b in blocks && b' in blocks && c in blocks && c != b && c != b'
    requires newSize <= blocks[b'].data.size && blocks[b].data.size <= newSize
    requires Moved(bytes, bytes', b, blocks[b].data.size, b', newSize)
    ensures forall x: nat :: c + HEADER <= x < End(blocks, c) ==> bytes'(x) == bytes(x)
  {
    assert Apart(blocks, b, c) && Apart(blocks, c, b);
    assert Apart(blocks, b', c) && Apart(blocks, c, b');
  }

  lemma MoveCopies(bytes: nat -> int, bytes': nat -> int, b: nat, size: nat, b': nat, newSize: nat)
    requires size <= newSize && Moved(bytes, bytes', b, size, b', newSize)
    requires b + HEADER + size <= b' || b' + HEADER + newSize <= b
    ensures forall x: nat :: b' + HEADER <= x < b' + HEADER + size ==> bytes'(x) == bytes(b + (x - b'))
    ensures forall x: nat :: b' + HEADER + size <= x < b' + HEADER + newSize ==> bytes'(x) == 0
  {
  }

  lemma MoveContents(blocks: Blocks, blocks1: Blocks, blocks': Blocks, bytes: nat -> int, bytes': nat -> int,
                     b: nat, b': nat, newSize: nat, size': nat)
    requires AllApart(blocks1) && b in blocks && blocks[b].data.size <= newSize <= size'
    requires Extended(blocks, blocks1, b', size') && Reduced(blocks1, blocks', b)
    requires Moved(bytes, bytes', b, blocks[b].data.size, b', newSize)
    ensures Reallocated(blocks, bytes, blocks', bytes', b, b', newSize)
  {
    assert SameData(blocks, blocks1, b) && SameData(blocks1, blocks', b');
    assert Apart(blocks1, b, b') && Apart(blocks1, b', b);
    MoveCopies(bytes, bytes', b, blocks[b].data.size, b', newSize);
    forall c | c in blocks && c != b ensures Untouched(blocks, bytes, blocks', bytes', c) {
      assert SameData(blocks, blocks1, c) && SameData(blocks1, blocks', c);
      MoveUntouched(blocks1, bytes, bytes', b, b', newSize, c);
    }
  }

  /** Growing the highest block in place touches no other block. */
  lemma GrowContents(blocks: Blocks, blocks': Blocks, bytes: nat -> int, bytes': nat -> int, b: nat, newSize: nat)
    requires b in blocks && blocks[b].data.size <= newSize && AllApart(blocks') && blocks'.Keys == blocks.Keys
    requires blocks'[b].data.size == newSize && forall c :: c in blocks && c != b ==> blocks'[c] == blocks[c]
    requires bytes' == Zeroed(bytes, b + HEADER + blocks[b].data.size, newSize - blocks[b].data.size)
    ensures Reallocated(blocks, bytes, blocks', bytes', b, b, newSize)
  {
    forall c | c in blocks && c != b ensures Untouched(blocks, bytes, blocks', bytes', c) {
      assert Apart(blocks', b, c) && Apart(blocks', c, b);
    }
  }

  lemma InPlaceGood(h: Heap, order: seq<nat>, b: nat, size: nat, short: map<nat, int>)
    requires Ordered(h, order, short) && b in h.blocks && h.blocks[b].data.page in h.pages
    requires var p := h.blocks[b].data.page; h.pages[p].data.highest == b && b + HEADER + size <= PageEnd(h.pages, p)
    ensures Good(Grown(h, b, size), Shorter(h, b, size, short))
    ensures AllApart(Grown(h, b, size).blocks)
  {
    GrownGood(h, order, b, size, short);
    GoodApart(Grown(h, b, size), Shorter(h, b, size, short));
  }

  lemma GoodBlock(h: Heap, order: seq<nat>, short: map<nat, int>, b: nat)
    requires Ordered(h, order, short) && b in h.blocks
    ensures h.blocks[b].data.page in h.pages
  {
    var lists :| Sound(h, order, lists) && Short(h, lists, short);
    assert BlockOk(h.blocks, h.pages, b);
  }

  /** The block can grow where it is. */
  predicate InPlace(h: Heap, b: nat, newSize: nat)
    requires b in h.blocks && h.blocks[b].data.page in h.pages
  {
    var p := h.blocks[b].data.page;
    h.pages[p].data.highest == b && b + HEADER + newSize <= PageEnd(h.pages, p)
  }

  /** The block grows and cannot do so where it is. */
  predicate Moves(h: Heap, b: nat, newSize: nat) {
    && b in h.blocks && h.blocks[b].data.page in h.pages
    && h.blocks[b].data.size < newSize && !InPlace(h, b, newSize)
  }

  datatype Call = Malloc(amount: nat, space: nat) | Free(b: nat)

  predicate Allocates(h: Heap, order: seq<nat>, size: nat, space: nat, h': Heap) {
    && space !in h.pages && Unused(h.pages, space, PagesFor(size)) && HasRoom(h, order, size)
    && h' == Allocated(h, order, size, space)
  }

  /**
   One call of kmalloc or kfree that the heap can take. Nothing is allocated for 0 bytes, and only
   live blocks are freed.
   */
  ghost predicate Step(h: Heap, call: Call, h': Heap) {
    match call
    case Malloc(amount, space) =>
      if amount == 0 then h' == h
      else exists order ::
        Linked(h.pages, Ends(h.head, h.tail), order) && Allocates(h, order, RoundUp(amount), space, h')
    case Free(b) =>
      if b !in h.blocks then h' == h
      else exists list, k :: Freeable(h, list, k) && list[k] == b && !LastOfHead(h, b) && h' == Freed(h, list, k)
  }

  lemma StepGood(h: Heap, call: Call, h': Heap)
    requires Good(h, map[]) && Step(h, call, h')
    ensures Good(h', map[])
  {
    match call {
      case Malloc(amount, space) => if amount > 0 { MallocStepGood(h, amount, space, h'); }
      case Free(b) => if b in h.blocks { FreeStepGood(h, b, h'); }
    }
  }

  lemma MallocStepGood(h: Heap, amount: nat, space: nat, h': Heap)
    requires Good(h, map[]) && amount > 0 && Step(h, Malloc(amount, space), h')
    ensures Good(h', map[])
  {
    var order :| Linked(h.pages, Ends(h.head, h.tail), order) && Allocates(h, order, RoundUp(amount), space, h');
    GoodOrdered(h, order, map[]);
    AllocatedGood(h, order, RoundUp(amount), space, map[]);
    assert StillShort(h, order, RoundUp(amount), space, map[]) == map[];
  }

  lemma GoodOrdered(h: Heap, order: seq<nat>, short: map<nat, int>)
    requires Good(h, short) && Linked(h.pages, Ends(h.head, h.tail), order)
    ensures Ordered(h, order, short)
  {
    var order1 :| Ordered(h, order1, short);
    var lists :| Sound(h, order1, lists) && Short(h, lists, short);
    LinkedUnique(h.pages, Ends(h.head, h.tail), order, order1);
  }

  lemma FreeStepGood(h: Heap, b: nat, h': Heap)
    requires Good(h, map[]) && b in h.blocks && Step(h, Free(b), h')
    ensures Good(h', map[])
  {
    var list, k :| Freeable(h, list, k) && list[k] == b && !LastOfHead(h, b) && h' == Freed(h, list, k);
    var list1, k1 := GoodFreeable(h, b, map[]);
    var d := h.pages[h.blocks[b].data.page].data;
    LinkedUnique(h.blocks, Ends(d.first, d.last), list, list1);
    DistinctPairs(list);
  }

  ghost predicate Run(heaps: seq<Heap>, calls: seq<Call>) {
    |heaps| == |calls| + 1 && forall i :: 0 <= i < |calls| ==> Step(heaps[i], calls[i], heaps[i + 1])
  }

  const EMPTY := Heap(map[], map[], 0, 0, 0)

  /** Every run of kmalloc and kfree keeps the heap good, with exact counts of used bytes. */
  lemma {:induction false} RunGood(heaps: seq<Heap>, calls: seq<Call>, i: nat)
    requires Run(heaps, calls) && heaps[0] == EMPTY && i < |heaps|
    ensures Good(heaps[i], map[])
  {
    if i == 0 {
      assert Sound(EMPTY, [], map[]);
      assert Ordered(EMPTY, [], map[]);
    } else {
      RunGood(heaps, calls, i - 1);
      StepGood(heaps[i - 1], calls[i - 1], heaps[i]);
    }
  }

  /** In a good heap live blocks do not overlap. */
  lemma GoodBlocksApart(h: Heap, short: map<nat, int>, b: nat, c: nat)
    requires Good(h, short) && b in h.blocks && c in h.blocks && b < c
    ensures b + HEADER + h.blocks[b].data.size <= c
  {
    GoodApart(h, short);
    assert Apart(h.blocks, b, c);
  }

  /** In a good heap live blocks lie inside their page blocks, behind the header. */
  lemma GoodBlockInside(h: Heap, short: map<nat, int>, b: nat)
    requires Good(h, short) && b in h.blocks
    ensures var p := h.blocks[b].data.page;
      p in h.pages && p + PAGE_HEADER <= b && b + HEADER + h.blocks[b].data.size <= p + h.pages[p].data.nPages * PAGE
  {
    var order :| Ordered(h, order, short);
    var lists :| Sound(h, order, lists) && Short(h, lists, short);
    assert BlockOk(h.blocks, h.pages, b);
  }

  /**
   In a good heap with exact counts every page block has a list that holds its live blocks, as many
   as counted, the highest as recorded, and with the used bytes as recorded.
   */
  lemma GoodPageBlock(h: Heap, p: nat) returns (list: seq<nat>)
    requires Good(h, map[]) && p in h.pages
    ensures PageMeans(h, p, list)
  {
    var order :| Ordered(h, order, map[]);
    var lists :| Sound(h, order, lists) && Short(h, lists, map[]);
    list := lists[p];
    GoodPage(h, order, lists, p);
  }

  ghost predicate PageMeans(h: Heap, p: nat, list: seq<nat>)
    requires p in h.pages
  {
    var d := h.pages[p].data;
    && Linked(h.blocks, Ends(d.first, d.last), list) && |list| == d.nMemBlocks && MaxOf(list) == d.highest
    && (forall b :: b in list <==> b in h.blocks && h.blocks[b].data.page == p)
    && d.nBytesUsed == Used(h.blocks, list)
  }

  lemma GoodPage(h: Heap, order: seq<nat>, lists: map<nat, seq<nat>>, p: nat)
    requires Sound(h, order, lists) && Short(h, lists, map[]) && p in h.pages
    ensures PageMeans(h, p, lists[p])
  {
    var list := lists[p];
    assert ListOk(h.blocks, h.pages, p, list) && HighestOk(h.blocks, h.pages, p);
    assert Shortfall(h.blocks, h.pages, lists, p) == 0;
    HighestSet(h.blocks, h.pages, lists, p);
    assert h.pages[p].data.highest in list;
    assert MaxOf(list) in list;
    assert BlockOk(h.blocks, h.pages, MaxOf(list));
  }
}
