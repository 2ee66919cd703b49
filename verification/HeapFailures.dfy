/** Inputs on which the kernel heap does not stay good. */
module HeapFailures {
  import opened LinkedList
  import opened KernelHeap
  import opened HeapAllocator

  lemma EmptyOrdered()
    ensures Ordered(EMPTY, [], map[])
  {
    assert Sound(EMPTY, [], map[]);
  }

  /**
   The first allocation of a heap: the heap is good if and only if the size, rounded up, does not
   end in the last 256 bytes before a multiple of eight pages.
   */
  lemma FirstAllocation(amount: nat, space: nat)
    requires amount > 0 && space != 0
    ensures var size := RoundUp(amount);
      (exists short :: Good(Allocated(EMPTY, [], size, space), short)) <==>
        !(size / PAGE % MIN_PAGES == 7 && size % PAGE > 3840)
  {
    var size := RoundUp(amount);
    EmptyOrdered();
    AllocatedGood(EMPTY, [], size, space, map[]);
    FreshFitsUnless(size);
  }

  /** kmalloc(32527) on an empty heap places a block that ends outside its page block. */
  lemma NoRoomWitness(space: nat)
    requires space != 0
    ensures var h := Allocated(EMPTY, [], RoundUp(32527), space);
      && space + PAGE_HEADER in h.blocks && space in h.pages
        && End(h.blocks, space + PAGE_HEADER) > PageEnd(h.pages, space)
      && forall short :: !Good(h, short)
  {
    assert RoundUp(32527) == 32528;
    FirstAllocation(32527, space);
  }

  /** The heap after kmalloc(16) on an empty heap. */
  function OneBlock(space: nat): Heap {
    var b := space + PAGE_HEADER;
    Heap(map[b := Cell(Block(32, space), 0, 0)],
         map[space := Cell(PageBlock(b, b, b, 1, 32 + HEADER, MIN_PAGES), 0, 0)], space, space, 1)
  }

  lemma OneBlockGood(space: nat)
    requires space != 0
    ensures Allocated(EMPTY, [], RoundUp(16), space) == OneBlock(space) && Good(OneBlock(space), map[])
  {
    EmptyOrdered();
    AllocatedGood(EMPTY, [], 32, space, map[]);
    FreshFitsUnless(32);
    assert RoundUp(16) == 32 && PagesFor(32) == MIN_PAGES;
    assert StillShort(EMPTY, [], 32, space, map[]) == map[];
  }

  /** kmalloc(16) and kfree of the block, on an empty heap: the head of the list is left dangling. */
  lemma FreeWitness(space: nat) returns (list: seq<nat>, k: nat)
    requires space != 0
    ensures var h := OneBlock(space);
      && Freeable(h, list, k) && list[k] == space + PAGE_HEADER
      && Freed(h, list, k).head == space && space !in Freed(h, list, k).pages
      && forall short :: !Good(Freed(h, list, k), short)
  {
    OneBlockGood(space);
    list, k := GoodFreeable(OneBlock(space), space + PAGE_HEADER, map[]);
    var h' := Freed(OneBlock(space), list, k);
    HeadDangles(h');
  }

  lemma ListOnce(h: Heap, lists: map<nat, seq<nat>>, lists': map<nat, seq<nat>>, p: nat)
    requires Listing(h.blocks, h.pages, lists) && Listing(h.blocks, h.pages, lists') && p in h.pages
    ensures p in lists && p in lists' && lists[p] == lists'[p]
  {
    assert ListOk(h.blocks, h.pages, p, lists[p]) && ListOk(h.blocks, h.pages, p, lists'[p]);
    var d := h.pages[p].data;
    LinkedUnique(h.blocks, Ends(d.first, d.last), lists[p], lists'[p]);
  }

  lemma GoodListing(h: Heap, short: map<nat, int>) returns (lists: map<nat, seq<nat>>)
    requires Good(h, short)
    ensures Listing(h.blocks, h.pages, lists) && Short(h, lists, short)
  {
    var order :| Ordered(h, order, short);
    lists :| Sound(h, order, lists) && Short(h, lists, short);
  }

  /** By how much the counts of used bytes fall short is determined by the heap. */
  lemma ShortOnce(h: Heap, short: map<nat, int>, short': map<nat, int>, p: nat)
    requires Good(h, short) && Good(h, short') && p in h.pages
    ensures Get(short, p) == Get(short', p)
  {
    var lists := GoodListing(h, short);
    var lists' := GoodListing(h, short');
    ListOnce(h, lists, lists', p);
    assert Shortfall(h.blocks, h.pages, lists, p) == Shortfall(h.blocks, h.pages, lists', p);
  }

  /**
   After growing the highest block of a page block in place the counts of used bytes are exact if and
   only if the size is what it was.
   */
  lemma GrownExact(h: Heap, order: seq<nat>, b: nat, size: nat)
    requires Ordered(h, order, map[]) && b in h.blocks && h.blocks[b].data.page in h.pages
    requires var p := h.blocks[b].data.page; h.pages[p].data.highest == b && b + HEADER + size <= PageEnd(h.pages, p)
    ensures Good(Grown(h, b, size), map[]) <==> size == h.blocks[b].data.size
  {
    var p := h.blocks[b].data.page;
    GrownGood(h, order, b, size, map[]);
    if Good(Grown(h, b, size), map[]) {
      ShortOnce(Grown(h, b, size), map[], map[p := size - h.blocks[b].data.size], p);
    }
    if size == h.blocks[b].data.size {
      assert Grown(h, b, size) == h;
    }
  }

  /** After shrinking any block the counts of used bytes are exact if and only if the size is what it was. */
  lemma ShrunkExact(h: Heap, order: seq<nat>, b: nat, size: nat)
    requires Ordered(h, order, map[]) && b in h.blocks && size <= h.blocks[b].data.size
    ensures Good(Grown(h, b, size), map[]) <==> size == h.blocks[b].data.size
  {
    var p := h.blocks[b].data.page;
    ShrunkGood(h, order, b, size, map[]);
    GoodBlock(h, order, map[], b);
    if Good(Grown(h, b, size), map[]) {
      ShortOnce(Grown(h, b, size), map[], map[p := size - h.blocks[b].data.size], p);
    }
    if size == h.blocks[b].data.size {
      assert Grown(h, b, size) == h;
    }
  }

  /**
   kmalloc(16) and krealloc of the block to 63 bytes, which become 64, on an empty heap: the count of
   used bytes is 32 too low.
   */
  lemma GrownWitness(space: nat)
    requires space != 0
    ensures var h := Grown(OneBlock(space), space + PAGE_HEADER, 64); Good(h, map[space := 32]) && !Good(h, map[])
  {
    var h, b := OneBlock(space), space + PAGE_HEADER;
    OneBlockGood(space);
    var order :| Ordered(h, order, map[]);
    GrownGood(h, order, b, 64, map[]);
    GrownExact(h, order, b, 64);
    assert Grown(h, b, 64).blocks == map[b := Cell(Block(64, space), 0, 0)];
  }

  /** The bytes from `a` to `e` are apart from the `n` bytes at `from`. */
  predicate Clear(a: nat, e: nat, from: nat, n: nat) {
    e <= from || from + n <= a
  }

  /**
   What shrinking zeroes meets neither the header nor the contents of another block, nor the header
   of a page block.
   */
  ghost predicate Harmless(h: Heap, b: nat, from: nat, n: nat) {
    && (forall c :: c in h.blocks && c != b ==> Clear(c, End(h.blocks, c), from, n))
    && (forall p :: p in h.pages ==> Clear(p, p + PAGE_HEADER, from, n))
  }

  lemma PagesClear(h: Heap, order: seq<nat>, lists: map<nat, seq<nat>>, b: nat, n: nat, p: nat)
    requires Sound(h, order, lists) && b in h.blocks && p in h.pages && !(End(h.blocks, b) <= p < End(h.blocks, b) + n)
    ensures Clear(p, p + PAGE_HEADER, End(h.blocks, b), n)
  {
    assert BlockOk(h.blocks, h.pages, b);
    var q := h.blocks[b].data.page;
    assert PagesApart(h.pages, p, q) && PagesApart(h.pages, q, p);
    assert ListOk(h.blocks, h.pages, p, lists[p]);
    var c := lists[p][0];
    assert c in lists[p];
    assert BlockOk(h.blocks, h.pages, c);
  }

  lemma BlocksClear(h: Heap, short: map<nat, int>, b: nat, n: nat, c: nat)
    requires Good(h, short) && b in h.blocks && c in h.blocks && c != b
    requires !(End(h.blocks, b) <= c < End(h.blocks, b) + n)
    ensures Clear(c, End(h.blocks, c), End(h.blocks, b), n)
  {
    if b < c { GoodBlocksApart(h, short, b, c); } else { GoodBlocksApart(h, short, c, b); }
  }

  /** Shrinking harms nothing if and only if no block or page block begins among the bytes it zeroes. */
  lemma SparesIff(h: Heap, short: map<nat, int>, b: nat, size: nat)
    requires Good(h, short) && b in h.blocks && size < h.blocks[b].data.size
    ensures Spares(h, b, size) <==> Harmless(h, b, End(h.blocks, b), h.blocks[b].data.size - size)
  {
    var from, n := End(h.blocks, b), h.blocks[b].data.size - size;
    if Spares(h, b, size) {
      var order :| Ordered(h, order, short);
      var lists :| Sound(h, order, lists) && Short(h, lists, short);
      forall c | c in h.blocks && c != b ensures Clear(c, End(h.blocks, c), from, n) {
        BlocksClear(h, short, b, n, c);
      }
      forall p | p in h.pages ensures Clear(p, p + PAGE_HEADER, from, n) {
        PagesClear(h, order, lists, b, n, p);
      }
    }
  }

  /** The heap after kmalloc(16) twice on an empty heap. */
  function TwoBlocks(space: nat): Heap {
    var b, c := space + PAGE_HEADER, space + PAGE_HEADER + HEADER + 32;
    Heap(map[b := Cell(Block(32, space), c, 0), c := Cell(Block(32, space), 0, b)],
         map[space := Cell(PageBlock(b, c, c, 2, 2 * (32 + HEADER), MIN_PAGES), 0, 0)], space, space, 1)
  }

  lemma OneBlockOrdered(space: nat)
    requires space != 0
    ensures Ordered(OneBlock(space), [space], map[])
  {
    OneBlockGood(space);
    var h := OneBlock(space);
    assert CellOk(h.pages, [space], 0);
    assert Ends(space, space) == EndsOf([space]);
    assert Linked(h.pages, Ends(h.head, h.tail), [space]);
    GoodOrdered(h, [space], map[]);
  }

  lemma SecondPlaced(space: nat)
    requires space != 0
    ensures var h := OneBlock(space);
      Fits(h.blocks, h.pages, space, 32) && Placed(h, space, 32) == TwoBlocks(space)
  {
    var h := OneBlock(space);
    var b, c := space + PAGE_HEADER, space + PAGE_HEADER + HEADER + 32;
    assert Top(h.blocks, h.pages, space) == c;
    assert Placed(h, space, 32).blocks == TwoBlocks(space).blocks;
    assert Placed(h, space, 32).pages == TwoBlocks(space).pages;
  }

  lemma TwoBlocksGood(space: nat, space': nat)
    requires space != 0 && space' != space && Unused(OneBlock(space).pages, space', MIN_PAGES)
    ensures Allocated(OneBlock(space), [space], RoundUp(16), space') == TwoBlocks(space)
    ensures Good(TwoBlocks(space), map[])
  {
    OneBlockOrdered(space);
    SecondPlaced(space);
    var h := OneBlock(space);
    assert RoundUp(16) == 32 && PagesFor(32) == MIN_PAGES;
    assert FirstFit(h.blocks, h.pages, [space], 32) == 0;
    AllocatedGood(h, [space], 32, space', map[]);
  }

  /** kmalloc(16) twice and krealloc of the first block to 1 byte: the header of the second block is zeroed. */
  lemma ShrinkWitness(space: nat, space': nat)
    requires space != 0 && space' != space && Unused(OneBlock(space).pages, space', MIN_PAGES)
    ensures var h, b := TwoBlocks(space), space + PAGE_HEADER;
      && Good(h, map[]) && RoundUp(1) == 16 && !Spares(h, b, 16) && End(h.blocks, b) in h.blocks
  {
    TwoBlocksGood(space, space');
    var h, b := TwoBlocks(space), space + PAGE_HEADER;
    assert End(h.blocks, b) in h.blocks;
  }
}
