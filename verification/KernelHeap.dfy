/**
 The kernel heap: page blocks obtained from the virtual allocator, each with a list of the memory
 blocks placed in it. Headers are kept apart from the bytes handed out to callers.
 */
module KernelHeap {
  import opened LinkedList

  const HEADER := 112 // size of a memory block's header
  const PAGE_HEADER := 144 // size of a page block's header
  const PAGE := 4096
  const MIN_PAGES := 8
  const ALIGNMENT := 16

  datatype Block = Block(size: nat, page: nat)
  datatype PageBlock = PageBlock(first: nat, last: nat, highest: nat, nMemBlocks: nat, nBytesUsed: int, nPages: nat)

  type Blocks = map<nat, Cell<Block>>
  type PageBlocks = map<nat, Cell<PageBlock>>

  function RoundUp(amount: nat): nat {
    (amount / ALIGNMENT + 1) * ALIGNMENT
  }

  /** The size of the page block allocated for a request: only the requested bytes are counted. */
  function PagesFor(amount: nat): nat {
    var n := amount / PAGE;
    n + (MIN_PAGES - n % MIN_PAGES)
  }

  /** A fresh page block has room for its own header, the block's header and the block. */
  predicate FreshFits(amount: nat) {
    PAGE_HEADER + HEADER + amount <= PagesFor(amount) * PAGE
  }

  lemma FreshFitsUnless(amount: nat)
    ensures FreshFits(amount) <==> !(amount / PAGE % MIN_PAGES == 7 && amount % PAGE > 3840)
  {
    var q := amount / PAGE;
    assert amount == q * PAGE + amount % PAGE;
  }

  function End(blocks: Blocks, b: nat): nat
    requires b in blocks
  {
    b + HEADER + blocks[b].data.size
  }

  function PageEnd(pages: PageBlocks, p: nat): nat
    requires p in pages
  {
    p + pages[p].data.nPages * PAGE
  }

  /** A live block lies in its page block, not above the highest one. */
  predicate BlockOk(blocks: Blocks, pages: PageBlocks, b: nat)
    requires b in blocks
  {
    var p := blocks[b].data.page;
    && p in pages && p + PAGE_HEADER <= b <= pages[p].data.highest && End(blocks, b) <= PageEnd(pages, p)
  }

  predicate HighestOk(blocks: Blocks, pages: PageBlocks, p: nat)
    requires p in pages
  {
    var h := pages[p].data.highest;
    h == 0 || (h in blocks && blocks[h].data.page == p)
  }

  predicate Apart(blocks: Blocks, b: nat, c: nat) {
    b in blocks && c in blocks && b < c ==> End(blocks, b) <= c
  }

  predicate PagesApart(pages: PageBlocks, p: nat, q: nat) {
    p in pages && q in pages && p < q ==> PageEnd(pages, p) <= q
  }

  /** Live blocks do not overlap, lie in their page blocks, and the highest ones are known. */
  ghost predicate Layout(blocks: Blocks, pages: PageBlocks) {
    && (forall b {:trigger BlockOk(blocks, pages, b)} :: b in blocks ==> BlockOk(blocks, pages, b))
    && (forall p {:trigger HighestOk(blocks, pages, p)} :: p in pages ==> HighestOk(blocks, pages, p))
    && (forall b: nat, c: nat :: Apart(blocks, b, c))
    && (forall p: nat, q: nat :: PagesApart(pages, p, q))
  }

  /** The list of a page block holds exactly its live blocks. */
  ghost predicate ListOk(blocks: Blocks, pages: PageBlocks, p: nat, list: seq<nat>) {
    p in pages &&
    var d := pages[p].data;
    && Linked(blocks, Ends(d.first, d.last), list) && d.nMemBlocks == |list|
    && (forall b :: b in list <==> b in blocks && blocks[b].data.page == p)
  }

  ghost predicate Listing(blocks: Blocks, pages: PageBlocks, lists: map<nat, seq<nat>>) {
    && lists.Keys == pages.Keys
    && (forall p {:trigger ListOk(blocks, pages, p, lists[p])} :: p in lists ==> ListOk(blocks, pages, p, lists[p]))
  }

  /** Where the next block of a page block goes. */
  function Top(blocks: Blocks, pages: PageBlocks, p: nat): nat
    requires p in pages && HighestOk(blocks, pages, p)
  {
    if pages[p].data.highest == 0 then p + PAGE_HEADER else End(blocks, pages[p].data.highest)
  }

  /** No live block reaches into the room above the top of a page block. */
  lemma RoomAbove(blocks: Blocks, pages: PageBlocks, p: nat, c: nat)
    requires Layout(blocks, pages) && p in pages && c in blocks && HighestOk(blocks, pages, p)
    ensures End(blocks, c) <= Top(blocks, pages, p) || c >= PageEnd(pages, p)
  {
    assert BlockOk(blocks, pages, c);
    var q := blocks[c].data.page;
    if q == p {
      assert Apart(blocks, c, pages[p].data.highest);
    } else {
      assert PagesApart(pages, p, q) && PagesApart(pages, q, p);
      if pages[p].data.highest != 0 { assert BlockOk(blocks, pages, pages[p].data.highest); }
    }
  }

  /** The page block's fields after a block was placed. */
  function WithBlock(d: PageBlock, b: nat, size: nat): PageBlock {
    d.(first := if d.first == 0 then b else d.first, last := b, highest := if b > d.highest then b else d.highest,
       nMemBlocks := d.nMemBlocks + 1, nBytesUsed := d.nBytesUsed + size + HEADER)
  }

  /** A block has been placed on top of page block `p`. */
  ghost predicate Placing(blocks: Blocks, pages: PageBlocks, blocks': Blocks, pages': PageBlocks, p: nat, b: nat,
                          size: nat) {
    && p in pages && HighestOk(blocks, pages, p) && b == Top(blocks, pages, p) && b !in blocks
    && blocks'.Keys == blocks.Keys + {b}
    && (forall c :: c in blocks' ==> blocks'[c] == AppendedAt(blocks, pages[p].data.last, b, Block(size, p), c))
    && pages' == pages[p := pages[p].(data := WithBlock(pages[p].data, b, size))]
  }

  /** A block placed where there is room for it keeps the layout. */
  lemma PlacedLayout(blocks: Blocks, pages: PageBlocks, blocks': Blocks, pages': PageBlocks, p: nat, b: nat, size: nat)
    requires Layout(blocks, pages) && Placing(blocks, pages, blocks', pages', p, b, size)
    requires b + HEADER + size <= PageEnd(pages, p)
    ensures Layout(blocks', pages')
  {
    if pages[p].data.highest != 0 { assert BlockOk(blocks, pages, pages[p].data.highest); }
    forall c | c in blocks' ensures BlockOk(blocks', pages', c) {
      if c != b { assert BlockOk(blocks, pages, c); }
    }
    forall c: nat, e: nat ensures Apart(blocks', c, e) {
      assert Apart(blocks, c, e);
      if c == b && e in blocks { RoomAbove(blocks, pages, p, e); }
      if e == b && c in blocks { RoomAbove(blocks, pages, p, c); }
    }
    forall q: nat, r: nat ensures PagesApart(pages', q, r) {
      assert PagesApart(pages, q, r);
    }
    forall q | q in pages' ensures HighestOk(blocks', pages', q) {
      assert HighestOk(blocks, pages, q);
    }
  }

  lemma PlacedElsewhere(blocks: Blocks, pages: PageBlocks, blocks': Blocks, pages': PageBlocks, p: nat, b: nat,
                        size: nat, last: seq<nat>, q: nat, list: seq<nat>)
    requires ListOk(blocks, pages, p, last) && Placing(blocks, pages, blocks', pages', p, b, size)
    requires ListOk(blocks, pages, q, list) && q != p
    ensures ListOk(blocks', pages', q, list)
  {
    var d := pages[q].data;
    if last != [] { assert last[|last| - 1] in last; }
    forall i | 0 <= i < |list| ensures Same(blocks, blocks', list[i]) {
      assert list[i] in list;
    }
    LinkedFrame(blocks, blocks', Ends(d.first, d.last), list);
  }

  lemma PlacedListing(blocks: Blocks, pages: PageBlocks, lists: map<nat, seq<nat>>,
                      blocks': Blocks, pages': PageBlocks, p: nat, b: nat, size: nat)
    requires Listing(blocks, pages, lists) && Placing(blocks, pages, blocks', pages', p, b, size) && b != 0
    ensures Listing(blocks', pages', lists[p := lists[p] + [b]])
  {
    var lists' := lists[p := lists[p] + [b]];
    var d := pages[p].data;
    assert ListOk(blocks, pages, p, lists[p]);
    forall q | q in lists' ensures ListOk(blocks', pages', q, lists'[q]) {
      if q == p {
        AppendLinked(blocks, blocks', Ends(d.first, d.last), b, Block(size, p), lists[p]);
      } else {
        PlacedElsewhere(blocks, pages, blocks', pages', p, b, size, lists[p], q, lists[q]);
      }
    }
  }

  /** The bytes taken up by the listed blocks and their headers. */
  function Used(blocks: Blocks, list: seq<nat>): nat {
    if list == [] then 0
    else
      var n := |list| - 1;
      Used(blocks, list[..n]) + (if list[n] in blocks then blocks[list[n]].data.size + HEADER else 0)
  }

  predicate SameData(blocks: Blocks, blocks': Blocks, b: nat) {
    b in blocks && b in blocks' && blocks'[b].data == blocks[b].data
  }

  lemma {:induction false} UsedSame(blocks: Blocks, blocks': Blocks, list: seq<nat>)
    requires forall i :: 0 <= i < |list| ==> SameData(blocks, blocks', list[i])
    ensures Used(blocks', list) == Used(blocks, list)
  {
    if list != [] {
      assert SameData(blocks, blocks', list[|list| - 1]);
      UsedSame(blocks, blocks', list[..|list| - 1]);
    }
  }

  lemma {:induction false} UsedCut(blocks: Blocks, list: seq<nat>, k: nat)
    requires k < |list| && list[k] in blocks
    ensures Used(blocks, Cut(list, k)) == Used(blocks, list) - blocks[list[k]].data.size - HEADER
  {
    var n := |list| - 1;
    if k == n {
      assert Cut(list, k) == list[..n];
    } else {
      UsedCut(blocks, list[..n], k);
      assert Cut(list, k)[..n - 1] == Cut(list[..n], k);
      assert Cut(list, k)[n - 1] == list[n];
    }
  }

  /** How far the page block's count of used bytes falls short of its blocks. */
  function Shortfall(blocks: Blocks, pages: PageBlocks, lists: map<nat, seq<nat>>, p: nat): int {
    if p in pages && p in lists then Used(blocks, lists[p]) - pages[p].data.nBytesUsed else 0
  }

  lemma PlacedShortfall(blocks: Blocks, pages: PageBlocks, lists: map<nat, seq<nat>>,
                        blocks': Blocks, pages': PageBlocks, p: nat, b: nat, size: nat, q: nat)
    requires Listing(blocks, pages, lists) && Placing(blocks, pages, blocks', pages', p, b, size) && q in pages
    ensures Shortfall(blocks', pages', lists[p := lists[p] + [b]], q) == Shortfall(blocks, pages, lists, q)
  {
    assert ListOk(blocks, pages, q, lists[q]);
    forall i | 0 <= i < |lists[q]| ensures SameData(blocks, blocks', lists[q][i]) {
      assert lists[q][i] in lists[q];
    }
    UsedSame(blocks, blocks', lists[q]);
    if q == p { assert (lists[q] + [b])[..|lists[q]|] == lists[q]; }
  }

  /** `pages'` has the empty page block `a` of `n` pages besides those of `pages`. */
  ghost predicate Adding(pages: PageBlocks, pages': PageBlocks, a: nat, n: nat) {
    && a !in pages && Unused(pages, a, n)
    && pages'.Keys == pages.Keys + {a} && pages'[a].data == PageBlock(0, 0, 0, 0, 0, n)
    && (forall p :: p in pages ==> pages'[p].data == pages[p].data)
  }

  lemma AddedLayout(blocks: Blocks, pages: PageBlocks, pages': PageBlocks, a: nat, n: nat)
    requires Layout(blocks, pages) && Adding(pages, pages', a, n)
    ensures Layout(blocks, pages')
  {
    forall b | b in blocks ensures BlockOk(blocks, pages', b) {
      assert BlockOk(blocks, pages, b);
    }
    forall p | p in pages' ensures HighestOk(blocks, pages', p) {
      if p != a { assert HighestOk(blocks, pages, p); }
    }
    forall p: nat, q: nat ensures PagesApart(pages', p, q) {
      assert PagesApart(pages, p, q);
    }
  }

  lemma AddedListing(blocks: Blocks, pages: PageBlocks, lists: map<nat, seq<nat>>, pages': PageBlocks, a: nat, n: nat)
    requires Layout(blocks, pages) && Listing(blocks, pages, lists) && Adding(pages, pages', a, n)
    ensures Listing(blocks, pages', lists[a := []])
  {
    var lists' := lists[a := []];
    forall b | b in blocks ensures blocks[b].data.page != a {
      assert BlockOk(blocks, pages, b);
    }
    forall p | p in lists' ensures ListOk(blocks, pages', p, lists'[p]) {
      if p != a { assert ListOk(blocks, pages, p, lists[p]); }
    }
  }

  /** Memory the virtual allocator may return: apart from every page block. */
  predicate Unused(pages: PageBlocks, a: nat, n: nat) {
    a != 0 && forall p :: p in pages ==> PageEnd(pages, p) <= a || a + n * PAGE <= p
  }

  predicate Fits(blocks: Blocks, pages: PageBlocks, p: nat, size: nat) {
    p in pages && HighestOk(blocks, pages, p) && Top(blocks, pages, p) + HEADER + size <= PageEnd(pages, p)
  }

  lemma TopUnused(blocks: Blocks, pages: PageBlocks, p: nat)
    requires Layout(blocks, pages) && p in pages && HighestOk(blocks, pages, p)
    requires Top(blocks, pages, p) < PageEnd(pages, p)
    ensures Top(blocks, pages, p) !in blocks && Top(blocks, pages, p) != 0
  {
    var b := Top(blocks, pages, p);
    if b in blocks { RoomAbove(blocks, pages, p, b); }
  }

  datatype Heap = Heap(blocks: Blocks, pages: PageBlocks, head: nat, tail: nat, nPageBlocks: nat)

  /** Everything that holds of the heap, with the lists spelled out. */
  ghost predicate Base(h: Heap, order: seq<nat>, lists: map<nat, seq<nat>>) {
    && Layout(h.blocks, h.pages) && Listing(h.blocks, h.pages, lists)
    && Linked(h.pages, Ends(h.head, h.tail), order) && h.nPageBlocks == |order|
    && (forall p :: p in h.pages <==> p in order)
  }

  /** No page block is empty. */
  ghost predicate Sound(h: Heap, order: seq<nat>, lists: map<nat, seq<nat>>) {
    Base(h, order, lists) && forall p :: p in lists ==> lists[p] != []
  }

  function Get(short: map<nat, int>, p: nat): int {
    if p in short then short[p] else 0
  }

  /** The counts of used bytes fall short of the blocks by the given amounts. */
  ghost predicate Short(h: Heap, lists: map<nat, seq<nat>>, short: map<nat, int>) {
    forall p {:trigger Shortfall(h.blocks, h.pages, lists, p)} :: p in h.pages ==>
      Shortfall(h.blocks, h.pages, lists, p) == Get(short, p)
  }

  /** The heap with page blocks `order` is sound, and its counts of used bytes fall short by the given amounts. */
  ghost predicate Ordered(h: Heap, order: seq<nat>, short: map<nat, int>) {
    exists lists :: Sound(h, order, lists) && Short(h, lists, short)
  }

  ghost predicate Good(h: Heap, short: map<nat, int>) {
    exists order :: Ordered(h, order, short)
  }

  /** Good, but for the page block `a` of `n` pages, which is still empty. */
  ghost predicate Pending(h: Heap, a: nat, n: nat, short: map<nat, int>) {
    exists order, lists :: Base(h, order, lists) && Short(h, lists, short) && AllButOne(lists, a)
      && a in h.pages && h.pages[a].data == PageBlock(0, 0, 0, 0, 0, n)
  }

  ghost predicate AllButOne(lists: map<nat, seq<nat>>, a: nat) {
    forall q :: q in lists && q != a ==> lists[q] != []
  }

  lemma HighestSet(blocks: Blocks, pages: PageBlocks, lists: map<nat, seq<nat>>, p: nat)
    requires Layout(blocks, pages) && Listing(blocks, pages, lists) && p in pages && lists[p] != []
    ensures pages[p].data.highest != 0 && pages[p].data.highest in blocks && pages[p].data.first != 0
  {
    assert ListOk(blocks, pages, p, lists[p]);
    assert lists[p][0] in lists[p];
    assert BlockOk(blocks, pages, lists[p][0]) && HighestOk(blocks, pages, p);
  }

  /** The list of page blocks does not depend on their contents. */
  lemma PageDataFrame(pages: PageBlocks, pages': PageBlocks, ends: Ends, order: seq<nat>)
    requires Linked(pages, ends, order) && pages'.Keys == pages.Keys
    requires forall p :: p in pages ==> pages'[p].next == pages[p].next && pages'[p].prev == pages[p].prev
    ensures Linked(pages', ends, order)
  {
    forall i | 0 <= i < |order| ensures CellOk(pages', order, i) {
      assert CellOk(pages, order, i);
    }
  }

  /** The first page block in list order with room for `size` bytes. */
  function FirstFit(blocks: Blocks, pages: PageBlocks, order: seq<nat>, size: nat): (k: nat)
    ensures k <= |order|
    ensures forall i :: 0 <= i < k ==> !Fits(blocks, pages, order[i], size)
    ensures k < |order| ==> Fits(blocks, pages, order[k], size)
  {
    if order == [] || Fits(blocks, pages, order[0], size) then 0 else 1 + FirstFit(blocks, pages, order[1..], size)
  }

  /** The heap after a block of `size` bytes was put on top of page block `p`. */
  function Placed(h: Heap, p: nat, size: nat): Heap
    requires p in h.pages && HighestOk(h.blocks, h.pages, p)
  {
    var d, b := h.pages[p].data, Top(h.blocks, h.pages, p);
    var m := h.blocks[b := Cell(Block(size, p), 0, d.last)];
    h.(blocks := if d.last != 0 && d.last in m then m[d.last := m[d.last].(next := b)] else m,
       pages := h.pages[p := h.pages[p].(data := WithBlock(d, b, size))])
  }

  lemma PlacedIsPlacing(h: Heap, p: nat, size: nat, list: seq<nat>)
    requires ListOk(h.blocks, h.pages, p, list) && HighestOk(h.blocks, h.pages, p)
    requires Top(h.blocks, h.pages, p) !in h.blocks
    ensures var h' := Placed(h, p, size);
      Placing(h.blocks, h.pages, h'.blocks, h'.pages, p, Top(h.blocks, h.pages, p), size)
  {
    if list != [] { assert CellOk(h.blocks, list, |list| - 1); }
  }

  function Pushed(lists: map<nat, seq<nat>>, p: nat, b: nat): map<nat, seq<nat>> {
    if p in lists then lists[p := lists[p] + [b]] else lists
  }

  /** The heap stays sound exactly if the block ends within its page block. */
  lemma PlacedBase(h: Heap, order: seq<nat>, lists: map<nat, seq<nat>>, p: nat, size: nat)
    requires Base(h, order, lists) && p in h.pages && HighestOk(h.blocks, h.pages, p)
    requires Top(h.blocks, h.pages, p) < PageEnd(h.pages, p)
    ensures Base(Placed(h, p, size), order, Pushed(lists, p, Top(h.blocks, h.pages, p))) <==>
      Fits(h.blocks, h.pages, p, size)
  {
    var h', b := Placed(h, p, size), Top(h.blocks, h.pages, p);
    TopUnused(h.blocks, h.pages, p);
    PlacedIsPlacing(h, p, size, lists[p]);
    PlacedListing(h.blocks, h.pages, lists, h'.blocks, h'.pages, p, b, size);
    PageDataFrame(h.pages, h'.pages, Ends(h.head, h.tail), order);
    if Fits(h.blocks, h.pages, p, size) {
      PlacedLayout(h.blocks, h.pages, h'.blocks, h'.pages, p, b, size);
    } else {
      assert !BlockOk(h'.blocks, h'.pages, b);
    }
  }

  lemma PlacedShort(h: Heap, order: seq<nat>, lists: map<nat, seq<nat>>, p: nat, size: nat, short: map<nat, int>)
    requires Base(h, order, lists) && p in h.pages && HighestOk(h.blocks, h.pages, p)
    requires Top(h.blocks, h.pages, p) < PageEnd(h.pages, p) && Short(h, lists, short)
    ensures Short(Placed(h, p, size), Pushed(lists, p, Top(h.blocks, h.pages, p)), short)
  {
    var h', b := Placed(h, p, size), Top(h.blocks, h.pages, p);
    TopUnused(h.blocks, h.pages, p);
    PlacedIsPlacing(h, p, size, lists[p]);
    forall q | q in h'.pages ensures Shortfall(h'.blocks, h'.pages, Pushed(lists, p, b), q) == Get(short, q) {
      PlacedShortfall(h.blocks, h.pages, lists, h'.blocks, h'.pages, p, b, size, q);
    }
  }

  /** The heap after an empty page block of `n` pages was appended. */
  function WithPage(h: Heap, a: nat, n: nat): Heap {
    var m := h.pages[a := Cell(PageBlock(0, 0, 0, 0, 0, n), 0, h.tail)];
    h.(pages := if h.tail != 0 && h.tail in m then m[h.tail := m[h.tail].(next := a)] else m,
       head := if h.head == 0 then a else h.head, tail := a, nPageBlocks := h.nPageBlocks + 1)
  }

  lemma WithPageIsAppended(h: Heap, order: seq<nat>, a: nat, n: nat)
    requires Linked(h.pages, Ends(h.head, h.tail), order) && a !in h.pages && Unused(h.pages, a, n)
    ensures var h' := WithPage(h, a, n);
      Adding(h.pages, h'.pages, a, n) && Linked(h'.pages, Ends(h'.head, h'.tail), order + [a])
  {
    if order != [] { assert CellOk(h.pages, order, |order| - 1); }
    AppendLinked(h.pages, WithPage(h, a, n).pages, Ends(h.head, h.tail), a, PageBlock(0, 0, 0, 0, 0, n), order);
  }

  lemma WithPageBase(h: Heap, order: seq<nat>, lists: map<nat, seq<nat>>, a: nat, n: nat)
    requires Base(h, order, lists) && a !in h.pages && Unused(h.pages, a, n)
    ensures Base(WithPage(h, a, n), order + [a], lists[a := []])
  {
    var h' := WithPage(h, a, n);
    WithPageIsAppended(h, order, a, n);
    AddedLayout(h.blocks, h.pages, h'.pages, a, n);
    AddedListing(h.blocks, h.pages, lists, h'.pages, a, n);
  }

  lemma WithPageShort(h: Heap, h': Heap, lists: map<nat, seq<nat>>, a: nat, n: nat, short: map<nat, int>)
    requires lists.Keys == h.pages.Keys && Short(h, lists, short)
    requires Adding(h.pages, h'.pages, a, n) && h'.blocks == h.blocks
    ensures Short(h', lists[a := []], short - {a})
  {
    forall p | p in h'.pages ensures Shortfall(h'.blocks, h'.pages, lists[a := []], p) == Get(short - {a}, p) {
      if p != a { assert Shortfall(h.blocks, h.pages, lists, p) == Get(short, p); }
    }
  }

  /** The heap after an allocation: the first page block with room is used, or a new one at `space`. */
  function Allocated(h: Heap, order: seq<nat>, size: nat, space: nat): Heap {
    var k := FirstFit(h.blocks, h.pages, order, size);
    if k < |order| then Placed(h, order[k], size) else Placed(WithPage(h, space, PagesFor(size)), space, size)
  }

  /** Where the block was put. */
  function Address(h: Heap, order: seq<nat>, size: nat, space: nat): nat {
    var k := FirstFit(h.blocks, h.pages, order, size);
    if k < |order| then Top(h.blocks, h.pages, order[k]) else space + PAGE_HEADER
  }

  predicate HasRoom(h: Heap, order: seq<nat>, size: nat) {
    FirstFit(h.blocks, h.pages, order, size) < |order| || FreshFits(size)
  }

  /** What is right or wrong with the counts of used bytes after an allocation. */
  function StillShort(h: Heap, order: seq<nat>, size: nat, space: nat, short: map<nat, int>): map<nat, int> {
    if FirstFit(h.blocks, h.pages, order, size) < |order| then short else short - {space}
  }

  lemma PushedNonEmpty(lists: map<nat, seq<nat>>, p: nat, b: nat)
    requires AllButOne(lists, p)
    ensures forall q :: q in Pushed(lists, p, b) ==> Pushed(lists, p, b)[q] != []
  {
  }

  lemma PlacedGood(h: Heap, order: seq<nat>, lists: map<nat, seq<nat>>, p: nat, size: nat, short: map<nat, int>)
    requires Base(h, order, lists) && Short(h, lists, short) && p in h.pages && HighestOk(h.blocks, h.pages, p)
    requires Top(h.blocks, h.pages, p) < PageEnd(h.pages, p) && AllButOne(lists, p)
    ensures if Fits(h.blocks, h.pages, p, size) then Good(Placed(h, p, size), short)
      else forall short' :: !Good(Placed(h, p, size), short')
  {
    var h', b := Placed(h, p, size), Top(h.blocks, h.pages, p);
    if Fits(h.blocks, h.pages, p, size) {
      PlacedBase(h, order, lists, p, size);
      PlacedShort(h, order, lists, p, size, short);
      PushedNonEmpty(lists, p, b);
      assert Sound(h', order, Pushed(lists, p, b));
      assert Ordered(h', order, short);
    } else {
      PlacedOutside(h, p, size);
    }
  }

  lemma PlacedOutside(h: Heap, p: nat, size: nat)
    requires p in h.pages && HighestOk(h.blocks, h.pages, p) && !Fits(h.blocks, h.pages, p, size)
    ensures forall short' :: !Good(Placed(h, p, size), short')
  {
    var h', b := Placed(h, p, size), Top(h.blocks, h.pages, p);
    assert b in h'.blocks && !BlockOk(h'.blocks, h'.pages, b);
  }

  /** Block `b` of `size` bytes is new and the other blocks are as they were. */
  ghost predicate Extended(blocks: Blocks, blocks': Blocks, b: nat, size: nat) {
    && b !in blocks && blocks'.Keys == blocks.Keys + {b} && blocks'[b].data.size == size
    && (forall c :: c in blocks ==> SameData(blocks, blocks', c))
  }

  lemma AllocatedOld(h: Heap, order: seq<nat>, size: nat, p: nat, short: map<nat, int>)
    requires Ordered(h, order, short) && Fits(h.blocks, h.pages, p, size)
    ensures Good(Placed(h, p, size), short)
    ensures Extended(h.blocks, Placed(h, p, size).blocks, Top(h.blocks, h.pages, p), size)
  {
    var lists :| Sound(h, order, lists) && Short(h, lists, short);
    PlacedGood(h, order, lists, p, size, short);
    TopUnused(h.blocks, h.pages, p);
    PlacedIsPlacing(h, p, size, lists[p]);
  }

  lemma PagePending(h: Heap, order: seq<nat>, a: nat, n: nat, short: map<nat, int>)
    requires Ordered(h, order, short) && a !in h.pages && Unused(h.pages, a, n)
    ensures Pending(WithPage(h, a, n), a, n, short - {a})
  {
    var lists :| Sound(h, order, lists) && Short(h, lists, short);
    var h' := WithPage(h, a, n);
    WithPageIsAppended(h, order, a, n);
    WithPageBase(h, order, lists, a, n);
    WithPageShort(h, h', lists, a, n, short);
    assert AllButOne(lists[a := []], a);
  }

  lemma PendingPlaced(h: Heap, a: nat, size: nat, short: map<nat, int>)
    requires Pending(h, a, PagesFor(size), short)
    ensures if FreshFits(size) then Good(Placed(h, a, size), short)
      else forall short' :: !Good(Placed(h, a, size), short')
    ensures Extended(h.blocks, Placed(h, a, size).blocks, a + PAGE_HEADER, size)
  {
    var order, lists :| Base(h, order, lists) && Short(h, lists, short) && AllButOne(lists, a)
      && a in h.pages && h.pages[a].data == PageBlock(0, 0, 0, 0, 0, PagesFor(size));
    PlacedGood(h, order, lists, a, size, short);
    TopUnused(h.blocks, h.pages, a);
    PlacedIsPlacing(h, a, size, lists[a]);
  }

  /**
   Allocation keeps the heap good exactly if a page block in use has room or the new page block fits
   the block. The other blocks stay where they are.
   */
  lemma AllocatedGood(h: Heap, order: seq<nat>, size: nat, space: nat, short: map<nat, int>)
    requires Ordered(h, order, short) && space !in h.pages && Unused(h.pages, space, PagesFor(size))
    ensures var h' := Allocated(h, order, size, space);
      if HasRoom(h, order, size) then Good(h', StillShort(h, order, size, space, short))
        else forall short' :: !Good(h', short')
    ensures Extended(h.blocks, Allocated(h, order, size, space).blocks, Address(h, order, size, space), size)
  {
    var k := FirstFit(h.blocks, h.pages, order, size);
    if k < |order| {
      AllocatedOld(h, order, size, order[k], short);
    } else {
      PagePending(h, order, space, PagesFor(size), short);
      PendingPlaced(WithPage(h, space, PagesFor(size)), space, size, short - {space});
    }
  }

  function MaxOf(list: seq<nat>): (m: nat)
    ensures list != [] ==> m in list
    ensures forall i :: 0 <= i < |list| ==> list[i] <= m
  {
    if list == [] then 0
    else
      var n := |list| - 1;
      var m := MaxOf(list[..n]);
      if list[n] > m then list[n] else m
  }

  /** The page block's fields after block `b` with header `c` left its list. */
  function WithoutBlock(d: PageBlock, b: nat, c: Cell<Block>, highest: nat): PageBlock
    requires d.nMemBlocks > 0
  {
    d.(first := if d.first == b then c.next else d.first,
       last := if d.last == b then c.prev else d.last, highest := highest,
       nMemBlocks := d.nMemBlocks - 1, nBytesUsed := d.nBytesUsed - (HEADER + c.data.size))
  }

  /** The heap after block `b` left a page block that keeps other blocks. */
  function Released(h: Heap, b: nat, highest: nat): Heap
    requires b in h.blocks && h.blocks[b].data.page in h.pages && h.pages[h.blocks[b].data.page].data.nMemBlocks > 0
  {
    var c := h.blocks[b];
    var p := c.data.page;
    h.(blocks := Unlinked(h.blocks, b) - {b},
       pages := h.pages[p := h.pages[p].(data := WithoutBlock(h.pages[p].data, b, c, highest))])
  }

  /** Fewer blocks, with the highest ones known, in the same page blocks. */
  lemma FewerLayout(blocks: Blocks, pages: PageBlocks, blocks': Blocks, pages': PageBlocks)
    requires Layout(blocks, pages) && blocks'.Keys <= blocks.Keys && pages'.Keys <= pages.Keys
    requires forall b :: b in blocks' ==> SameData(blocks, blocks', b)
    requires forall p :: p in pages' ==> pages'[p].data.nPages == pages[p].data.nPages && HighestOk(blocks', pages', p)
    requires forall b :: b in blocks' ==> var p := blocks'[b].data.page; p in pages' && b <= pages'[p].data.highest
    ensures Layout(blocks', pages')
  {
    forall b | b in blocks' ensures BlockOk(blocks', pages', b) {
      assert BlockOk(blocks, pages, b) && SameData(blocks, blocks', b);
    }
    forall b: nat, c: nat ensures Apart(blocks', b, c) {
      assert Apart(blocks, b, c);
      if b in blocks' && c in blocks' { assert SameData(blocks, blocks', b); }
    }
    forall p: nat, q: nat ensures PagesApart(pages', p, q) {
      assert PagesApart(pages, p, q);
    }
  }

  /** All blocks but `b` are as they were. */
  ghost predicate Reduced(blocks: Blocks, blocks': Blocks, b: nat) {
    b in blocks && blocks'.Keys == blocks.Keys - {b} && forall c :: c in blocks' ==> SameData(blocks, blocks', c)
  }

  lemma UnlinkedReduces(blocks: Blocks, b: nat)
    requires b in blocks
    ensures Reduced(blocks, Unlinked(blocks, b) - {b}, b)
  {
    UnlinkedCells(blocks, b);
  }

  /** The lists of other page blocks do not notice. */
  lemma ReleasedElsewhere(blocks: Blocks, pages: PageBlocks, p: nat, list: seq<nat>, k: nat, q: nat, other: seq<nat>)
    requires ListOk(blocks, pages, p, list) && k < |list| && ListOk(blocks, pages, q, other) && q != p
    ensures list[k] in blocks
    ensures var blocks' := Unlinked(blocks, list[k]) - {list[k]};
      Linked(blocks', Ends(pages[q].data.first, pages[q].data.last), other)
  {
    var b := list[k];
    assert b in list && CellOk(blocks, list, k);
    UnlinkedCells(blocks, b);
    if k + 1 < |list| { assert list[k + 1] in list; }
    if k > 0 { assert list[k - 1] in list; }
    forall i | 0 <= i < |other| ensures Same(blocks, Unlinked(blocks, b) - {b}, other[i]) {
      assert other[i] in other;
    }
    LinkedFrame(blocks, Unlinked(blocks, b) - {b}, Ends(pages[q].data.first, pages[q].data.last), other);
  }

  /** What a call needs to know of the heap to free block `b`, number `k` of its list. */
  ghost predicate InList(h: Heap, lists: map<nat, seq<nat>>, b: nat, k: nat) {
    && b in h.blocks && h.blocks[b].data.page in lists
    && var list := lists[h.blocks[b].data.page]; k < |list| && list[k] == b
  }

  function CutFrom(lists: map<nat, seq<nat>>, p: nat, k: nat): map<nat, seq<nat>> {
    if p in lists && k < |lists[p]| then lists[p := Cut(lists[p], k)] else lists
  }

  lemma CutMembers(list: seq<nat>, k: nat, c: nat)
    requires Distinct(list) && k < |list|
    ensures c in Cut(list, k) <==> c in list && c != list[k]
  {
    DistinctPairs(list);
    if c in list && c != list[k] {
      var i :| 0 <= i < |list| && list[i] == c;
      assert Cut(list, k)[if i < k then i else i - 1] == c;
    }
  }

  /** The highest block once block `k` is gone. */
  function HighestWithout(d: PageBlock, list: seq<nat>, k: nat): nat
    requires k < |list|
  {
    if d.highest == list[k] then MaxOf(Cut(list, k)) else d.highest
  }

  lemma ReleasedListing(h: Heap, lists: map<nat, seq<nat>>, b: nat, k: nat, highest: nat)
    requires Listing(h.blocks, h.pages, lists) && InList(h, lists, b, k)
    ensures h.pages[h.blocks[b].data.page].data.nMemBlocks > 0
    ensures var h' := Released(h, b, highest); Listing(h'.blocks, h'.pages, CutFrom(lists, h.blocks[b].data.page, k))
  {
    var p := h.blocks[b].data.page;
    assert ListOk(h.blocks, h.pages, p, lists[p]);
    var h', lists' := Released(h, b, highest), CutFrom(lists, p, k);
    UnlinkedReduces(h.blocks, b);
    forall q | q in lists' ensures ListOk(h'.blocks, h'.pages, q, lists'[q]) {
      assert ListOk(h.blocks, h.pages, q, lists[q]);
      if q == p {
        assert CellOk(h.blocks, lists[p], k);
        UnlinkedLinked(h.blocks, Ends(h.pages[p].data.first, h.pages[p].data.last), lists[p], k);
        forall c ensures c in lists'[q] <==> c in h'.blocks && h'.blocks[c].data.page == q {
          CutMembers(lists[p], k, c);
          if c in h'.blocks { assert SameData(h.blocks, h'.blocks, c); }
        }
      } else {
        ReleasedElsewhere(h.blocks, h.pages, p, lists[p], k, q, lists[q]);
        forall c ensures c in lists'[q] <==> c in h'.blocks && h'.blocks[c].data.page == q {
          if c in h'.blocks { assert SameData(h.blocks, h'.blocks, c); }
        }
      }
    }
  }

  lemma ReleasedLayout(h: Heap, lists: map<nat, seq<nat>>, b: nat, k: nat)
    requires Layout(h.blocks, h.pages) && Listing(h.blocks, h.pages, lists) && InList(h, lists, b, k)
    requires |lists[h.blocks[b].data.page]| > 1 && h.pages[h.blocks[b].data.page].data.nMemBlocks > 0
    ensures var p := h.blocks[b].data.page;
      var h' := Released(h, b, HighestWithout(h.pages[p].data, lists[p], k)); Layout(h'.blocks, h'.pages)
  {
    var p := h.blocks[b].data.page;
    var list := lists[p];
    var highest := HighestWithout(h.pages[p].data, list, k);
    var h' := Released(h, b, highest);
    UnlinkedReduces(h.blocks, b);
    assert ListOk(h.blocks, h.pages, p, list);
    forall q | q in h'.pages ensures HighestOk(h'.blocks, h'.pages, q) {
      assert HighestOk(h.blocks, h.pages, q);
      CutMembers(list, k, highest);
      assert highest in h'.blocks ==> SameData(h.blocks, h'.blocks, highest);
      var was := h.pages[q].data.highest;
      assert was in h'.blocks ==> SameData(h.blocks, h'.blocks, was);
    }
    forall c | c in h'.blocks
      ensures var q := h'.blocks[c].data.page; q in h'.pages && c <= h'.pages[q].data.highest
    {
      assert SameData(h.blocks, h'.blocks, c) && BlockOk(h.blocks, h.pages, c);
      if h.blocks[c].data.page == p {
        CutMembers(list, k, c);
        var i :| 0 <= i < |Cut(list, k)| && Cut(list, k)[i] == c;
      }
    }
    FewerLayout(h.blocks, h.pages, h'.blocks, h'.pages);
  }

  lemma ReleasedShort(h: Heap, lists: map<nat, seq<nat>>, b: nat, k: nat, highest: nat, short: map<nat, int>)
    requires Listing(h.blocks, h.pages, lists) && InList(h, lists, b, k) && Short(h, lists, short)
    requires h.pages[h.blocks[b].data.page].data.nMemBlocks > 0
    ensures Short(Released(h, b, highest), CutFrom(lists, h.blocks[b].data.page, k), short)
  {
    var p := h.blocks[b].data.page;
    var h', lists' := Released(h, b, highest), CutFrom(lists, p, k);
    UnlinkedReduces(h.blocks, b);
    assert ListOk(h.blocks, h.pages, p, lists[p]);
    forall q | q in h'.pages ensures Shortfall(h'.blocks, h'.pages, lists', q) == Get(short, q) {
      assert Shortfall(h.blocks, h.pages, lists, q) == Get(short, q);
      assert ListOk(h.blocks, h.pages, q, lists[q]);
      forall i | 0 <= i < |lists'[q]| ensures SameData(h.blocks, h'.blocks, lists'[q][i]) {
        assert lists'[q][i] in lists'[q];
        if q == p { CutMembers(lists[p], k, lists'[q][i]); }
      }
      UsedSame(h.blocks, h'.blocks, lists'[q]);
      if q == p { UsedCut(h.blocks, lists[p], k); }
    }
  }

  lemma ReleasedBase(h: Heap, order: seq<nat>, lists: map<nat, seq<nat>>, b: nat, k: nat)
    requires Base(h, order, lists) && InList(h, lists, b, k) && |lists[h.blocks[b].data.page]| > 1
    ensures var p := h.blocks[b].data.page;
      && p in h.pages && h.pages[p].data.nMemBlocks > 0
      && Base(Released(h, b, HighestWithout(h.pages[p].data, lists[p], k)), order, CutFrom(lists, p, k))
  {
    var p := h.blocks[b].data.page;
    var highest := HighestWithout(h.pages[p].data, lists[p], k);
    ReleasedListing(h, lists, b, k, highest);
    ReleasedLayout(h, lists, b, k);
    PageDataFrame(h.pages, Released(h, b, highest).pages, Ends(h.head, h.tail), order);
  }

  lemma ReleasedGood(h: Heap, order: seq<nat>, lists: map<nat, seq<nat>>, b: nat, k: nat, short: map<nat, int>)
    requires Sound(h, order, lists) && Short(h, lists, short) && InList(h, lists, b, k)
    requires var p := h.blocks[b].data.page; |lists[p]| > 1 && p in h.pages && h.pages[p].data.nMemBlocks > 0
    ensures var p := h.blocks[b].data.page; Good(Released(h, b, HighestWithout(h.pages[p].data, lists[p], k)), short)
  {
    var p := h.blocks[b].data.page;
    var highest := HighestWithout(h.pages[p].data, lists[p], k);
    var h' := Released(h, b, highest);
    ReleasedBase(h, order, lists, b, k);
    ReleasedShort(h, lists, b, k, highest, short);
    assert Sound(h', order, CutFrom(lists, p, k));
    assert Ordered(h', order, short);
  }

  /** The heap after page block `p`, whose only block was `b`, was given back. The head is not moved. */
  function WithoutPage(h: Heap, b: nat, p: nat): Heap
    requires p in h.pages && h.nPageBlocks > 0
  {
    h.(blocks := h.blocks - {b}, pages := Unlinked(h.pages, p) - {p},
       tail := if h.tail == p then h.pages[p].prev else h.tail, nPageBlocks := h.nPageBlocks - 1)
  }

  lemma EmptiedLayout(h: Heap, lists: map<nat, seq<nat>>, b: nat)
    requires Layout(h.blocks, h.pages) && Listing(h.blocks, h.pages, lists) && InList(h, lists, b, 0)
    requires var p := h.blocks[b].data.page; |lists[p]| == 1 && p in h.pages && h.nPageBlocks > 0
    ensures var p := h.blocks[b].data.page; var h' := WithoutPage(h, b, p);
      Layout(h'.blocks, h'.pages) && Listing(h'.blocks, h'.pages, lists - {p})
  {
    var p := h.blocks[b].data.page;
    var h', lists' := WithoutPage(h, b, p), lists - {p};
    UnlinkedCells(h.pages, p);
    assert ListOk(h.blocks, h.pages, p, lists[p]);
    forall c | c in h'.blocks
      ensures SameData(h.blocks, h'.blocks, c)
      ensures var q := h'.blocks[c].data.page; q in h'.pages && c <= h'.pages[q].data.highest
    {
      assert BlockOk(h.blocks, h.pages, c);
      assert c in lists[p] ==> c == b;
    }
    forall q | q in h'.pages ensures HighestOk(h'.blocks, h'.pages, q) {
      assert HighestOk(h.blocks, h.pages, q);
    }
    FewerLayout(h.blocks, h.pages, h'.blocks, h'.pages);
    forall q | q in lists' ensures ListOk(h'.blocks, h'.pages, q, lists'[q]) {
      EmptiedElsewhere(h, lists, b, q);
    }
  }

  lemma EmptiedElsewhere(h: Heap, lists: map<nat, seq<nat>>, b: nat, q: nat)
    requires Listing(h.blocks, h.pages, lists) && b in h.blocks && h.blocks[b].data.page in h.pages && h.nPageBlocks > 0
    requires q in lists && q != h.blocks[b].data.page
    ensures var h' := WithoutPage(h, b, h.blocks[b].data.page); ListOk(h'.blocks, h'.pages, q, lists[q])
  {
    var p := h.blocks[b].data.page;
    var h' := WithoutPage(h, b, p);
    UnlinkedCells(h.pages, p);
    assert ListOk(h.blocks, h.pages, q, lists[q]);
    forall i | 0 <= i < |lists[q]| ensures Same(h.blocks, h'.blocks, lists[q][i]) {
      assert lists[q][i] in lists[q];
    }
    LinkedFrame(h.blocks, h'.blocks, Ends(h.pages[q].data.first, h.pages[q].data.last), lists[q]);
  }

  lemma EmptiedShort(h: Heap, lists: map<nat, seq<nat>>, b: nat, short: map<nat, int>)
    requires Listing(h.blocks, h.pages, lists) && Short(h, lists, short) && b in h.blocks
    requires h.blocks[b].data.page in h.pages && h.nPageBlocks > 0
    ensures var p := h.blocks[b].data.page; Short(WithoutPage(h, b, p), lists - {p}, short)
  {
    var p := h.blocks[b].data.page;
    var h', lists' := WithoutPage(h, b, p), lists - {p};
    UnlinkedCells(h.pages, p);
    forall q | q in h'.pages ensures Shortfall(h'.blocks, h'.pages, lists', q) == Get(short, q) {
      assert Shortfall(h.blocks, h.pages, lists, q) == Get(short, q);
      assert ListOk(h.blocks, h.pages, q, lists[q]);
      forall i | 0 <= i < |lists[q]| ensures SameData(h.blocks, h'.blocks, lists[q][i]) {
        assert lists[q][i] in lists[q];
      }
      UsedSame(h.blocks, h'.blocks, lists[q]);
    }
  }

  lemma EmptiedOrder(h: Heap, order: seq<nat>, b: nat, p: nat, j: nat)
    requires Linked(h.pages, Ends(h.head, h.tail), order) && h.nPageBlocks == |order|
    requires forall q :: q in h.pages <==> q in order
    requires p in h.pages && j < |order| && order[j] == p && h.head != p
    ensures var h' := WithoutPage(h, b, p);
      && Linked(h'.pages, Ends(h'.head, h'.tail), Cut(order, j)) && h'.nPageBlocks == |Cut(order, j)|
      && (forall q :: q in h'.pages <==> q in Cut(order, j))
  {
    assert CellOk(h.pages, order, j);
    UnlinkedLinked(h.pages, Ends(h.head, h.tail), order, j);
    UnlinkedCells(h.pages, p);
    forall q ensures q in WithoutPage(h, b, p).pages <==> q in Cut(order, j) {
      if q in order || q in Cut(order, j) { CutMembers(order, j, q); }
    }
  }

  /** Giving back an empty page block keeps the heap good exactly if it is not the head of the list. */
  lemma EmptiedGood(h: Heap, order: seq<nat>, lists: map<nat, seq<nat>>, b: nat, short: map<nat, int>)
    requires Sound(h, order, lists) && Short(h, lists, short) && InList(h, lists, b, 0)
    requires var p := h.blocks[b].data.page; |lists[p]| == 1 && p in h.pages && h.nPageBlocks > 0
    ensures var h' := WithoutPage(h, b, h.blocks[b].data.page);
      if h.head == h.blocks[b].data.page then forall short' :: !Good(h', short') else Good(h', short)
  {
    var p := h.blocks[b].data.page;
    var h' := WithoutPage(h, b, p);
    var j :| 0 <= j < |order| && order[j] == p;
    if h.head == p {
      assert CellOk(h.pages, order, j);
      HeadDangles(h');
    } else {
      EmptiedLayout(h, lists, b);
      EmptiedShort(h, lists, b, short);
      EmptiedOrder(h, order, b, p, j);
      assert Sound(h', Cut(order, j), lists - {p});
      assert Ordered(h', Cut(order, j), short);
    }
  }

  lemma HeadDangles(h: Heap)
    requires h.head != 0 && h.head !in h.pages
    ensures forall short :: !Good(h, short)
  {
    forall order, lists ensures !Sound(h, order, lists) {
      assert order != [] && order[0] == h.head ==> !CellOk(h.pages, order, 0);
    }
  }

  /** What the code that frees block `k` of `list` relies on. */
  ghost predicate Freeable(h: Heap, list: seq<nat>, k: nat) {
    && k < |list| && list[k] in h.blocks && CellOk(h.blocks, list, k)
    && var p := h.blocks[list[k]].data.page;
    && p in h.pages && h.pages[p].data.nMemBlocks == |list| && h.nPageBlocks > 0
    && Linked(h.blocks, Ends(h.pages[p].data.first, h.pages[p].data.last), list)
    && Neighbour(h.pages, h.pages[p].next, p) && Neighbour(h.pages, h.pages[p].prev, p)
  }

  predicate Neighbour(pages: PageBlocks, q: nat, p: nat) {
    q != 0 ==> q in pages && q != p
  }

  /** The heap after block `k` of `list` was freed. */
  function Freed(h: Heap, list: seq<nat>, k: nat): Heap
    requires Freeable(h, list, k)
  {
    var b := list[k];
    var p := h.blocks[b].data.page;
    var d := h.pages[p].data;
    if d.nMemBlocks > 1 then Released(h, b, HighestWithout(d, list, k)) else WithoutPage(h, b, p)
  }

  lemma SoundFreeable(h: Heap, order: seq<nat>, lists: map<nat, seq<nat>>, b: nat) returns (k: nat)
    requires Sound(h, order, lists) && b in h.blocks
    ensures InList(h, lists, b, k) && Freeable(h, lists[h.blocks[b].data.page], k)
  {
    assert BlockOk(h.blocks, h.pages, b);
    var p := h.blocks[b].data.page;
    assert ListOk(h.blocks, h.pages, p, lists[p]);
    k :| 0 <= k < |lists[p]| && lists[p][k] == b;
    assert CellOk(h.blocks, lists[p], k);
    var j :| 0 <= j < |order| && order[j] == p;
    assert CellOk(h.pages, order, j);
    DistinctPairs(order);
    assert j + 1 < |order| ==> order[j + 1] in order;
    assert j > 0 ==> order[j - 1] in order;
  }

  /**
   Freeing a block keeps the heap good, unless it was the last block of the page block at the head of
   the list. The other blocks stay where they are.
   */
  lemma FreedGood(h: Heap, order: seq<nat>, lists: map<nat, seq<nat>>, b: nat, k: nat, short: map<nat, int>)
    requires Sound(h, order, lists) && Short(h, lists, short) && InList(h, lists, b, k)
    requires Freeable(h, lists[h.blocks[b].data.page], k)
    ensures var p := h.blocks[b].data.page; var h' := Freed(h, lists[p], k);
      && (if h.pages[p].data.nMemBlocks == 1 && h.head == p then forall short' :: !Good(h', short')
          else Good(h', short))
      && Reduced(h.blocks, h'.blocks, b)
  {
    UnlinkedReduces(h.blocks, b);
    if h.pages[h.blocks[b].data.page].data.nMemBlocks > 1 {
      ReleasedGood(h, order, lists, b, k, short);
    } else {
      EmptiedGood(h, order, lists, b, short);
    }
  }

  /** The heap after the size of block `b` was changed. */
  function Grown(h: Heap, b: nat, size: nat): Heap
    requires b in h.blocks
  {
    h.(blocks := h.blocks[b := h.blocks[b].(data := Block(size, h.blocks[b].data.page))])
  }

  lemma GrownLayout(h: Heap, b: nat, size: nat)
    requires Layout(h.blocks, h.pages) && b in h.blocks && h.blocks[b].data.page in h.pages
    requires var p := h.blocks[b].data.page; h.pages[p].data.highest == b && b + HEADER + size <= PageEnd(h.pages, p)
    ensures Layout(Grown(h, b, size).blocks, h.pages)
  {
    var p := h.blocks[b].data.page;
    var blocks' := Grown(h, b, size).blocks;
    assert HighestOk(h.blocks, h.pages, p);
    forall c | c in blocks' ensures BlockOk(blocks', h.pages, c) {
      assert BlockOk(h.blocks, h.pages, c);
    }
    forall c: nat, e: nat ensures Apart(blocks', c, e) {
      assert Apart(h.blocks, c, e);
      if c == b && e in h.blocks {
        assert BlockOk(h.blocks, h.pages, e);
        RoomAbove(h.blocks, h.pages, p, e);
      }
    }
    forall q | q in h.pages ensures HighestOk(blocks', h.pages, q) {
      assert HighestOk(h.blocks, h.pages, q);
    }
  }

  lemma ShrunkLayout(h: Heap, b: nat, size: nat)
    requires Layout(h.blocks, h.pages) && b in h.blocks && size <= h.blocks[b].data.size
    ensures Layout(Grown(h, b, size).blocks, h.pages)
  {
    var blocks' := Grown(h, b, size).blocks;
    forall c | c in blocks' ensures BlockOk(blocks', h.pages, c) {
      assert BlockOk(h.blocks, h.pages, c);
    }
    forall c: nat, e: nat ensures Apart(blocks', c, e) {
      assert Apart(h.blocks, c, e);
    }
    forall q | q in h.pages ensures HighestOk(blocks', h.pages, q) {
      assert HighestOk(h.blocks, h.pages, q);
    }
  }

  lemma GrownListing(h: Heap, lists: map<nat, seq<nat>>, b: nat, size: nat)
    requires Listing(h.blocks, h.pages, lists) && b in h.blocks
    ensures Listing(Grown(h, b, size).blocks, h.pages, lists)
  {
    var blocks' := Grown(h, b, size).blocks;
    forall q | q in lists ensures ListOk(blocks', h.pages, q, lists[q]) {
      assert ListOk(h.blocks, h.pages, q, lists[q]);
      forall i | 0 <= i < |lists[q]| ensures CellOk(blocks', lists[q], i) {
        assert CellOk(h.blocks, lists[q], i);
      }
    }
  }

  lemma {:induction false} UsedGrown(blocks: Blocks, list: seq<nat>, b: nat, c: Cell<Block>)
    requires b in blocks && Distinct(list)
    ensures Used(blocks[b := c], list) ==
      Used(blocks, list) + if b in list then c.data.size - blocks[b].data.size else 0
  {
    if list != [] {
      var n := |list| - 1;
      DistinctPairs(list);
      DistinctPairs(list[..n]);
      UsedGrown(blocks, list[..n], b, c);
      assert list == list[..n] + [list[n]];
    }
  }

  lemma GrownShort(h: Heap, lists: map<nat, seq<nat>>, b: nat, size: nat, short: map<nat, int>)
    requires Listing(h.blocks, h.pages, lists) && Short(h, lists, short) && b in h.blocks
    ensures var p := h.blocks[b].data.page;
      Short(Grown(h, b, size), lists, short[p := Get(short, p) + size - h.blocks[b].data.size])
  {
    var p := h.blocks[b].data.page;
    var h' := Grown(h, b, size);
    forall q | q in h'.pages ensures Shortfall(h'.blocks, h'.pages, lists, q) ==
      Get(short[p := Get(short, p) + size - h.blocks[b].data.size], q)
    {
      assert Shortfall(h.blocks, h.pages, lists, q) == Get(short, q);
      assert ListOk(h.blocks, h.pages, q, lists[q]);
      UsedGrown(h.blocks, lists[q], b, h'.blocks[b]);
    }
  }

  /**
   Growing the highest block of a page block in place keeps the heap good, but the count of used
   bytes falls short by the growth.
   */
  lemma GrownGood(h: Heap, order: seq<nat>, b: nat, size: nat, short: map<nat, int>)
    requires Ordered(h, order, short) && b in h.blocks && h.blocks[b].data.page in h.pages
    requires var p := h.blocks[b].data.page; h.pages[p].data.highest == b && b + HEADER + size <= PageEnd(h.pages, p)
    ensures var p := h.blocks[b].data.page;
      Ordered(Grown(h, b, size), order, short[p := Get(short, p) + size - h.blocks[b].data.size])
  {
    var lists :| Sound(h, order, lists) && Short(h, lists, short);
    GrownLayout(h, b, size);
    GrownListing(h, lists, b, size);
    GrownShort(h, lists, b, size, short);
    assert Sound(Grown(h, b, size), order, lists);
  }

  /** Shrinking a block keeps the heap good, but the count of used bytes is too high by the difference. */
  lemma ShrunkGood(h: Heap, order: seq<nat>, b: nat, size: nat, short: map<nat, int>)
    requires Ordered(h, order, short) && b in h.blocks && size <= h.blocks[b].data.size
    ensures var p := h.blocks[b].data.page;
      Ordered(Grown(h, b, size), order, short[p := Get(short, p) + size - h.blocks[b].data.size])
  {
    var lists :| Sound(h, order, lists) && Short(h, lists, short);
    ShrunkLayout(h, b, size);
    GrownListing(h, lists, b, size);
    GrownShort(h, lists, b, size, short);
    assert Sound(Grown(h, b, size), order, lists);
  }
}
