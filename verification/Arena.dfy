/** The arena allocator: per arena a list of pages that are filled from the front, and a list of free pages that
    all arenas share. */
module Arenas {
  import opened PageLists

  /** Bytes of a page header: five words. */
  const HEADER: nat := 40

  const RESIZE_FACTOR := 1.1

  /** The size of a page obtained for a request of n bytes. */
  function PageSize(n: nat): (m: nat)
    ensures HEADER + n <= m
  {
    (n as real * RESIZE_FACTOR + HEADER as real).Floor
  }

  /** That is a tenth more than the request, rounded down, and the header. */
  lemma PageSizeIs(n: nat)
    ensures PageSize(n) == n + n / 10 + HEADER
  {
    assert n as real * RESIZE_FACTOR == n as real + n as real / 10.0;
    assert n == 10 * (n / 10) + n % 10;
  }

  /** A block the client holds. */
  datatype Block = Block(arena: nat, page: int, addr: nat, len: nat)

  // ---------------------------------------------------------------------- the lists of all pages

  /** Lists 0..count are those of the arenas, each starting with its head, list `count` is the free list; every
      page is on the list that `owner` names, and on no other. */
  ghost predicate Shaped(pages: seq<Page>, tails: seq<int>, freeBlocks: int, lists: seq<seq<int>>, owner: seq<int>,
                         count: nat) {
    && |tails| == count && |lists| == count + 1 && |owner| == |pages| && count <= |pages|
    && (forall k {:trigger lists[k]} :: 0 <= k <= count ==> Linked(pages, lists[k]) && NoDup(lists[k]))
    && (forall a {:trigger lists[a]} ::
         0 <= a < count ==> lists[a] != [] && lists[a][0] == a && tails[a] == lists[a][|lists[a]| - 1])
    && freeBlocks == (if lists[count] == [] then NONE else lists[count][0])
    && (forall k, p {:trigger p in lists[k]} ::
         0 <= k <= count ==> (p in lists[k] <==> 0 <= p < |pages| && owner[p] == k))
    && (forall p {:trigger owner[p]} :: 0 <= p < |pages| ==> 0 <= owner[p] <= count)
  }

  /** Arena a and the free list exchanged pages, or arena a got a new one; the other lists are untouched. */
  lemma Reshape(pages: seq<Page>, tails: seq<int>, freeBlocks: int, lists: seq<seq<int>>, owner: seq<int>, count: nat,
                q: seq<Page>, freeBlocks': int, owner': seq<int>, a: nat, l: seq<int>, f: seq<int>)
    requires Shaped(pages, tails, freeBlocks, lists, owner, count) && a < count
    requires |pages| <= |q| == |owner'|
    requires Linked(q, l) && NoDup(l) && Linked(q, f) && NoDup(f)
    requires l != [] && l[0] == a && freeBlocks' == if f == [] then NONE else f[0]
    requires forall p :: p in l <==> 0 <= p < |q| && owner'[p] == a
    requires forall p :: p in f <==> 0 <= p < |q| && owner'[p] == count
    requires forall p {:trigger owner'[p]} :: 0 <= p < |q| && owner'[p] != a && owner'[p] != count ==>
      p < |pages| && owner[p] == owner'[p] && SameLinks(pages, q, p)
    requires forall p {:trigger owner[p]} ::
      0 <= p < |pages| && owner[p] != a && owner[p] != count ==> owner'[p] == owner[p]
    ensures Shaped(q, tails[a := l[|l| - 1]], freeBlocks', lists[a := l][count := f], owner', count)
  {
    var lists' := lists[a := l][count := f];
    forall k | 0 <= k <= count
      ensures Linked(q, lists'[k]) && NoDup(lists'[k])
    {
      if k != a && k != count {
        forall p | p in lists[k]
          ensures SameLinks(pages, q, p)
        {
          assert owner'[p] == owner[p];
        }
        LinkedKept(pages, q, lists[k]);
      }
    }
    forall k, p | 0 <= k <= count
      ensures p in lists'[k] <==> 0 <= p < |q| && owner'[p] == k
    {
      if k != a && k != count {
        assert p in lists[k] <==> 0 <= p < |pages| && owner[p] == k;
        assert 0 <= p < |q| ==> owner'[p] == owner'[p];
      }
    }
  }

  lemma HeadsOwned(pages: seq<Page>, tails: seq<int>, freeBlocks: int, lists: seq<seq<int>>, owner: seq<int>,
                   count: nat)
    requires Shaped(pages, tails, freeBlocks, lists, owner, count)
    ensures forall a :: 0 <= a < count ==> owner[a] == a
  {
    forall a | 0 <= a < count
      ensures owner[a] == a
    {
      assert lists[a][0] in lists[a];
    }
  }

  // ---------------------------------------------------------------------- pages and blocks in memory

  ghost predicate PageOk(p: Page) {
    0 < p.base && p.base + HEADER <= p.available <= p.limit
  }

  ghost predicate PagesApart(p: Page, q: Page) {
    p.limit <= q.base || q.limit <= p.base
  }

  /** Heads have no memory of their own; the pages behind them do not overlap. */
  ghost predicate Placed(pages: seq<Page>, count: nat) {
    && (forall p {:trigger pages[p]} ::
         0 <= p < count && p < |pages| ==> pages[p].base == pages[p].available == pages[p].limit == 0)
    && (forall p {:trigger pages[p]} :: count <= p < |pages| ==> PageOk(pages[p]))
    && (forall p, q {:trigger pages[p], pages[q]} ::
         count <= p < |pages| && count <= q < |pages| && p != q ==> PagesApart(pages[p], pages[q]))
  }

  /** The m bytes from `supply` on overlap no page. */
  ghost predicate Unused(pages: seq<Page>, count: nat, supply: nat, m: nat) {
    forall p {:trigger pages[p]} :: count <= p < |pages| ==> pages[p].limit <= supply || supply + m <= pages[p].base
  }

  /** A live block lies behind the header of a page of its arena, in the part that is handed out. */
  ghost predicate BlockOk(b: Block, pages: seq<Page>, owner: seq<int>, count: nat) {
    && count <= b.page < |pages| && b.page < |owner| && owner[b.page] == b.arena && b.arena < count
    && pages[b.page].base + HEADER <= b.addr && 0 < b.len && b.addr + b.len <= pages[b.page].available
  }

  ghost predicate BlocksApart(b: Block, c: Block) {
    b.addr + b.len <= c.addr || c.addr + c.len <= b.addr
  }

  ghost predicate AllBlocksOk(live: set<Block>, pages: seq<Page>, owner: seq<int>, count: nat) {
    && (forall b :: b in live ==> BlockOk(b, pages, owner, count))
    && (forall b, c {:trigger BlocksApart(b, c)} :: b in live && c in live && b != c ==> BlocksApart(b, c))
  }

  ghost function OnPage(live: set<Block>, p: int): set<Block> {
    set b | b in live && b.page == p
  }

  /** The counter of each page in use is the number of its live blocks. */
  ghost predicate Counted(live: set<Block>, pages: seq<Page>, owner: seq<int>, count: nat) {
    forall p {:trigger pages[p]} ::
      count <= p < |pages| && p < |owner| && owner[p] < count ==> pages[p].counter == |OnPage(live, p)|
  }

  /** An address inside page p behind its start. */
  predicate Within(p: Page, mem: nat) {
    p.limit > mem && p.base < mem
  }

  lemma BlocksShareNoByte(live: set<Block>, pages: seq<Page>, owner: seq<int>, count: nat, b: Block, c: Block, x: nat)
    requires AllBlocksOk(live, pages, owner, count) && b in live && c in live
    requires b.addr <= x < b.addr + b.len && c.addr <= x < c.addr + c.len
    ensures b == c
  {
    assert b != c ==> BlocksApart(b, c);
  }

  predicate Fits(p: Page, n: nat) {
    p.available + n <= p.limit
  }

  /** A free page has room for n bytes once it is used again. */
  predicate ClearedFits(p: Page, n: nat) {
    p.base + HEADER + n <= p.limit
  }

  /** Page p after handing out its next n bytes. */
  function HandOut(pages: seq<Page>, p: int, n: nat): seq<Page>
    requires 0 <= p < |pages|
  {
    pages[p := pages[p].(available := pages[p].available + n, counter := pages[p].counter + 1)]
  }

  lemma SameLinksShaped(pages: seq<Page>, tails: seq<int>, freeBlocks: int, lists: seq<seq<int>>, owner: seq<int>,
                        count: nat, q: seq<Page>)
    requires Shaped(pages, tails, freeBlocks, lists, owner, count) && |q| == |pages|
    requires forall p {:trigger SameLinks(pages, q, p)} :: 0 <= p < |pages| ==> SameLinks(pages, q, p)
    ensures Shaped(q, tails, freeBlocks, lists, owner, count)
  {
    forall k | 0 <= k <= count
      ensures Linked(q, lists[k])
    {
      LinkedKept(pages, q, lists[k]);
    }
  }

  lemma HandOutPlaced(pages: seq<Page>, count: nat, p: int, n: nat)
    requires Placed(pages, count) && count <= p < |pages| && pages[p].available + n <= pages[p].limit
    ensures Placed(HandOut(pages, p, n), count)
  {
    var q := HandOut(pages, p, n);
    forall i, j | count <= i < |q| && count <= j < |q| && i != j
      ensures PagesApart(q[i], q[j])
    {
      assert PagesApart(pages[i], pages[j]);
    }
  }

  lemma BlockAdded(live: set<Block>, pages: seq<Page>, owner: seq<int>, count: nat, p: int, n: nat, b: Block)
    requires Placed(pages, count) && AllBlocksOk(live, pages, owner, count)
    requires count <= p < |pages| && |owner| == |pages| && 0 <= owner[p] < count && 0 < n
    requires pages[p].available + n <= pages[p].limit
    requires b == Block(owner[p], p, pages[p].available, n)
    ensures b !in live && AllBlocksOk(live + {b}, HandOut(pages, p, n), owner, count)
  {
    var q := HandOut(pages, p, n);
    assert PageOk(pages[p]);
    assert BlockOk(b, q, owner, count);
    forall c | c in live
      ensures c != b && BlocksApart(b, c) && BlocksApart(c, b) && BlockOk(c, q, owner, count)
    {
      assert BlockOk(c, pages, owner, count);
      if c.page != p {
        assert PagesApart(pages[p], pages[c.page]) && PageOk(pages[c.page]);
      }
    }
  }

  lemma BlockCounted(live: set<Block>, pages: seq<Page>, owner: seq<int>, count: nat, p: int, n: nat, b: Block)
    requires Counted(live, pages, owner, count) && count <= p < |pages| && |owner| == |pages| && b.page == p
    requires b !in live
    ensures Counted(live + {b}, HandOut(pages, p, n), owner, count)
  {
    var q := HandOut(pages, p, n);
    forall k | count <= k < |q| && owner[k] < count
      ensures q[k].counter == |OnPage(live + {b}, k)|
    {
      assert OnPage(live + {b}, k) == if k == p then OnPage(live, k) + {b} else OnPage(live, k);
      assert pages[k].counter == |OnPage(live, k)|;
    }
  }

  /** Taking a block off its page. */
  lemma BlockRemoved(live: set<Block>, pages: seq<Page>, owner: seq<int>, count: nat, b: Block)
    requires AllBlocksOk(live, pages, owner, count) && Counted(live, pages, owner, count) && b in live
    ensures BlockOk(b, pages, owner, count)
    ensures var q := pages[b.page := pages[b.page].(counter := pages[b.page].counter - 1)];
      && AllBlocksOk(live - {b}, q, owner, count) && Counted(live - {b}, q, owner, count)
      && (q[b.page].counter == 0 <==> OnPage(live - {b}, b.page) == {})
  {
    assert BlockOk(b, pages, owner, count);
    var q := pages[b.page := pages[b.page].(counter := pages[b.page].counter - 1)];
    forall c | c in live - {b}
      ensures BlockOk(c, q, owner, count)
    {
      assert BlockOk(c, pages, owner, count);
    }
    forall k | count <= k < |q| && k < |owner| && owner[k] < count
      ensures q[k].counter == |OnPage(live - {b}, k)|
    {
      assert OnPage(live - {b}, k) == if k == b.page then OnPage(live, k) - {b} else OnPage(live, k);
      assert pages[k].counter == |OnPage(live, k)|;
    }
    assert q[b.page].counter == |OnPage(live - {b}, b.page)|;
  }

  /** The page that an address of a live block lies in is the block's page. */
  lemma PageOfBlock(live: set<Block>, pages: seq<Page>, owner: seq<int>, count: nat, b: Block, p: int)
    requires Placed(pages, count) && AllBlocksOk(live, pages, owner, count) && b in live
    ensures BlockOk(b, pages, owner, count) && Within(pages[b.page], b.addr)
    ensures 0 <= p < |pages| && Within(pages[p], b.addr) ==> p == b.page
  {
    assert BlockOk(b, pages, owner, count);
    assert PageOk(pages[b.page]);
    if count <= p < |pages| && p != b.page {
      assert PagesApart(pages[p], pages[b.page]);
    }
  }

  // ---------------------------------------------------------------------- pages that change lists

  /** Pages stay where they are. */
  ghost predicate SamePlaces(pages: seq<Page>, q: seq<Page>) {
    |q| == |pages|
      && forall p {:trigger q[p]} :: 0 <= p < |q| ==> q[p].base == pages[p].base && q[p].limit == pages[p].limit
  }

  ghost predicate SameUse(p: Page, q: Page) {
    q.base == p.base && q.limit == p.limit && q.available == p.available && q.counter == p.counter
  }

  /** The first page of list f, cleared, becomes the last one of list l. */
  ghost predicate FirstMoved(pages: seq<Page>, q: seq<Page>, l: seq<int>, f: seq<int>)
    requires l != [] && f != []
  {
    && |q| == |pages|
    && (forall p {:trigger q[p]} :: 0 <= p < |q| ==>
          && q[p].next == (if p == l[|l| - 1] then f[0] else if p == f[0] then NONE else pages[p].next)
          && q[p].prev == (if p == f[0] then l[|l| - 1] else if |f| > 1 && p == f[1] then NONE else pages[p].prev))
    && (forall p {:trigger q[p]} :: 0 <= p < |q| ==>
          SameUse(if p == f[0] then pages[p].(available := pages[p].base + HEADER, counter := 0) else pages[p], q[p]))
  }

  /** None of the first k pages of the free list has room for n bytes. */
  ghost predicate TooSmall(pages: seq<Page>, f: seq<int>, k: int, n: nat) {
    forall j {:trigger f[j]} :: 0 <= j < k && j < |f| ==> 0 <= f[j] < |pages| && !ClearedFits(pages[f[j]], n)
  }

  /** All k free pages were taken. */
  lemma AllFreeTaken(before: seq<seq<int>>, after: seq<seq<int>>, arena: nat, count: nat, k: nat)
    requires |before| == |after| == count + 1 && arena < count && k == |before[count]|
    requires after[count] == before[count][k..]
    requires after[arena] == before[arena] + before[count][..k] + []
    requires forall a {:trigger after[a]} :: 0 <= a < count && a != arena ==> after[a] == before[a]
    ensures after == before[arena := before[arena] + before[count]][count := []]
  {
    assert before[count][..k] == before[count] && before[count][k..] == [];
    assert before[arena] + before[count] + [] == before[arena] + before[count];
  }

  /** After k free pages, ap is the last page of the arena: the one it was, or the last one taken. */
  ghost predicate Reached(pages: seq<Page>, tail: int, f: seq<int>, k: nat, ap: int, p: Page, n: nat) {
    && k <= |f| && 0 <= tail < |pages|
    && if k == 0 then ap == tail && p == pages[tail]
       else ap == f[k - 1] && 0 <= ap < |pages| && p.available == p.base + HEADER && p.base == pages[ap].base
            && p.limit == pages[ap].limit
            && !Fits(pages[tail], n)
  }

  /** The search ends on a page that had room. */
  lemma SomeFits(pages: seq<Page>, tail: int, f: seq<int>, k: nat, ap: int, p: Page, n: nat)
    requires Reached(pages, tail, f, k, ap, p, n) && Fits(p, n)
    ensures Fits(pages[tail], n) || exists q {:trigger q in f} :: q in f && 0 <= q < |pages| && ClearedFits(pages[q], n)
  {
    if k > 0 {
      assert f[k - 1] in f;
    }
  }

  /** The search goes through all free pages before the system is asked. */
  lemma NoneFits(pages: seq<Page>, tail: int, f: seq<int>, ap: int, p: Page, n: nat)
    requires Reached(pages, tail, f, |f|, ap, p, n) && !Fits(p, n) && TooSmall(pages, f, |f| - 1, n)
    ensures !Fits(pages[tail], n) && TooSmall(pages, f, |f|, n)
    ensures !exists q {:trigger q in f} :: q in f && 0 <= q < |pages| && ClearedFits(pages[q], n)
  {
  }

  lemma FirstFreeTaken(pages: seq<Page>, tails: seq<int>, freeBlocks: int, lists: seq<seq<int>>, owner: seq<int>,
                       count: nat, live: set<Block>, a: nat, q: seq<Page>)
    requires Shaped(pages, tails, freeBlocks, lists, owner, count) && Placed(pages, count)
    requires AllBlocksOk(live, pages, owner, count) && Counted(live, pages, owner, count)
    requires a < count && lists[count] != [] && FirstMoved(pages, q, lists[a], lists[count])
    ensures var l, f, ap := lists[a], lists[count], lists[count][0];
      && 0 <= ap < |owner|
      && Shaped(q, tails[a := ap], if |f| > 1 then f[1] else NONE, lists[a := l + [ap]][count := f[1..]],
           owner[ap := a], count)
      && Placed(q, count) && AllBlocksOk(live, q, owner[ap := a], count) && Counted(live, q, owner[ap := a], count)
  {
    var l, f, ap := lists[a], lists[count], lists[count][0];
    assert f[0] in f && ap in lists[count];
    FirstFreeShaped(pages, tails, freeBlocks, lists, owner, count, a, q);
    HeadsOwned(pages, tails, freeBlocks, lists, owner, count);
    MovedPlaced(pages, q, count, ap);
    forall b | b in live
      ensures BlockOk(b, q, owner[ap := a], count) && b.page != ap
    {
      assert BlockOk(b, pages, owner, count);
    }
    forall k | count <= k < |q| && owner[ap := a][k] < count
      ensures q[k].counter == |OnPage(live, k)|
    {
      if k == ap {
        assert OnPage(live, k) == {};
      } else {
        assert pages[k].counter == |OnPage(live, k)|;
      }
    }
  }

  lemma MovedPlaced(pages: seq<Page>, q: seq<Page>, count: nat, ap: int)
    requires Placed(pages, count) && |q| == |pages| && count <= ap < |q|
    requires forall p {:trigger q[p]} :: 0 <= p < |q| ==>
      SameUse(if p == ap then pages[p].(available := pages[p].base + HEADER, counter := 0) else pages[p], q[p])
    ensures Placed(q, count)
  {
    forall i | count <= i < |q|
      ensures PageOk(q[i])
    {
      assert PageOk(pages[i]);
    }
    forall i, j | count <= i < |q| && count <= j < |q| && i != j
      ensures PagesApart(q[i], q[j])
    {
      assert PagesApart(pages[i], pages[j]);
    }
  }

  lemma FirstFreeShaped(pages: seq<Page>, tails: seq<int>, freeBlocks: int, lists: seq<seq<int>>, owner: seq<int>,
                        count: nat, a: nat, q: seq<Page>)
    requires Shaped(pages, tails, freeBlocks, lists, owner, count)
    requires a < count && lists[count] != [] && FirstMoved(pages, q, lists[a], lists[count])
    ensures var l, f, ap := lists[a], lists[count], lists[count][0];
      && 0 <= ap < |owner|
      && Shaped(q, tails[a := ap], if |f| > 1 then f[1] else NONE, lists[a := l + [ap]][count := f[1..]],
           owner[ap := a], count)
  {
    var l, f, ap := lists[a], lists[count], lists[count][0];
    assert f[0] in f && l[|l| - 1] in l;
    MoveFirst(pages, q, l, f);
    assert forall p :: p in f[1..] <==> p in f && p != ap;
    assert |f| > 1 ==> f[1] in f;
    assert tails[a := ap] == tails[a := (l + [ap])[|l|]];
    Reshape(pages, tails, freeBlocks, lists, owner, count, q, if |f| > 1 then f[1] else NONE, owner[ap := a], a,
        l + [ap], f[1..]);
  }

  /** A page of m bytes from `supply` on is appended to list l. */
  ghost predicate NewAppended(pages: seq<Page>, q: seq<Page>, l: seq<int>, supply: nat, m: nat)
    requires l != []
  {
    && |q| == |pages| + 1 && q[|pages|] == Page(supply, NONE, l[|l| - 1], supply + HEADER, supply + m, 0)
    && (forall p {:trigger q[p]} :: 0 <= p < |pages| ==>
          q[p].next == (if p == l[|l| - 1] then |pages| else pages[p].next) && q[p].prev == pages[p].prev
            && SameUse(pages[p], q[p]))
  }

  lemma PageAdded(pages: seq<Page>, tails: seq<int>, freeBlocks: int, lists: seq<seq<int>>, owner: seq<int>, count: nat,
                  live: set<Block>, a: nat, q: seq<Page>, supply: nat, m: nat)
    requires Shaped(pages, tails, freeBlocks, lists, owner, count) && Placed(pages, count)
    requires AllBlocksOk(live, pages, owner, count) && Counted(live, pages, owner, count)
    requires a < count && NewAppended(pages, q, lists[a], supply, m) && 0 < supply && HEADER <= m
    requires Unused(pages, count, supply, m)
    ensures Shaped(q, tails[a := |pages|], freeBlocks, lists[a := lists[a] + [|pages|]], owner + [a], count)
    ensures Placed(q, count) && AllBlocksOk(live, q, owner + [a], count) && Counted(live, q, owner + [a], count)
  {
    var l, n := lists[a] + [|pages|], |pages|;
    AppendNew(pages, q, lists[a]);
    NoDupAppend(lists[a], [n]);
    assert forall p :: p in lists[a] ==> p < n;
    LinkedKeptAll(pages, q, lists, owner, tails, freeBlocks, count, a);
    assert lists[a := l] == lists[a := l][count := lists[count]];
    Reshape(pages, tails, freeBlocks, lists, owner, count, q, freeBlocks, owner + [a], a, l, lists[count]);
    forall i, j | count <= i < |q| && count <= j < |q| && i != j
      ensures PagesApart(q[i], q[j])
    {
      if i < n && j < n {
        assert PagesApart(pages[i], pages[j]);
      }
    }
    forall i | count <= i < |q|
      ensures PageOk(q[i])
    {
      assert i < n ==> PageOk(pages[i]);
    }
    forall b | b in live
      ensures BlockOk(b, q, owner + [a], count) && b.page != n
    {
      assert BlockOk(b, pages, owner, count);
    }
    forall k | count <= k < |q| && (owner + [a])[k] < count
      ensures q[k].counter == |OnPage(live, k)|
    {
      if k == n {
        assert OnPage(live, k) == {};
      } else {
        assert pages[k].counter == |OnPage(live, k)|;
      }
    }
  }

  /** The free list does not see an append to an arena. */
  lemma LinkedKeptAll(pages: seq<Page>, q: seq<Page>, lists: seq<seq<int>>, owner: seq<int>, tails: seq<int>,
                      freeBlocks: int, count: nat, a: nat)
    requires Shaped(pages, tails, freeBlocks, lists, owner, count) && a < count && |q| > |pages|
    requires forall p {:trigger q[p]} :: 0 <= p < |pages| ==>
          q[p].next == (if p == lists[a][|lists[a]| - 1] then |pages| else pages[p].next) && q[p].prev == pages[p].prev
    ensures Linked(q, lists[count]) && forall p :: 0 <= p < |pages| && owner[p] != a ==> SameLinks(pages, q, p)
  {
    var last := lists[a][|lists[a]| - 1];
    assert last in lists[a];
    forall p | 0 <= p < |pages| && owner[p] != a
      ensures SameLinks(pages, q, p)
    {
    }
    LinkedKept(pages, q, lists[count]);
  }

  /** Entry i of list l becomes the first one of list f. */
  ghost predicate InnerMoved(pages: seq<Page>, q: seq<Page>, l: seq<int>, f: seq<int>, i: int)
    requires 0 < i < |l|
  {
    && |q| == |pages|
    && (forall p {:trigger q[p]} :: 0 <= p < |q| ==>
      && q[p].next == (if p == l[i] then if f == [] then NONE else f[0]
                       else if p == l[i - 1] then if i + 1 < |l| then l[i + 1] else NONE else pages[p].next)
      && q[p].prev == (if p == l[i] then NONE else if f != [] && p == f[0] then l[i]
                       else if i + 1 < |l| && p == l[i + 1] then l[i - 1] else pages[p].prev))
    && (forall p {:trigger q[p]} :: 0 <= p < |q| ==> SameUse(pages[p], q[p]))
  }

  lemma InnerShaped(pages: seq<Page>, tails: seq<int>, freeBlocks: int, lists: seq<seq<int>>, owner: seq<int>,
                    count: nat, a: nat, i: int, q: seq<Page>)
    requires Shaped(pages, tails, freeBlocks, lists, owner, count)
    requires a < count && 0 < i < |lists[a]| && InnerMoved(pages, q, lists[a], lists[count], i)
    ensures var l, f, p := lists[a], lists[count], lists[a][i];
      && 0 <= p < |owner|
      && Shaped(q, tails[a := if i == |l| - 1 then l[i - 1] else tails[a]], p,
           lists[a := l[..i] + l[i + 1..]][count := [p] + f], owner[p := count], count)
  {
    var l, f, p := lists[a], lists[count], lists[a][i];
    var m, g := l[..i] + l[i + 1..], [p] + f;
    assert p in l && l[i - 1] in l && (i + 1 < |l| ==> l[i + 1] in l) && (f != [] ==> f[0] in f);
    MoveInner(pages, q, l, f, i);
    RemovedAt(l, i);
    assert NoDup(g) by {
      assert p !in f;
    }
    assert m[|m| - 1] == if i == |l| - 1 then l[i - 1] else l[|l| - 1];
    Reshape(pages, tails, freeBlocks, lists, owner, count, q, p, owner[p := count], a, m, g);
  }

  lemma RemovedAt(l: seq<int>, i: int)
    requires 0 <= i < |l| && NoDup(l)
    ensures var m := l[..i] + l[i + 1..]; NoDup(m) && forall p :: p in m <==> p in l && p != l[i]
  {
    var m := l[..i] + l[i + 1..];
    assert l == l[..i] + [l[i]] + l[i + 1..];
    forall j, k | 0 <= j < k < |m|
      ensures m[j] != m[k]
    {
      assert m[j] == l[if j < i then j else j + 1] && m[k] == l[if k < i then k else k + 1];
    }
    forall p | p in m
      ensures p != l[i]
    {
      var j :| 0 <= j < |m| && m[j] == p;
      assert m[j] == l[if j < i then j else j + 1];
    }
  }

  /** A page without live blocks leaves its arena. */
  lemma InnerFreed(pages: seq<Page>, tails: seq<int>, freeBlocks: int, lists: seq<seq<int>>, owner: seq<int>,
                   count: nat, live: set<Block>, a: nat, i: int, q: seq<Page>)
    requires Shaped(pages, tails, freeBlocks, lists, owner, count) && Placed(pages, count)
    requires AllBlocksOk(live, pages, owner, count) && Counted(live, pages, owner, count)
    requires a < count && 0 < i < |lists[a]| && InnerMoved(pages, q, lists[a], lists[count], i)
    requires OnPage(live, lists[a][i]) == {}
    ensures var l, f, p := lists[a], lists[count], lists[a][i];
      && 0 <= p < |owner|
      && Shaped(q, tails[a := if i == |l| - 1 then l[i - 1] else tails[a]], p,
           lists[a := l[..i] + l[i + 1..]][count := [p] + f], owner[p := count], count)
      && Placed(q, count) && AllBlocksOk(live, q, owner[p := count], count)
         && Counted(live, q, owner[p := count], count)
  {
    var p := lists[a][i];
    InnerShaped(pages, tails, freeBlocks, lists, owner, count, a, i, q);
    SameUsePlaced(pages, q, count);
    forall b | b in live
      ensures BlockOk(b, q, owner[p := count], count)
    {
      assert BlockOk(b, pages, owner, count) && (b.page == p ==> b in OnPage(live, p));
    }
    forall k | count <= k < |q| && owner[p := count][k] < count
      ensures q[k].counter == |OnPage(live, k)|
    {
      assert pages[k].counter == |OnPage(live, k)|;
    }
  }

  lemma CounterPlaced(pages: seq<Page>, q: seq<Page>, count: nat, p: int)
    requires Placed(pages, count) && count <= p < |pages| == |q| && q == pages[p := pages[p].(counter := q[p].counter)]
    ensures Placed(q, count)
  {
    forall i, j | count <= i < |q| && count <= j < |q| && i != j
      ensures PagesApart(q[i], q[j])
    {
      assert PagesApart(pages[i], pages[j]);
    }
  }

  lemma SameUsePlaced(pages: seq<Page>, q: seq<Page>, count: nat)
    requires Placed(pages, count) && |q| == |pages|
    requires forall p {:trigger q[p]} :: 0 <= p < |q| ==> SameUse(pages[p], q[p])
    ensures Placed(q, count)
  {
    forall i | count <= i < |q|
      ensures PageOk(q[i])
    {
      assert PageOk(pages[i]);
    }
    forall i, j | count <= i < |q| && count <= j < |q| && i != j
      ensures PagesApart(q[i], q[j])
    {
      assert PagesApart(pages[i], pages[j]);
    }
  }

  /** All entries of list l but its first become the first ones of list f. */
  ghost predicate RestMoved(pages: seq<Page>, q: seq<Page>, l: seq<int>, f: seq<int>)
    requires |l| > 1
  {
    && |q| == |pages|
    && (forall p {:trigger q[p]} :: 0 <= p < |q| ==>
      && q[p].next == (if p == l[0] then NONE else if p == l[|l| - 1] && f != [] then f[0] else pages[p].next)
      && q[p].prev == (if p == l[0] || p == l[1] then NONE
                       else if f != [] && p == f[0] then l[|l| - 1] else pages[p].prev))
    && (forall p {:trigger q[p]} :: 0 <= p < |q| ==> SameUse(pages[p], q[p]))
  }

  /** The owners after all pages of arena a but its head are free. */
  ghost function Disowned(owner: seq<int>, a: nat, count: nat): (r: seq<int>)
    ensures |r| == |owner| && forall p :: 0 <= p < |r| ==> r[p] == if owner[p] == a && p != a then count else owner[p]
  {
    seq(|owner|, p requires 0 <= p < |owner| => if owner[p] == a && p != a then count else owner[p])
  }

  lemma RestShaped(pages: seq<Page>, tails: seq<int>, freeBlocks: int, lists: seq<seq<int>>, owner: seq<int>,
                   count: nat, a: nat, q: seq<Page>)
    requires Shaped(pages, tails, freeBlocks, lists, owner, count)
    requires a < count && |lists[a]| > 1 && RestMoved(pages, q, lists[a], lists[count])
    ensures var l, f := lists[a], lists[count];
      Shaped(q, tails[a := a], l[1], lists[a := [a]][count := l[1..] + f], Disowned(owner, a, count), count)
  {
    var l, f, own := lists[a], lists[count], Disowned(owner, a, count);
    assert l[0] in l && l[1] in l && l[|l| - 1] in l && (f != [] ==> f[0] in f);
    MoveRest(pages, q, l, f);
    NoDupRest(l);
    NoDupAppend(l[1..], f);
    assert forall p :: p in l[1..] + f <==> p in l[1..] || p in f;
    Reshape(pages, tails, freeBlocks, lists, owner, count, q, l[1], own, a, [a], l[1..] + f);
  }

  lemma RestFreed(pages: seq<Page>, tails: seq<int>, freeBlocks: int, lists: seq<seq<int>>, owner: seq<int>, count: nat,
                  live: set<Block>, a: nat, q: seq<Page>)
    requires Shaped(pages, tails, freeBlocks, lists, owner, count) && Placed(pages, count)
    requires AllBlocksOk(live, pages, owner, count) && Counted(live, pages, owner, count)
    requires a < count && |lists[a]| > 1 && RestMoved(pages, q, lists[a], lists[count])
    ensures var l, f, own, rest := lists[a], lists[count], Disowned(owner, a, count), set b | b in live && b.arena != a;
      && Shaped(q, tails[a := a], l[1], lists[a := [a]][count := l[1..] + f], own, count)
      && Placed(q, count) && AllBlocksOk(rest, q, own, count) && Counted(rest, q, own, count)
  {
    var l, f, own, rest := lists[a], lists[count], Disowned(owner, a, count), set b | b in live && b.arena != a;
    RestShaped(pages, tails, freeBlocks, lists, owner, count, a, q);
    SameUsePlaced(pages, q, count);
    forall b | b in rest
      ensures BlockOk(b, q, own, count)
    {
      assert BlockOk(b, pages, owner, count);
    }
    forall k | count <= k < |q| && own[k] < count
      ensures q[k].counter == |OnPage(rest, k)|
    {
      assert pages[k].counter == |OnPage(live, k)|;
      assert OnPage(rest, k) == OnPage(live, k) by {
        forall b | b in OnPage(live, k)
          ensures b.arena != a
        {
          assert BlockOk(b, pages, owner, count);
        }
      }
    }
  }

  // ---------------------------------------------------------------------- the allocator

  /** The content of a byte; memory that was never written reads as zero here. */
  function ByteAt(memory: map<int, int>, addr: int): int {
    if addr in memory then memory[addr] else 0
  }

  /** Memory after n bytes at `src` were copied to `dst`. */
  ghost predicate Copied(before: map<int, int>, after: map<int, int>, dst: int, src: int, n: int) {
    forall x {:trigger ByteAt(after, x)} ::
      ByteAt(after, x) == ByteAt(before, if dst <= x < dst + n then src + (x - dst) else x)
  }

  lemma CopyOne(before: map<int, int>, after: map<int, int>, dst: int, src: int, i: nat)
    requires Copied(before, after, dst, src, i) && (src + i < dst || dst + i <= src)
    ensures Copied(before, after[dst + i := ByteAt(after, src + i)], dst, src, i + 1)
  {
    var next := after[dst + i := ByteAt(after, src + i)];
    assert ByteAt(after, src + i) == ByteAt(before, src + i);
    forall x
      ensures ByteAt(next, x) == ByteAt(before, if dst <= x < dst + i + 1 then src + (x - dst) else x)
    {
      assert x != dst + i ==> ByteAt(next, x) == ByteAt(after, x);
    }
  }

  class Arena {
    const count: nat
    var pages: seq<Page>
    var tails: seq<int>
    var freeBlocks: int
    var memory: map<int, int>
    ghost var lists: seq<seq<int>>
    ghost var owner: seq<int>
    ghost var live: set<Block>

    ghost predicate Valid()
      reads this
    {
      && Shaped(pages, tails, freeBlocks, lists, owner, count)
      && Placed(pages, count)
      && AllBlocksOk(live, pages, owner, count)
      && Counted(live, pages, owner, count)
    }

    constructor (arenaCount: nat)
      ensures Valid() && count == |pages| == arenaCount && live == {}
      ensures |lists| == count + 1 && lists[count] == []
      ensures forall a {:trigger lists[a]} :: 0 <= a < count ==> lists[a] == [a]
    {
      count := arenaCount;
      pages := seq(arenaCount, _ => Page(0, NONE, NONE, 0, 0, 0));
      tails := seq(arenaCount, i => i);
      freeBlocks := NONE;
      memory := map[];
      lists := seq(arenaCount, i => [i]) + [[]];
      owner := seq(arenaCount, i => i);
      live := {};
    }

    /** Without asking the system: the last page of the arena has room for n bytes, or a free page has once it is
        cleared. */
    ghost predicate HasRoom(n: nat, arena: nat)
      requires Valid() && arena < count
      reads this
    {
      0 <= tails[arena] < |pages|
        && (pages[tails[arena]].available + n <= pages[tails[arena]].limit || exists p {:trigger p in lists[count]} ::
             p in lists[count] && pages[p].base + HEADER + n <= pages[p].limit)
    }

    /** The last page of an arena has no successor. */
    lemma TailIsPage(arena: nat)
      requires Valid() && arena < count
      ensures 0 <= tails[arena] < |pages| && owner[tails[arena]] == arena && pages[tails[arena]].next == NONE
    {
      var l := lists[arena];
      assert LinkAt(pages, l, |l| - 1) && l[|l| - 1] in l;
    }

    /** Links the first free page behind page ap and takes it off the free list. */
    method ChainFirst(ap: int, ghost f: seq<int>)
      requires f != [] && Linked(pages, f) && NoDup(f) && freeBlocks == f[0] && 0 <= ap < |pages| && ap !in f
      modifies this`pages, this`freeBlocks
      ensures freeBlocks == if |f| > 1 then f[1] else NONE
      ensures |pages| == |old(pages)| && forall p {:trigger pages[p]} :: 0 <= p < |pages| ==>
        pages[p] == var o := old(pages)[p];
          if p == ap then o.(next := f[0])
          else if p == f[0] then o.(prev := ap)
          else if |f| > 1 && p == f[1] then o.(prev := NONE) else o
    {
      assert LinkAt(pages, f, 0) && f[0] in f;
      assert |f| > 1 ==> LinkAt(pages, f, 1) && f[1] in f;
      pages := pages[ap := pages[ap].(next := freeBlocks)];
      pages := pages[freeBlocks := pages[freeBlocks].(prev := ap)];
      freeBlocks := pages[freeBlocks].next;
      if freeBlocks != NONE {
        pages := pages[freeBlocks := pages[freeBlocks].(prev := NONE)];
      }
    }

    /** The pointer updates that make the first page of list f the last one of list l. */
    method LinkFirstFree(arena: nat, ghost l: seq<int>, ghost f: seq<int>)
      requires l != [] && f != [] && Linked(pages, l) && Linked(pages, f) && NoDup(f) && forall p :: p in l ==> p !in f
      requires arena < |tails| && tails[arena] == l[|l| - 1] && freeBlocks == f[0]
      modifies this`pages, this`tails, this`freeBlocks
      ensures FirstMoved(old(pages), pages, l, f)
      ensures tails == old(tails)[arena := f[0]] && freeBlocks == if |f| > 1 then f[1] else NONE
    {
      assert LinkAt(pages, f, 0) && LinkAt(pages, l, |l| - 1) && l[|l| - 1] in l && f[0] in f;
      var ap := tails[arena];
      ChainFirst(ap, f);
      ap := pages[ap].next;
      tails := tails[arena := ap];
      pages := pages[ap := pages[ap].(next := NONE)];
      pages := pages[ap := pages[ap].(available := pages[ap].base + HEADER)];
      pages := pages[ap := pages[ap].(counter := 0)];
    }

    /** The first free page becomes the last page of an arena. */
    method TakeFreeBlock(arena: nat)
      requires Valid() && arena < count && freeBlocks != NONE
      modifies this`pages, this`tails, this`freeBlocks, this`lists, this`owner
      ensures Valid() && SamePlaces(old(pages), pages)
      ensures old(lists[count]) != [] && tails == old(tails)[arena := old(lists[count])[0]]
      ensures lists == old(lists)[arena := old(lists[arena]) + [old(lists[count])[0]]][count := old(lists[count])[1..]]
      ensures 0 <= tails[arena] < |old(owner)| && owner == old(owner)[tails[arena] := arena]
      ensures pages[tails[arena]].available == pages[tails[arena]].base + HEADER && pages[tails[arena]].counter == 0
      ensures forall p {:trigger pages[p]} :: 0 <= p < |pages| && p != tails[arena] ==> SameUse(old(pages)[p], pages[p])
    {
      ghost var l, f := lists[arena], lists[count];
      LinkFirstFree(arena, l, f);
      FirstFreeTaken(old(pages), old(tails), old(freeBlocks), lists, owner, count, live, arena, pages);
      owner := owner[f[0] := arena];
      lists := lists[arena := l + [f[0]]][count := f[1..]];
    }

    lemma NoneIsFree()
      requires Valid()
      ensures freeBlocks == NONE <==> lists[count] == []
    {
      if lists[count] != [] {
        assert lists[count][0] in lists[count];
      }
    }

    lemma FreeArePages()
      requires Valid()
      ensures forall p {:trigger p in lists[count]} :: p in lists[count] ==> 0 <= p < |pages|
    {
    }

    /** One retry with a free page, which becomes the arena's last page. */
    method NextFree(arena: nat, n: nat, ghost l: seq<int>, ghost f: seq<int>, ghost k: nat, ghost first: seq<Page>,
                    ghost tail: int, ap0: int)
      returns (ap: int)
      requires Valid() && arena < count && freeBlocks != NONE && ap0 == tails[arena] && 0 <= ap0 < |pages|
      requires !Fits(pages[ap0], n)
      requires k <= |f| && lists[count] == f[k..] && lists[arena] == l + f[..k] && SamePlaces(first, pages)
      requires TooSmall(first, f, k - 1, n) && Reached(first, tail, f, k, ap0, pages[ap0], n)
      modifies this`pages, this`tails, this`freeBlocks, this`lists, this`owner
      ensures Valid() && k < |f| && lists[count] == f[k + 1..] && lists[arena] == l + f[..k + 1]
      ensures SamePlaces(first, pages)
      ensures forall a {:trigger lists[a]} :: 0 <= a < count && a != arena ==> lists[a] == old(lists[a])
      ensures ap == tails[arena] && 0 <= ap < |pages| && pages[ap].next == NONE && TooSmall(first, f, k, n)
      ensures Reached(first, tail, f, k + 1, ap, pages[ap], n)
    {
      TakeFreeBlock(arena);
      ap := tails[arena];
      TailIsPage(arena);
    }

    /** Obtains a page for a request of n bytes; no memory leaves everything as it is. */
    method AddPage(arena: nat, n: nat, supply: nat) returns (ok: bool)
      requires Valid() && arena < count && (supply != 0 ==> Unused(pages, count, supply, PageSize(n)))
      modifies this`pages, this`tails, this`lists, this`owner
      ensures Valid() && ok == (supply != 0)
      ensures !ok ==> pages == old(pages) && tails == old(tails) && lists == old(lists) && owner == old(owner)
      ensures ok ==> tails == old(tails)[arena := |old(pages)|] && owner == old(owner) + [arena]
      ensures ok ==> lists == old(lists)[arena := old(lists[arena]) + [|old(pages)|]] && |pages| == |old(pages)| + 1
      ensures ok ==> var p := pages[tails[arena]];
        Fits(p, n) && p.base == supply && p.limit == supply + PageSize(n) && p.counter == 0
      ensures ok ==> forall p {:trigger pages[p]} :: 0 <= p < |old(pages)| ==> SameUse(old(pages)[p], pages[p])
    {
      ghost var l := lists[arena];
      assert LinkAt(pages, l, |l| - 1);
      var m := PageSize(n);
      var prev := tails[arena];
      if supply == 0 {
        pages := pages[prev := pages[prev].(next := NONE)];
        assert pages == old(pages);
        return false;
      }
      var ap := |pages|;
      pages := pages[prev := pages[prev].(next := ap)];
      pages := pages + [Page(supply, NONE, prev, supply + HEADER, supply + m, 0)];
      tails := tails[arena := ap];
      PageAdded(old(pages), old(tails), freeBlocks, lists, owner, count, live, arena, pages, supply, m);
      owner := owner + [arena];
      lists := lists[arena := l + [ap]];
      return true;
    }

    /** Retries until the last page of the arena has room for n bytes, or the system has no memory. The first k free
        pages join the arena: up to the first that has room, or all of them, whether the system has memory or not. */
    method MakeRoom(n: nat, arena: nat, supply: nat) returns (ok: bool, ghost k: nat)
      requires Valid() && arena < count && (supply != 0 ==> Unused(pages, count, supply, PageSize(n)))
      modifies this`pages, this`tails, this`freeBlocks, this`lists, this`owner
      ensures Valid() && (ok <==> supply != 0 || old(HasRoom(n, arena)))
      ensures ok ==> 0 <= tails[arena] < |pages| && Fits(pages[tails[arena]], n)
      ensures k <= |old(lists[count])| && lists[count] == old(lists[count])[k..]
      ensures TooSmall(old(pages), old(lists[count]), k - 1, n)
      ensures 0 <= old(tails[arena]) < |old(pages)| && (k > 0 ==> !Fits(old(pages)[old(tails[arena])], n))
      ensures if !old(HasRoom(n, arena)) then k == |old(lists[count])|
              else if k == 0 then Fits(old(pages)[old(tails[arena])], n)
              else 0 <= old(lists[count])[k - 1] < |old(pages)| && ClearedFits(old(pages)[old(lists[count])[k - 1]], n)
      ensures lists[arena] == old(lists[arena]) + old(lists[count])[..k]
        + if ok && !old(HasRoom(n, arena)) then [|old(pages)|] else []
      ensures forall a {:trigger lists[a]} :: 0 <= a < count && a != arena ==> lists[a] == old(lists[a])
    {
      ghost var first, tail, f := pages, tails[arena], lists[count];
      FreeArePages();
      ok, k := TryFreePages(n, arena);
      ghost var ap, p := tails[arena], pages[tails[arena]];
      if ok {
        SomeFits(first, tail, f, k, ap, p, n);
      } else {
        NoneFits(first, tail, f, ap, p, n);
        ok := AddPage(arena, n, supply);
      }
    }

    /** The retries with free pages: until the last page of the arena has room, or no page is free. */
    method TryFreePages(n: nat, arena: nat) returns (ok: bool, ghost k: nat)
      requires Valid() && arena < count
      modifies this`pages, this`tails, this`freeBlocks, this`lists, this`owner
      ensures Valid() && SamePlaces(old(pages), pages) && k <= |old(lists[count])| && (!ok ==> k == |old(lists[count])|)
      ensures 0 <= tails[arena] < |pages| && ok == Fits(pages[tails[arena]], n)
      ensures lists[count] == old(lists[count])[k..] && lists[arena] == old(lists[arena]) + old(lists[count])[..k]
      ensures forall a {:trigger lists[a]} :: 0 <= a < count && a != arena ==> lists[a] == old(lists[a])
      ensures TooSmall(old(pages), old(lists[count]), k - 1, n)
      ensures Reached(old(pages), old(tails[arena]), old(lists[count]), k, tails[arena], pages[tails[arena]], n)
    {
      ghost var l, f := lists[arena], lists[count];
      TailIsPage(arena);
      k := 0;
      var ap := tails[arena];
      while pages[ap].available + n > pages[ap].limit
        invariant Valid() && ap == tails[arena] && 0 <= ap < |pages| && pages[ap].next == NONE
        invariant k <= |f| && lists[count] == f[k..] && lists[arena] == l + f[..k] && SamePlaces(old(pages), pages)
        invariant forall a {:trigger lists[a]} :: 0 <= a < count && a != arena ==> lists[a] == old(lists[a])
        invariant TooSmall(old(pages), f, k - 1, n) && Reached(old(pages), old(tails[arena]), f, k, ap, pages[ap], n)
        decreases |f| - k
      {
        if pages[ap].next == NONE {
          if freeBlocks == NONE {
            NoneIsFree();
            return false, k;
          }
          ap := NextFree(arena, n, l, f, k, old(pages), old(tails[arena]), ap);
          k := k + 1;
        }
      }
      return true, k;
    }

    /** Hands out the next n bytes of the last page of the arena. */
    method Grant(n: nat, arena: nat) returns (addr: nat)
      requires Valid() && 0 < n && arena < count
      requires 0 <= tails[arena] < |pages| && pages[tails[arena]].available + n <= pages[tails[arena]].limit
      modifies this`pages, this`live
      ensures Valid() && addr != 0
      ensures var b := Block(arena, tails[arena], addr, n); b !in old(live) && live == old(live) + {b}
    {
      ghost var before := pages;
      var ap := tails[arena];
      TailIsPage(arena);
      ghost var b := Block(arena, ap, pages[ap].available, n);
      assert PageOk(pages[ap]);
      HandOutPlaced(pages, count, ap, n);
      BlockAdded(live, pages, owner, count, ap, n, b);
      BlockCounted(live, pages, owner, count, ap, n, b);
      SameLinksShaped(pages, tails, freeBlocks, lists, owner, count, HandOut(pages, ap, n));
      pages := pages[ap := pages[ap].(available := pages[ap].available + n)];
      pages := pages[ap := pages[ap].(counter := pages[ap].counter + 1)];
      assert pages == HandOut(before, ap, n);
      live := live + {b};
      return pages[ap].available - n;
    }

    /** Hands out n bytes in an arena; `supply` is what the system returns if asked for a page, 0 for nothing. */
    method Allocate(n: nat, arena: nat, supply: nat) returns (addr: nat)
      requires Valid() && 0 < n && (supply != 0 ==> Unused(pages, count, supply, PageSize(n)))
      modifies this`pages, this`tails, this`freeBlocks, this`lists, this`owner, this`live
      ensures Valid()
      ensures addr != 0 <==> arena < count && (supply != 0 || old(HasRoom(n, arena)))
      ensures addr == 0 ==> live == old(live)
      ensures addr == 0 && arena < count ==>
        lists == old(lists)[arena := old(lists[arena]) + old(lists[count])][count := []]
      ensures addr != 0 ==> var b := Block(arena, tails[arena], addr, n); b !in old(live) && live == old(live) + {b}
    {
      if arena >= count {
        return 0;
      }
      ghost var k;
      var ok;
      ok, k := MakeRoom(n, arena, supply);
      if !ok {
        AllFreeTaken(old(lists), lists, arena, count, k);
        return 0;
      }
      addr := Grant(n, arena);
    }

    /** The first page of the arena that an address lies in. */
    method FindPage(mem: nat, arena: nat) returns (p: int)
      requires Valid() && arena < count
      ensures p == NONE ==> forall q :: q in lists[arena] ==> !Within(pages[q], mem)
      ensures p != NONE ==> p in lists[arena] && Within(pages[p], mem)
    {
      ghost var l, i := lists[arena], 0;
      p := arena;
      while p != NONE
        invariant 0 <= i <= |l| && p == (if i < |l| then l[i] else NONE)
        invariant forall q :: q in l[..i] ==> 0 <= q < |pages| && !Within(pages[q], mem)
        decreases |l| - i
      {
        assert LinkAt(pages, l, i);
        if Within(pages[p], mem) {
          assert l[i] in l;
          return p;
        }
        assert l[..i + 1] == l[..i] + [l[i]];
        p := pages[p].next;
        i := i + 1;
      }
      assert i < |l| ==> LinkAt(pages, l, i);
      assert l[..i] == l;
    }

    /** Links the neighbours of entry i of list l to each other. */
    method Bypass(page: int, arena: nat, ghost l: seq<int>, ghost i: int)
      requires 0 < i < |l| && l[i] == page && Linked(pages, l) && NoDup(l) && arena < |tails|
      requires tails[arena] == l[|l| - 1]
      modifies this`pages, this`tails
      ensures tails == old(tails)[arena := if i == |l| - 1 then l[i - 1] else old(tails)[arena]]
      ensures |pages| == |old(pages)| && forall p {:trigger pages[p]} :: 0 <= p < |pages| ==>
        pages[p] == var o := old(pages)[p];
          if p == l[i - 1] then o.(next := if i + 1 < |l| then l[i + 1] else NONE)
          else if i + 1 < |l| && p == l[i + 1] then o.(prev := l[i - 1]) else o
    {
      assert LinkAt(pages, l, i) && LinkAt(pages, l, i - 1);
      assert i + 1 < |l| ==> LinkAt(pages, l, i + 1);
      if tails[arena] == page {
        tails := tails[arena := pages[page].prev];
      }
      if pages[page].next != NONE {
        pages := pages[pages[page].next := pages[pages[page].next].(prev := pages[page].prev)];
      }
      if pages[page].prev != NONE {
        pages := pages[pages[page].prev := pages[pages[page].prev].(next := pages[page].next)];
      }
    }

    /** Puts a page in front of the free pages. */
    method PushFree(page: int)
      requires 0 <= page < |pages| && NONE <= freeBlocks < |pages| && freeBlocks != page
      modifies this`pages, this`freeBlocks
      ensures freeBlocks == page
      ensures |pages| == |old(pages)| && forall p {:trigger pages[p]} :: 0 <= p < |pages| ==>
        pages[p] == var o := old(pages)[p];
          if p == page then o.(next := old(freeBlocks), prev := NONE)
          else if p == old(freeBlocks) then o.(prev := page) else o
    {
      pages := pages[page := pages[page].(next := freeBlocks)];
      pages := pages[page := pages[page].(prev := NONE)];
      if freeBlocks != NONE {
        pages := pages[freeBlocks := pages[freeBlocks].(prev := page)];
      }
      freeBlocks := page;
    }

    /** The pointer updates that make entry i of list l the first one of list f. */
    method UnlinkPage(page: int, arena: nat, ghost l: seq<int>, ghost f: seq<int>, ghost i: int)
      requires 0 < i < |l| && l[i] == page && Linked(pages, l) && Linked(pages, f) && NoDup(l)
      requires forall p :: p in l ==> p !in f
      requires arena < |tails| && tails[arena] == l[|l| - 1] && freeBlocks == if f == [] then NONE else f[0]
      modifies this`pages, this`tails, this`freeBlocks
      ensures InnerMoved(old(pages), pages, l, f, i) && freeBlocks == page
      ensures tails == old(tails)[arena := if i == |l| - 1 then l[i - 1] else old(tails)[arena]]
    {
      assert LinkAt(pages, l, i) && l[i] in l && l[i - 1] in l;
      assert i + 1 < |l| ==> l[i + 1] in l;
      assert f != [] ==> LinkAt(pages, f, 0) && f[0] in f;
      Bypass(page, arena, l, i);
      PushFree(page);
    }

    /** A page of an arena, not its head, without live blocks becomes free. */
    method FreePage(page: int, arena: nat)
      requires Valid() && arena < count && page in lists[arena] && page != arena && OnPage(live, page) == {}
      modifies this`pages, this`tails, this`freeBlocks, this`lists, this`owner
      ensures Valid() && freeBlocks == page && owner == old(owner)[page := count]
      ensures lists[count] == [page] + old(lists[count])
      ensures forall a {:trigger lists[a]} :: 0 <= a < count && a != arena ==> lists[a] == old(lists[a])
    {
      ghost var l, f := lists[arena], lists[count];
      ghost var i :| 0 <= i < |l| && l[i] == page;
      assert l[0] == arena;
      UnlinkPage(page, arena, l, f, i);
      InnerFreed(old(pages), old(tails), old(freeBlocks), lists, owner, count, live, arena, i, pages);
      lists := lists[arena := l[..i] + l[i + 1..]][count := [page] + f];
      owner := owner[page := count];
    }

    /** The client gives up block b: its page is freed with its last block. */
    method Release(p: int, arena: nat, ghost b: Block)
      requires Valid() && arena < count && b in live && b.arena == arena && p == b.page
      modifies this`pages, this`tails, this`freeBlocks, this`lists, this`owner, this`live
      ensures Valid() && live == old(live) - {b} && 0 <= p < |old(owner)|
      ensures owner == if OnPage(live, p) == {} then old(owner)[p := count] else old(owner)
      ensures lists[count] == if OnPage(live, p) == {} then [p] + old(lists[count]) else old(lists[count])
    {
      BlockRemoved(live, pages, owner, count, b);
      ghost var q := pages[p := pages[p].(counter := pages[p].counter - 1)];
      SameLinksShaped(pages, tails, freeBlocks, lists, owner, count, q);
      HeadsOwned(pages, tails, freeBlocks, lists, owner, count);
      assert SameUse(pages[p].(counter := q[p].counter), q[p]);
      CounterPlaced(pages, q, count, p);
      pages := pages[p := pages[p].(counter := pages[p].counter - 1)];
      live := live - {b};
      assert p in lists[arena];
      if pages[p].counter == 0 {
        FreePage(p, arena);
      }
    }

    /** Frees one block; what is not inside the arena is left alone. */
    method FreeBlock(arena: nat, mem: nat, ghost b: Block)
      requires Valid() && arena < count && b in live && b.arena == arena && b.addr == mem
      modifies this`pages, this`tails, this`freeBlocks, this`lists, this`owner, this`live
      ensures Valid() && live == old(live) - {b} && 0 <= b.page < |old(owner)|
      ensures owner == if OnPage(live, b.page) == {} then old(owner)[b.page := count] else old(owner)
      ensures lists[count] == if OnPage(live, b.page) == {} then [b.page] + old(lists[count]) else old(lists[count])
    {
      PageOfBlock(live, pages, owner, count, b, b.page);
      assert b.page in lists[arena];
      var page := FindPage(mem, arena);
      PageOfBlock(live, pages, owner, count, b, page);
      if page != NONE && page != arena {
        Release(page, arena, b);
      }
    }

    /** The pointer updates that make all entries of list l but its first the first ones of list f. */
    method UnlinkRest(arena: nat, ghost l: seq<int>, ghost f: seq<int>)
      requires |l| > 1 && l[0] == arena && Linked(pages, l) && Linked(pages, f) && NoDup(l)
      requires forall p :: p in l ==> p !in f
      requires arena < |tails| && tails[arena] == l[|l| - 1] && freeBlocks == if f == [] then NONE else f[0]
      modifies this`pages, this`tails, this`freeBlocks
      ensures RestMoved(old(pages), pages, l, f) && freeBlocks == l[1] && tails == old(tails)[arena := arena]
    {
      assert LinkAt(pages, l, 0) && LinkAt(pages, l, 1) && LinkAt(pages, l, |l| - 1);
      assert l[0] in l && l[1] in l && l[|l| - 1] in l && (f != [] ==> LinkAt(pages, f, 0) && f[0] in f);
      var t := freeBlocks;
      freeBlocks := pages[arena].next;
      if pages[arena].next != NONE {
        pages := pages[pages[arena].next := pages[pages[arena].next].(prev := NONE)];
      }
      pages := pages[tails[arena] := pages[tails[arena]].(next := t)];
      if t != NONE {
        pages := pages[t := pages[t].(prev := tails[arena])];
      }
      tails := tails[arena := arena];
      pages := pages[arena := pages[arena].(next := NONE)];
      pages := pages[arena := pages[arena].(prev := NONE)];
    }

    /** An arena with no page but its head has no live block. */
    lemma NoPagesNoBlocks(arena: nat)
      requires Valid() && arena < count && pages[arena].next == NONE
      ensures forall b :: b in live ==> b.arena != arena
    {
      var l := lists[arena];
      assert LinkAt(pages, l, 0);
      assert |l| > 1 ==> LinkAt(pages, l, 1);
      forall b | b in live
        ensures b.arena != arena
      {
        assert BlockOk(b, pages, owner, count);
        assert b.page in l <==> owner[b.page] == arena;
      }
    }

    lemma OnlyHead(arena: nat)
      requires Valid() && arena < count && pages[arena].next == NONE
      ensures lists[arena] == [arena] && lists == lists[arena := [arena]][count := lists[arena][1..] + lists[count]]
      ensures owner == Disowned(owner, arena, count)
    {
      var l := lists[arena];
      assert LinkAt(pages, l, 0);
      assert |l| > 1 ==> LinkAt(pages, l, 1);
      assert l[1..] + lists[count] == lists[count];
      assert forall p :: 0 <= p < |owner| && owner[p] == arena ==> p in l;
    }

    /** Frees all blocks of an arena: its pages become the first free ones. */
    method FreeArena(arena: nat)
      requires Valid() && arena < count
      modifies this`pages, this`tails, this`freeBlocks, this`lists, this`owner, this`live
      ensures Valid() && live == set b | b in old(live) && b.arena != arena
      ensures lists == old(lists)[arena := [arena]][count := old(lists[arena])[1..] + old(lists[count])]
      ensures owner == Disowned(old(owner), arena, count) && SamePlaces(old(pages), pages)
    {
      ghost var l, f := lists[arena], lists[count];
      assert LinkAt(pages, l, 0);
      if pages[arena].next == NONE {
        NoPagesNoBlocks(arena);
        OnlyHead(arena);
        return;
      }
      UnlinkRest(arena, l, f);
      RestFreed(old(pages), old(tails), old(freeBlocks), lists, owner, count, live, arena, pages);
      lists := lists[arena := [arena]][count := l[1..] + f];
      owner := Disowned(owner, arena, count);
      live := set b | b in live && b.arena != arena;
    }

    /** Copies n bytes between places that do not overlap. */
    method CopyBytes(dst: nat, src: nat, n: nat)
      requires dst + n <= src || src + n <= dst
      modifies this`memory
      ensures Copied(old(memory), memory, dst, src, n)
    {
      for i := 0 to n
        invariant Copied(old(memory), memory, dst, src, i)
      {
        CopyOne(old(memory), memory, dst, src, i);
        memory := memory[dst + i := ByteAt(memory, src + i)];
      }
    }

    /** Moves a block of nOld bytes to nNew bytes elsewhere. */
    method Reallocate(mem: nat, nOld: nat, nNew: nat, arena: nat, supply: nat, ghost b: Block)
      returns (newMem: nat, ghost page: int)
      requires Valid() && nOld <= nNew && (supply != 0 ==> Unused(pages, count, supply, PageSize(nNew)))
      requires b in live && b.arena == arena < count && b.addr == mem && b.len == nOld
      modifies this
      ensures Valid() && (newMem != 0 <==> supply != 0 || old(HasRoom(nNew, arena)))
      ensures newMem == 0 ==> live == old(live) && memory == old(memory)
      ensures newMem != 0 ==>
        Block(arena, page, newMem, nNew) !in old(live) && live == old(live) - {b} + {Block(arena, page, newMem, nNew)}
      ensures newMem != 0 ==> Copied(old(memory), memory, newMem, mem, nOld)
    {
      PageOfBlock(live, pages, owner, count, b, b.page);
      newMem := Allocate(nNew, arena, supply);
      page := tails[arena];
      if newMem == 0 {
        return;
      }
      ghost var c := Block(arena, page, newMem, nNew);
      assert BlocksApart(b, c);
      CopyBytes(newMem, mem, nOld);
      PageOfBlock(live, pages, owner, count, b, b.page);
      assert b.page in lists[arena];
      var p := FindPage(mem, arena);
      PageOfBlock(live, pages, owner, count, b, p);
      if p != NONE {
        assert p == tails[arena] ==> c in OnPage(live - {b}, p);
        Release(p, arena, b);
      }
    }
  }

  /** Two arenas and one free page of 41 bytes: refusing 100 bytes to arena 1 gives it that page. */
  method RefusalTakesFreePages() returns (a: Arena, refused: nat)
    ensures fresh(a) && a.Valid() && a.count == 2 && refused == 0 && a.live == {}
    ensures a.lists == [[0], [1, 2], []]
  {
    a := new Arena(2);
    assert a.lists == [[0], [1], []];
    var ok := a.AddPage(0, 1, 1000);
    assert [0] + [2] == [0, 2] && a.lists == [[0, 2], [1], []];
    a.FreeArena(0);
    assert [0, 2][1..] + [] == [2] && a.lists == [[0], [1], [2]];
    assert PageSize(1) == 41;
    assert !a.HasRoom(100, 1) by {
      assert a.lists[1] == [1];
    }
    assert [1] + [2] == [1, 2];
    refused := a.Allocate(100, 1, 0);
  }
}
