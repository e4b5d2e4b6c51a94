/** The doubly linked page lists of the arena allocator. A page is named by its number; NONE is the null pointer. */
module PageLists {

  const NONE := -1

  datatype Page = Page(base: nat, next: int, prev: int, available: nat, limit: nat, counter: int)

  // ---------------------------------------------------------------------- one list

  /** Entry i of list l is linked to its neighbours. */
  ghost predicate LinkAt(pages: seq<Page>, l: seq<int>, i: int)
    requires 0 <= i < |l|
  {
    && 0 <= l[i] < |pages|
    && pages[l[i]].next == (if i + 1 < |l| then l[i + 1] else NONE)
    && pages[l[i]].prev == (if i > 0 then l[i - 1] else NONE)
  }

  ghost predicate Linked(pages: seq<Page>, l: seq<int>) {
    forall i {:trigger LinkAt(pages, l, i)} :: 0 <= i < |l| ==> LinkAt(pages, l, i)
  }

  ghost predicate NoDup(l: seq<int>) {
    forall i, j :: 0 <= i < j < |l| ==> l[i] != l[j]
  }

  /** Pages q link page p as `pages` does. */
  ghost predicate SameLinks(pages: seq<Page>, q: seq<Page>, p: int) {
    0 <= p < |pages| && 0 <= p < |q| && q[p].next == pages[p].next && q[p].prev == pages[p].prev
  }

  lemma LinkedKept(pages: seq<Page>, q: seq<Page>, l: seq<int>)
    requires Linked(pages, l) && forall p {:trigger SameLinks(pages, q, p)} :: p in l ==> SameLinks(pages, q, p)
    ensures Linked(q, l)
  {
    forall i | 0 <= i < |l|
      ensures LinkAt(q, l, i)
    {
      assert LinkAt(pages, l, i) && SameLinks(pages, q, l[i]);
    }
  }

  lemma NoDupAppend(l: seq<int>, f: seq<int>)
    requires NoDup(l) && NoDup(f) && forall p :: p in l ==> p !in f
    ensures NoDup(l + f)
  {
    var m := l + f;
    forall i, j | 0 <= i < j < |m|
      ensures m[i] != m[j]
    {
      if i < |l| <= j {
        assert m[i] in l && m[j] in f;
      }
    }
  }

  lemma NoDupRest(l: seq<int>)
    requires NoDup(l) && l != []
    ensures NoDup(l[1..]) && forall p :: p in l[1..] <==> p in l && p != l[0]
  {
    assert l == [l[0]] + l[1..];
  }

  // ---------------------------------------------------------------------- surgery on two lists

  /** The first page of list f becomes the last one of list l. */
  lemma MoveFirst(pages: seq<Page>, q: seq<Page>, l: seq<int>, f: seq<int>)
    requires Linked(pages, l) && Linked(pages, f) && l != [] && f != [] && NoDup(l) && NoDup(f)
    requires forall p :: p in l ==> p !in f
    requires |q| == |pages|
    requires forall p {:trigger q[p]} :: 0 <= p < |q| ==>
      && q[p].next == (if p == l[|l| - 1] then f[0] else if p == f[0] then NONE else pages[p].next)
      && q[p].prev == (if p == f[0] then l[|l| - 1] else if |f| > 1 && p == f[1] then NONE else pages[p].prev)
    ensures Linked(q, l + [f[0]]) && Linked(q, f[1..])
  {
    var m, g := l + [f[0]], f[1..];
    forall i | 0 <= i < |m|
      ensures LinkAt(q, m, i)
    {
      if i < |l| {
        assert LinkAt(pages, l, i) && l[i] in l;
        assert f[0] in f && (|f| > 1 ==> f[1] in f);
        assert i + 1 < |l| ==> l[i] != l[|l| - 1];
      } else {
        assert LinkAt(pages, f, 0);
        assert f[0] in f && l[|l| - 1] in l;
      }
    }
    forall i | 0 <= i < |g|
      ensures LinkAt(q, g, i)
    {
      assert LinkAt(pages, f, i + 1) && g[i] == f[i + 1] && f[i + 1] in f && l[|l| - 1] in l;
    }
  }

  /** A new page becomes the last one of list l. */
  lemma AppendNew(pages: seq<Page>, q: seq<Page>, l: seq<int>)
    requires Linked(pages, l) && l != [] && NoDup(l)
    requires |q| == |pages| + 1 && q[|pages|].next == NONE && q[|pages|].prev == l[|l| - 1]
    requires forall p {:trigger q[p]} :: 0 <= p < |pages| ==>
      q[p].next == (if p == l[|l| - 1] then |pages| else pages[p].next) && q[p].prev == pages[p].prev
    ensures Linked(q, l + [|pages|])
  {
    var m := l + [|pages|];
    forall i | 0 <= i < |m|
      ensures LinkAt(q, m, i)
    {
      if i < |l| {
        assert LinkAt(pages, l, i);
        assert i + 1 < |l| ==> l[i] != l[|l| - 1];
      } else {
        assert LinkAt(pages, l, |l| - 1);
      }
    }
  }

  /** Entry i of list l, not its first, becomes the first one of list f. */
  lemma MoveInner(pages: seq<Page>, q: seq<Page>, l: seq<int>, f: seq<int>, i: int)
    requires Linked(pages, l) && Linked(pages, f) && NoDup(l) && NoDup(f) && 0 < i < |l|
    requires forall p :: p in l ==> p !in f
    requires |q| == |pages|
    requires forall p {:trigger q[p]} :: 0 <= p < |q| ==>
      && q[p].next == (if p == l[i] then if f == [] then NONE else f[0]
                       else if p == l[i - 1] then if i + 1 < |l| then l[i + 1] else NONE else pages[p].next)
      && q[p].prev == (if p == l[i] then NONE else if f != [] && p == f[0] then l[i]
                       else if i + 1 < |l| && p == l[i + 1] then l[i - 1] else pages[p].prev)
    ensures Linked(q, l[..i] + l[i + 1..]) && Linked(q, [l[i]] + f)
  {
    var m, g := l[..i] + l[i + 1..], [l[i]] + f;
    assert LinkAt(pages, l, i);
    forall k | 0 <= k < |m|
      ensures LinkAt(q, m, k)
    {
      var j := if k < i then k else k + 1;
      assert m[k] == l[j] && LinkAt(pages, l, j) && l[j] in l && l[j] != l[i];
      assert f != [] ==> f[0] in f;
      assert k + 1 < |m| ==> m[k + 1] == l[if k + 1 < i then k + 1 else k + 2];
      assert k > 0 ==> m[k - 1] == l[if k - 1 < i then k - 1 else k];
      assert j != i - 1 ==> l[j] != l[i - 1];
      assert i + 1 < |l| && j != i + 1 ==> l[j] != l[i + 1];
    }
    forall k | 0 <= k < |g|
      ensures LinkAt(q, g, k)
    {
      if k > 0 {
        assert g[k] == f[k - 1] && LinkAt(pages, f, k - 1) && f[k - 1] in f;
        assert l[i] in l && l[i - 1] in l && (i + 1 < |l| ==> l[i + 1] in l);
        assert k > 1 ==> f[k - 1] != f[0];
      }
    }
  }

  /** All entries of list l but its first become the first ones of list f. */
  lemma MoveRest(pages: seq<Page>, q: seq<Page>, l: seq<int>, f: seq<int>)
    requires Linked(pages, l) && Linked(pages, f) && NoDup(l) && NoDup(f) && |l| > 1
    requires forall p :: p in l ==> p !in f
    requires |q| == |pages|
    requires forall p {:trigger q[p]} :: 0 <= p < |q| ==>
      && q[p].next == (if p == l[0] then NONE else if p == l[|l| - 1] && f != [] then f[0] else pages[p].next)
      && q[p].prev == (if p == l[0] || p == l[1] then NONE
                       else if f != [] && p == f[0] then l[|l| - 1] else pages[p].prev)
    ensures Linked(q, [l[0]]) && Linked(q, l[1..] + f)
  {
    var g := l[1..] + f;
    assert LinkAt(pages, l, 0);
    assert LinkAt(q, [l[0]], 0);
    forall k | 0 <= k < |g|
      ensures LinkAt(q, g, k)
    {
      if k < |l| - 1 {
        assert g[k] == l[k + 1] && LinkAt(pages, l, k + 1) && l[k + 1] in l && l[k + 1] != l[0];
        assert f != [] ==> f[0] in f;
        assert k > 0 ==> l[k + 1] != l[1];
        assert k + 1 < |l| - 1 ==> l[k + 1] != l[|l| - 1] && g[k + 1] == l[k + 2];
      } else {
        var j := k - (|l| - 1);
        assert g[k] == f[j] && LinkAt(pages, f, j) && f[j] in f;
        assert l[0] in l && l[1] in l && l[|l| - 1] in l;
        assert j > 0 ==> f[j] != f[0];
      }
    }
  }
}
