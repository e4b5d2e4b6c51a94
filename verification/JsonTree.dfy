/** The binary form of a JSON text: nodes with a header that holds a tag and the size of the whole node, the
    content behind it. Cells stand for bytes; the first cell of a header or value stands for all of it. */
module JsonTree {
  import opened JsonText

  datatype Tag = ROOT | NODE | ARRAY | F64 | SZ | NIL | BOOLEAN

  datatype Cell = Head(tag: Tag, size: nat) | Lexeme(text: string) | Truth(value: bool) | Char(c: char) | Blank

  /** Sizes of a header, of a node with a number, and of one with a truth value; a header holds a tag and a size. */
  datatype LayoutData = LayoutData(header: nat, number: nat, boolean: nat)

  type Layout = y: LayoutData | 5 <= y.header < y.number && y.header < y.boolean witness LayoutData(5, 13, 6)

  /** An object is a node without name, its members are nodes named by their keys. */
  datatype Tree =
    | Num(lexeme: string)
    | Text(text: string)
    | Nil
    | Truth(truth: bool)
    | Box(tag: Tag, name: string, kids: seq<Tree>)

  /** Boxes are root, arrays, and nodes; only nodes have a name. */
  predicate Proper(t: Tree) {
    t.Box? ==>
      && (t.tag == ROOT || t.tag == NODE || t.tag == ARRAY)
      && (t.tag == NODE || t.name == "")
      && forall i :: 0 <= i < |t.kids| ==> Proper(t.kids[i])
  }

  predicate NulFree(s: string) {
    NUL !in s
  }

  /** No text in the tree has a NUL inside. */
  predicate NulFreeTree(t: Tree) {
    match t
    case Text(s) => NulFree(s)
    case Box(_, name, kids) => NulFree(name) && forall i :: 0 <= i < |kids| ==> NulFreeTree(kids[i])
    case _ => true
  }

  // ---------------------------------------------------------------------- encoding

  function Blanks(n: nat): (r: seq<Cell>)
    ensures |r| == n
  {
    seq(n, _ => Blank)
  }

  /** A header of h bytes. */
  function Header(h: nat, tag: Tag, size: nat): (r: seq<Cell>)
    requires 0 < h
    ensures |r| == h && r[0] == Head(tag, size)
  {
    [Head(tag, size)] + Blanks(h - 1)
  }

  /** The characters of s up to its first NUL, then NULs; and a NUL at the end. */
  function Terminated(s: string): (r: seq<Cell>)
    ensures |r| == |s| + 1
    ensures forall i {:trigger r[i]} :: 0 <= i <= |s| ==> r[i] == Char(if i < |s| && NUL !in s[..i] then s[i] else NUL)
  {
    seq(|s| + 1, i requires 0 <= i <= |s| => Char(if i < |s| && NUL !in s[..i] then s[i] else NUL))
  }

  /** What a box has in front of its children. */
  function Front(y: Layout, tag: Tag, name: string, size: nat): (r: seq<Cell>)
    ensures |r| == FrontSize(y, tag, name) && r[0] == Head(tag, size)
  {
    Header(y.header, tag, size) + if tag == NODE then Terminated(name) else []
  }

  function FrontSize(y: Layout, tag: Tag, name: string): nat {
    y.header + if tag == NODE then |name| + 1 else 0
  }

  function Encode(y: Layout, t: Tree): (r: seq<Cell>)
    ensures 0 < |r| && r[0].Head? && r[0].size == |r|
    decreases t
  {
    match t
    case Num(l) => Header(y.header, F64, y.number) + [Lexeme(l)] + Blanks(y.number - y.header - 1)
    case Text(s) => Header(y.header, SZ, y.header + |s| + 1) + Terminated(s)
    case Nil => Header(y.header, NIL, y.header)
    case Truth(b) => Header(y.header, BOOLEAN, y.boolean) + [Cell.Truth(b)] + Blanks(y.boolean - y.header - 1)
    case Box(tag, name, kids) =>
      var content := EncodeKids(y, t, |kids|);
      Front(y, tag, name, FrontSize(y, tag, name) + |content|) + content
  }

  /** The first n children one after the other. */
  function EncodeKids(y: Layout, t: Tree, n: nat): (r: seq<Cell>)
    requires t.Box? && n <= |t.kids|
    decreases t, n
  {
    if n == 0 then [] else EncodeKids(y, t, n - 1) + Encode(y, t.kids[n - 1])
  }

  /** The sum of the sizes in the headers of the first n children. */
  function KidSizes(y: Layout, t: Tree, n: nat): nat
    requires t.Box? && n <= |t.kids|
  {
    if n == 0 then 0 else KidSizes(y, t, n - 1) + Encode(y, t.kids[n - 1])[0].size
  }

  /** The size in the header of a box is that of its front and of all its children. */
  lemma {:induction false} SizesAddUp(y: Layout, t: Tree, n: nat)
    requires t.Box? && n <= |t.kids|
    ensures |EncodeKids(y, t, n)| == KidSizes(y, t, n)
    ensures Encode(y, t)[0].size == |Encode(y, t)| == FrontSize(y, t.tag, t.name) + |EncodeKids(y, t, |t.kids|)|
  {
    if n > 0 {
      SizesAddUp(y, t, n - 1);
    }
  }

  // ---------------------------------------------------------------------- what a traversal sees

  /** A box is seen when it is entered and when it is left, anything else once. */
  datatype Event = Enter(tag: Tag, name: string) | Leave(tag: Tag, name: string) | Leaf(tree: Tree)

  function Events(t: Tree): seq<Event>
    decreases t
  {
    if t.Box? then [Enter(t.tag, t.name)] + EventsOf(t, |t.kids|) + [Leave(t.tag, t.name)] else [Leaf(t)]
  }

  function EventsOf(t: Tree, n: nat): seq<Event>
    requires t.Box? && n <= |t.kids|
    decreases t, n
  {
    if n == 0 then [] else EventsOf(t, n - 1) + Events(t.kids[n - 1])
  }

  // ---------------------------------------------------------------------- the traversal

  /** At `at` the buffer holds the given cells. */
  ghost predicate CellsAt(buffer: seq<Cell>, at: nat, cells: seq<Cell>) {
    at + |cells| <= |buffer| && buffer[at..at + |cells|] == cells
  }

  lemma CellsSplit(buffer: seq<Cell>, at: nat, a: seq<Cell>, b: seq<Cell>)
    requires CellsAt(buffer, at, a + b)
    ensures CellsAt(buffer, at, a) && CellsAt(buffer, at + |a|, b)
  {
    assert buffer[at..at + |a|] == buffer[at..at + |a + b|][..|a|];
    assert buffer[at + |a|..at + |a| + |b|] == buffer[at..at + |a + b|][|a|..];
  }

  lemma CellAt(buffer: seq<Cell>, at: nat, cells: seq<Cell>, i: nat)
    requires CellsAt(buffer, at, cells) && i < |cells|
    ensures buffer[at + i] == cells[i]
  {
    assert buffer[at..at + |cells|][i] == cells[i];
  }

  /** Child i starts behind the children before it. */
  lemma {:induction false} KidAt(y: Layout, buffer: seq<Cell>, at: nat, t: Tree, i: nat, n: nat)
    requires t.Box? && i < n <= |t.kids| && CellsAt(buffer, at, EncodeKids(y, t, n))
    ensures CellsAt(buffer, at + |EncodeKids(y, t, i)|, Encode(y, t.kids[i]))
    ensures |EncodeKids(y, t, i)| + |Encode(y, t.kids[i])| == |EncodeKids(y, t, i + 1)| <= |EncodeKids(y, t, n)|
    decreases n
  {
    CellsSplit(buffer, at, EncodeKids(y, t, n - 1), Encode(y, t.kids[n - 1]));
    if i < n - 1 {
      KidAt(y, buffer, at, t, i, n - 1);
    }
  }

  /** The characters at `at` up to a NUL, not looking further than `room` bytes. */
  method ReadText(buffer: seq<Cell>, at: nat, room: nat, ghost s: string) returns (r: string)
    requires NulFree(s) && CellsAt(buffer, at, Terminated(s)) && |s| <= room
    ensures r == s
  {
    r := "";
    while |r| < room && buffer[at + |r|] != Char(NUL)
      invariant |r| <= |s| && r == s[..|r|]
      decreases |s| - |r|
    {
      CellAt(buffer, at, Terminated(s), |r|);
      TerminatedChar(s, |r|);
      r := r + [buffer[at + |r|].c];
    }
    if |r| < |s| {
      CellAt(buffer, at, Terminated(s), |r|);
      TerminatedChar(s, |r|);
    }
  }

  lemma TerminatedChar(s: string, i: nat)
    requires NulFree(s) && i <= |s|
    ensures Terminated(s)[i] == Char(if i < |s| then s[i] else NUL) && (i < |s| ==> s[i] != NUL)
  {
    assert NUL !in s[..i];
  }

  lemma KidsEnd(y: Layout, t: Tree, i: nat, n: nat)
    requires t.Box? && i <= n <= |t.kids|
    ensures |EncodeKids(y, t, i)| <= |EncodeKids(y, t, n)| && (i < n ==> |EncodeKids(y, t, i)| < |EncodeKids(y, t, n)|)
    decreases n
  {
    if i < n {
      KidsEnd(y, t, i, n - 1);
    }
  }

  /** Visits the node at `at`, which may take up to `size` bytes: returns the bytes it takes and what was seen. */
  method Traverse(y: Layout, buffer: seq<Cell>, at: nat, size: nat, ghost t: Tree)
    returns (consumed: nat, events: seq<Event>)
    requires Proper(t) && NulFreeTree(t) && CellsAt(buffer, at, Encode(y, t))
    requires size < y.header || |Encode(y, t)| <= size
    ensures if size < y.header then consumed == 0 && events == [] else consumed == |Encode(y, t)| && events == Events(t)
    decreases t
  {
    if size < y.header {
      return 0, [];
    }
    var root := buffer[at];
    CellAt(buffer, at, Encode(y, t), 0);
    if root.tag == ROOT || root.tag == NODE || root.tag == ARRAY {
      BoxAt(y, buffer, at, t);
      var name, hdSize := "", y.header;
      if root.tag == NODE {
        name := ReadText(buffer, at + y.header, size - y.header, t.name);
        hdSize := hdSize + |name| + 1;
      }
      var contentSize := root.size - hdSize;
      consumed, events := TraverseKids(y, buffer, at + hdSize, contentSize, t);
      events := [Enter(root.tag, name)] + events + [Leave(root.tag, name)];
      consumed := hdSize + contentSize;
    } else {
      consumed, events := VisitLeaf(y, buffer, at, t);
    }
  }

  /** Visits the content of a box. */
  method TraverseKids(y: Layout, buffer: seq<Cell>, at: nat, contentSize: nat, ghost t: Tree)
    returns (consumed: nat, events: seq<Event>)
    requires t.Box? && Proper(t) && NulFreeTree(t)
    requires CellsAt(buffer, at, EncodeKids(y, t, |t.kids|)) && contentSize == |EncodeKids(y, t, |t.kids|)|
    ensures consumed == contentSize && events == EventsOf(t, |t.kids|)
    decreases t, 0
  {
    consumed, events := 0, [];
    ghost var i := 0;
    while consumed < contentSize
      invariant 0 <= i <= |t.kids| && consumed == |EncodeKids(y, t, i)| && events == EventsOf(t, i)
      invariant consumed <= contentSize
      decreases contentSize - consumed
    {
      assert i < |t.kids|;
      KidAt(y, buffer, at, t, i, |t.kids|);
      var c, e := Traverse(y, buffer, at + consumed, contentSize - consumed, t.kids[i]);
      consumed := consumed + c;
      events := events + e;
      i := i + 1;
    }
    KidsEnd(y, t, i, |t.kids|);
  }

  lemma BoxAt(y: Layout, buffer: seq<Cell>, at: nat, t: Tree)
    requires t.Box? && Proper(t) && CellsAt(buffer, at, Encode(y, t))
    ensures var f := FrontSize(y, t.tag, t.name);
      && |Encode(y, t)| == f + |EncodeKids(y, t, |t.kids|)|
      && CellsAt(buffer, at + f, EncodeKids(y, t, |t.kids|))
      && (t.tag == NODE ==> CellsAt(buffer, at + y.header, Terminated(t.name)))
  {
    var content := EncodeKids(y, t, |t.kids|);
    var size := FrontSize(y, t.tag, t.name) + |content|;
    CellsSplit(buffer, at, Front(y, t.tag, t.name, size), content);
    if t.tag == NODE {
      CellsSplit(buffer, at, Header(y.header, t.tag, size), Terminated(t.name));
    }
  }

  /** Visits a node that is no box. */
  method VisitLeaf(y: Layout, buffer: seq<Cell>, at: nat, ghost t: Tree) returns (consumed: nat, events: seq<Event>)
    requires !t.Box? && NulFreeTree(t) && CellsAt(buffer, at, Encode(y, t))
    ensures consumed == |Encode(y, t)| && events == Events(t)
  {
    var root := buffer[at];
    CellAt(buffer, at, Encode(y, t), 0);
    if root.tag == BOOLEAN {
      CellAt(buffer, at, Encode(y, t), y.header);
      return y.boolean, [Leaf(Tree.Truth(buffer[at + y.header].value))];
    } else if root.tag == F64 {
      CellAt(buffer, at, Encode(y, t), y.header);
      return y.number, [Leaf(Num(buffer[at + y.header].text))];
    } else if root.tag == SZ {
      CellsSplit(buffer, at, Header(y.header, SZ, y.header + |t.text| + 1), Terminated(t.text));
      var s := ReadText(buffer, at + y.header, |buffer| - (at + y.header), t.text);
      return y.header + |s| + 1, [Leaf(Text(s))];
    } else {
      return y.header, [Leaf(Nil)];
    }
  }
}
