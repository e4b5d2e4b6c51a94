/** The encoder: recursive descent over the tokens, writing nodes into a buffer that grows; the size of the
    enclosing node is kept up to date in its header. */
module JsonEncoder {
  import opened JsonText
  import opened JsonTree
  import opened JsonParse

  // ---------------------------------------------------------------------- what is written

  function EncodeList(y: Layout, kids: seq<Tree>): seq<Cell> {
    if kids == [] then [] else Encode(y, kids[0]) + EncodeList(y, kids[1..])
  }

  lemma {:induction false} EncodeListAppend(y: Layout, a: seq<Tree>, b: seq<Tree>)
    ensures EncodeList(y, a + b) == EncodeList(y, a) + EncodeList(y, b)
  {
    if a == [] {
      assert a + b == b;
    } else {
      EncodeListAppend(y, a[1..], b);
      assert (a + b)[1..] == a[1..] + b;
      var x := Encode(y, a[0]);
      assert EncodeList(y, a + b) == x + EncodeList(y, a[1..] + b);
      assert x + (EncodeList(y, a[1..]) + EncodeList(y, b)) == (x + EncodeList(y, a[1..])) + EncodeList(y, b);
    }
  }

  lemma {:induction false} EncodeListIsKids(y: Layout, t: Tree, n: nat)
    requires t.Box? && n <= |t.kids|
    ensures EncodeKids(y, t, n) == EncodeList(y, t.kids[..n])
    decreases n
  {
    if n > 0 {
      EncodeListIsKids(y, t, n - 1);
      assert t.kids[..n] == t.kids[..n - 1] + [t.kids[n - 1]];
      EncodeListAppend(y, t.kids[..n - 1], [t.kids[n - 1]]);
      assert EncodeList(y, [t.kids[n - 1]]) == Encode(y, t.kids[n - 1]);
    }
  }

  /** The size in the header at `at` grows by k. */
  function Bumped(b: seq<Cell>, at: nat, k: nat): (r: seq<Cell>)
    requires at < |b| && b[at].Head?
    ensures |r| == |b| && r[at] == Head(b[at].tag, b[at].size + k)
    ensures forall i :: 0 <= i < |b| && i != at ==> r[i] == b[i]
  {
    b[at := Head(b[at].tag, b[at].size + k)]
  }

  /** Cells were added behind `before`, and to the size of the node at `at`. */
  ghost predicate Added(before: seq<Cell>, after: seq<Cell>, at: nat, cells: seq<Cell>) {
    at < |before| && before[at].Head? && after == Bumped(before, at, |cells|) + cells
  }

  lemma AddedTwice(a: seq<Cell>, b: seq<Cell>, c: seq<Cell>, at: nat, x: seq<Cell>, z: seq<Cell>)
    requires Added(a, b, at, x) && Added(b, c, at, z)
    ensures Added(a, c, at, x + z)
  {
    assert c == Bumped(a, at, |x + z|) + (x + z);
  }

  lemma AddedNothing(a: seq<Cell>, at: nat)
    requires at < |a| && a[at].Head?
    ensures Added(a, a, at, [])
  {
    assert Bumped(a, at, 0) + [] == a;
  }

  lemma FrontBumped(y: Layout, a: seq<Cell>, tag: Tag, name: string, size: nat, k: nat)
    ensures Bumped(a + Front(y, tag, name, size), |a|, k) == a + Front(y, tag, name, size + k)
  {
    var f := Front(y, tag, name, size);
    assert (a + f)[|a|] == f[0];
    assert Front(y, tag, name, size + k) == f[0 := Head(tag, size + k)];
  }

  lemma BumpedTwice(a: seq<Cell>, at: nat, k: nat, m: nat, x: seq<Cell>)
    requires at < |a| && a[at].Head?
    ensures Bumped(Bumped(a, at, k) + x, at, m) == Bumped(a, at, k + m) + x
  {
  }

  /** A box with its content e. */
  function BoxCells(y: Layout, tag: Tag, name: string, e: seq<Cell>): seq<Cell> {
    Front(y, tag, name, FrontSize(y, tag, name) + |e|) + e
  }

  lemma BoxEncoded(y: Layout, tag: Tag, name: string, kids: seq<Tree>)
    ensures EncodeList(y, [Box(tag, name, kids)]) == BoxCells(y, tag, name, EncodeList(y, kids))
    ensures Encode(y, Box(tag, name, kids)) == BoxCells(y, tag, name, EncodeList(y, kids))
  {
    var t := Box(tag, name, kids);
    EncodeListIsKids(y, t, |kids|);
    assert kids[..|kids|] == kids;
    assert EncodeList(y, [t]) == Encode(y, t) + [];
  }

  /** A box whose content is written behind its front is complete once its size is added to the outer node. */
  lemma BoxClosed(y: Layout, a: seq<Cell>, b: seq<Cell>, c: seq<Cell>, at: nat, tag: Tag, name: string, e: seq<Cell>)
    requires Added(a, b, at, Front(y, tag, name, FrontSize(y, tag, name))) && Added(b, c, |a|, e)
    ensures at < |a| < |c| && c[at].Head? && c[|a|] == Head(tag, FrontSize(y, tag, name) + |e|)
    ensures Added(a, Bumped(c, at, |e|), at, BoxCells(y, tag, name, e))
  {
    var f := FrontSize(y, tag, name);
    var front := Front(y, tag, name, f + |e|);
    FrontBumped(y, Bumped(a, at, f), tag, name, f, |e|);
    assert c == Bumped(a, at, f) + (front + e);
    assert c[|a|] == front[0];
    BumpedTwice(a, at, f, |e|, front + e);
  }

  // ---------------------------------------------------------------------- sizes

  function Scaled(n: nat): (m: nat)
    ensures m == n + n / 10 && n <= m && (10 <= n ==> n + 1 <= m)
  {
    (n as real * 1.1).Floor
  }

  /** Too little memory for `total` bytes: the buffer is never asked to hold more than twice of them, and a tenth. */
  ghost predicate Short(limit: nat, total: nat) {
    limit < Scaled(2 * total)
  }

  lemma ShortGrows(limit: nat, total: nat, more: nat)
    requires Short(limit, total) && total <= more
    ensures Short(limit, more)
  {
    assert (2 * total) as real * 1.1 <= (2 * more) as real * 1.1;
  }

  /** Behind `used` bytes the trees are not written: the text was wrong, or memory is short of them. */
  ghost predicate Unwritten(y: Layout, limit: nat, used: nat, p: Parsed) {
    p.Failed? || Short(limit, used + |EncodeList(y, p.kids)|)
  }

  lemma UnwrittenBox(y: Layout, limit: nat, used: nat, p: Parsed, tag: Tag, name: string)
    requires Unwritten(y, limit, used + FrontSize(y, tag, name), p)
    ensures Unwritten(y, limit, used, Boxed(tag, name, p))
  {
    if p.Parsed? {
      BoxEncoded(y, tag, name, p.kids);
    }
  }

  /** What is not written as part of more trees leaves these unwritten. */
  lemma UnwrittenRest(y: Layout, limit: nat, used: nat, kids: seq<Tree>, p: Parsed)
    requires Unwritten(y, limit, used + |EncodeList(y, kids)|, p)
    ensures Unwritten(y, limit, used, Join(kids, p))
  {
    if p.Parsed? {
      EncodeListAppend(y, kids, p.kids);
    }
  }

  lemma UnwrittenStart(y: Layout, limit: nat, used: nat, kids: seq<Tree>, p: Parsed)
    requires Short(limit, used + |EncodeList(y, kids)|)
    ensures Unwritten(y, limit, used, Join(kids, p))
  {
    if p.Parsed? {
      EncodeListAppend(y, kids, p.kids);
      ShortGrows(limit, used + |EncodeList(y, kids)|, used + |EncodeList(y, kids + p.kids)|);
    }
  }

  // ---------------------------------------------------------------------- the encoder

  class Encoder {
    const y: Layout
    const input: string
    ghost const tokens: Tokenized
    /** The largest buffer the arena can provide. */
    const limit: nat
    var loc: nat
    var curTok: Token
    var buffer: seq<Cell>
    var used: nat
    var curNodeOfs: nat

    ghost predicate Valid()
      reads this
    {
      && |buffer| <= limit
      && tokens.text == input && loc <= |input| && y.header <= used <= |buffer| && curNodeOfs < used
         && buffer[curNodeOfs].Head?
    }

    ghost function Content(): seq<Cell>
      reads this
      requires used <= |buffer|
    {
      buffer[..used]
    }

    ghost function Left(): nat
      reads this
    {
      Measure(tokens.src, curTok, loc)
    }

    constructor (layout: Layout, json: string, most: nat)
      requires layout.header <= most
      ensures Valid() && y == layout && input == json && tokens == Tokenize(json) && limit == most && loc == 0
      ensures curNodeOfs == 0
      ensures used == y.header && Content() == Header(y.header, ROOT, y.header)
    {
      y, input, limit, tokens := layout, json, most, Tokenize(json);
      buffer := Header(layout.header, ROOT, layout.header);
      used, curNodeOfs, loc, curTok := layout.header, 0, 0, Eoi;
    }

    method ReadToken() returns (ok: bool)
      requires Valid()
      modifies this`loc, this`curTok
      ensures Valid() && var n := tokens.src.next(old(loc)); ok == n.Tok? && (ok ==> curTok == n.tok && loc == n.loc)
      ensures !ok ==> loc == old(loc)
    {
      var n := GetToken(input, loc);
      if n.Fail? {
        return false;
      }
      curTok, loc := n.tok, n.loc;
      return true;
    }

    /** The value of the current token. */
    method StringValue() returns (value: Option<string>)
      requires Valid()
      ensures value == tokens.src.value(curTok)
    {
      value := ExtractStrValue(curTok, input);
      assert value == Value(input, curTok);
    }

    /** Makes room for `need` more bytes, growing to 1.1 times the bytes asked for; fails only if memory is short
        of the bytes used and needed. */
    method Reserve(need: nat, asked: nat) returns (ok: bool)
      requires Valid() && |buffer| <= asked <= |buffer| + need && used + need <= Scaled(asked)
      modifies this`buffer
      ensures Valid() && Content() == old(Content())
      ensures if ok then used + need <= |buffer| else Short(limit, used + need)
    {
      if |buffer| - used < need {
        var newSize := Scaled(asked);
        if newSize > limit {
          Asked(asked, used + need);
          return false;
        }
        buffer := buffer + Blanks(newSize - |buffer|);
      }
      return true;
    }

    lemma Asked(asked: nat, total: nat)
      requires asked <= 2 * total && limit < Scaled(asked)
      ensures Short(limit, total)
    {
      assert asked as real * 1.1 <= (2 * total) as real * 1.1;
    }

    /** Writes a node, or the front of one, behind the content and counts it in the enclosing node. */
    method Append(cells: seq<Cell>)
      requires Valid() && used + |cells| <= |buffer|
      modifies this`buffer, this`used
      ensures Valid() && |buffer| == old(|buffer|) && used == old(used) + |cells|
      ensures Added(old(Content()), Content(), curNodeOfs, cells)
    {
      ghost var before := Content();
      buffer := buffer[..used] + cells + buffer[used + |cells|..];
      used := used + |cells|;
      buffer := buffer[curNodeOfs := Head(buffer[curNodeOfs].tag, buffer[curNodeOfs].size + |cells|)];
      assert Content() == Bumped(before, curNodeOfs, |cells|) + cells;
    }

    /** What consuming leaves: the trees' cells are added and the token behind them is read, or the text was
        wrong or memory short of what would have been written. */
    ghost predicate Consumed(ok: bool, p: Parsed, before: seq<Cell>, at: nat)
      reads this
    {
      && Valid()
      && (ok ==>
           p.Parsed? && curTok == p.tok && loc == p.loc && curNodeOfs == at
             && Added(before, Content(), at, EncodeList(y, p.kids)))
      && (!ok ==> Unwritten(y, limit, |before|, p))
    }

    method ConsumeNumber() returns (ok: bool)
      requires Valid() && curTok.Number?
      modifies this
      ensures Consumed(ok, Element(tokens.src, old(curTok), old(loc)), old(Content()), old(curNodeOfs))
    {
      ok := Reserve(y.number, y.number + |buffer|);
      if !ok {
        return;
      }
      var cells := Encode(y, Num(curTok.text));
      Append(cells);
      assert EncodeList(y, [Num(curTok.text)]) == cells;
      ok := ReadToken();
    }

    /** Copies a text as strncpy does, up to its first NUL and padded with NULs, and ends it with a NUL. */
    method CopyText(value: string) returns (cells: seq<Cell>)
      ensures cells == Terminated(value)
    {
      cells := [];
      var ended := false;
      for i := 0 to |value|
        invariant |cells| == i && ended == (NUL in value[..i]) && cells == Terminated(value)[..i]
      {
        ghost var same := value[..i + 1] == value[..i] + [value[i]];
        assert same;
        cells := cells + [Char(if ended then NUL else value[i])];
        if value[i] == NUL {
          ended := true;
        }
      }
      cells := cells + [Char(NUL)];
    }

    /** The request for more room leaves out the byte of the final NUL; growing by a tenth makes up for it. */
    method ConsumeString() returns (ok: bool)
      requires Valid() && curTok.Str?
      modifies this
      ensures Consumed(ok, Element(tokens.src, old(curTok), old(loc)), old(Content()), old(curNodeOfs))
    {
      var value := StringValue();
      if value.None? {
        return false;
      }
      ok := Reserve(y.header + |value.value| + 1, y.header + |value.value| + |buffer|);
      if !ok {
        return;
      }
      var text := CopyText(value.value);
      var cells := Header(y.header, SZ, y.header + |value.value| + 1) + text;
      Append(cells);
      assert EncodeList(y, [Text(value.value)]) == cells;
      ok := ReadToken();
    }

    method ConsumeNull() returns (ok: bool)
      requires Valid() && curTok.Null?
      modifies this
      ensures Consumed(ok, Element(tokens.src, old(curTok), old(loc)), old(Content()), old(curNodeOfs))
    {
      ok := Reserve(y.header, y.header + |buffer|);
      if !ok {
        return;
      }
      var cells := Header(y.header, NIL, y.header);
      Append(cells);
      assert EncodeList(y, [Nil]) == cells;
      ok := ReadToken();
    }

    method ConsumeBoolean() returns (ok: bool)
      requires Valid() && curTok.Bool?
      modifies this
      ensures Consumed(ok, Element(tokens.src, old(curTok), old(loc)), old(Content()), old(curNodeOfs))
    {
      ok := Reserve(y.boolean, y.boolean + |buffer|);
      if !ok {
        return;
      }
      var cells := Encode(y, Tree.Truth(curTok.value));
      Append(cells);
      assert EncodeList(y, [Tree.Truth(curTok.value)]) == cells;
      ok := ReadToken();
    }

    /** Consumes the element that starts with the current token; tokens that start none are left alone. */
    method ConsumeElement() returns (ok: bool)
      requires Valid()
      modifies this
      ensures Consumed(ok, Element(tokens.src, old(curTok), old(loc)), old(Content()), old(curNodeOfs))
      decreases Left(), 1
    {
      if curTok.Eoi? {
        return false;
      }
      AddedNothing(Content(), curNodeOfs);
      if curTok.Number? {
        ok := ConsumeNumber();
      } else if curTok.Str? {
        ok := ConsumeString();
      } else if curTok.Null? {
        ok := ConsumeNull();
      } else if curTok.Bool? {
        ok := ConsumeBoolean();
      } else if curTok.LBrace? {
        ok := ConsumeObject();
      } else if curTok.LBracket? {
        ok := ConsumeArray();
      } else {
        ok := true;
      }
    }

    /** Writes the front of a box and makes it the enclosing node of what follows. */
    method OpenBox(tag: Tag, name: string) returns (outer: nat)
      requires Valid() && used + FrontSize(y, tag, name) <= |buffer|
      modifies this`buffer, this`used, this`curNodeOfs
      ensures Valid() && outer == old(curNodeOfs) && curNodeOfs == old(used)
      ensures Added(old(Content()), Content(), outer, Front(y, tag, name, FrontSize(y, tag, name)))
    {
      outer := curNodeOfs;
      var at := used;
      var cells := Header(y.header, tag, FrontSize(y, tag, name));
      if tag == NODE {
        var text := CopyText(name);
        cells := cells + text;
      }
      Append(cells);
      curNodeOfs := at;
    }

    /** Adds the size that a box has gained to the outer node, which becomes the enclosing one again. */
    method CloseBox(outer: nat, oldSize: nat, ghost a: seq<Cell>, ghost b: seq<Cell>, ghost tag: Tag,
                    ghost name: string, ghost e: seq<Cell>)
      requires Valid() && oldSize == FrontSize(y, tag, name) && curNodeOfs == |a|
      requires Added(a, b, outer, Front(y, tag, name, oldSize)) && Added(b, Content(), |a|, e)
      modifies this`buffer, this`curNodeOfs
      ensures Valid() && curNodeOfs == outer && Added(a, Content(), outer, BoxCells(y, tag, name, e))
    {
      ghost var c := Content();
      BoxClosed(y, a, b, c, outer, tag, name, e);
      assert buffer[curNodeOfs] == c[|a|];
      var newSize := buffer[curNodeOfs].size;
      curNodeOfs := outer;
      buffer := buffer[curNodeOfs := Head(buffer[curNodeOfs].tag, buffer[curNodeOfs].size + (newSize - oldSize))];
      assert Content() == Bumped(c, outer, |e|);
    }

    method ConsumeMember() returns (ok: bool)
      requires Valid() && curTok.Str?
      modifies this
      ensures Consumed(ok, OneMember(tokens.src, old(curTok), old(loc)), old(Content()), old(curNodeOfs))
      decreases Left(), 0
    {
      var value := StringValue();
      if value.None? {
        return false;
      }
      ok := Reserve(y.header + |value.value| + 1, |buffer| + y.header + |value.value| + 1);
      if !ok {
        return;
      }
      ok := ReadToken();
      if !ok || !curTok.Colon? {
        return false;
      }
      ok := WriteMember(value.value);
    }

    /** Writes a member whose colon has been read. */
    method WriteMember(name: string) returns (ok: bool)
      requires Valid() && used + FrontSize(y, NODE, name) <= |buffer|
      modifies this
      ensures Consumed(ok, Boxed(NODE, name, ElementAt(tokens.src, old(loc))), old(Content()), old(curNodeOfs))
      decreases 2 * (tokens.src.length - loc), 3
    {
      ghost var a := Content();
      var outer := OpenBox(NODE, name);
      ghost var b := Content();
      ok := ReadToken();
      if !ok {
        return;
      }
      ghost var e := Element(tokens.src, curTok, loc);
      ok := ConsumeElement();
      if !ok {
        UnwrittenBox(y, limit, |a|, e, NODE, name);
        return;
      }
      CloseBox(outer, FrontSize(y, NODE, name), a, b, NODE, name, EncodeList(y, e.kids));
      BoxEncoded(y, NODE, name, e.kids);
    }

    method ConsumeMembers() returns (ok: bool)
      requires Valid()
      modifies this
      ensures Consumed(ok, Members(tokens.src, old(curTok), old(loc)), old(Content()), old(curNodeOfs))
      decreases Left(), 1
    {
      ghost var p, before, at := Members(tokens.src, curTok, loc), Content(), curNodeOfs;
      ghost var done: seq<Tree> := [];
      AddedNothing(before, at);
      assert p == Join(done, p) by {
        assert p.Parsed? ==> [] + p.kids == p.kids;
      }
      while curTok.Str? || curTok.Comma?
        invariant Valid() && curNodeOfs == at && Added(before, Content(), at, EncodeList(y, done))
        invariant p == Join(done, Members(tokens.src, curTok, loc)) && Left() <= old(Left())
        decreases Left()
      {
        if curTok.Str? {
          ghost var mid, m, rest := Content(), OneMember(tokens.src, curTok, loc), Members(tokens.src, curTok, loc);
          ok := ConsumeMember();
          if !ok {
            if m.Parsed? {
              UnwrittenStart(y, limit, |mid|, m.kids, Members(tokens.src, m.tok, m.loc));
            }
            UnwrittenRest(y, limit, |before|, done, rest);
            return;
          }
          AddedTwice(before, mid, Content(), at, EncodeList(y, done), EncodeList(y, m.kids));
          EncodeListAppend(y, done, m.kids);
          JoinTwice(done, m.kids, Members(tokens.src, curTok, loc));
          done := done + m.kids;
        } else {
          ok := ReadToken();
          if !ok {
            return;
          }
        }
      }
      assert done + [] == done;
      return true;
    }

    lemma JoinTwice(a: seq<Tree>, b: seq<Tree>, p: Parsed)
      ensures Join(a, Join(b, p)) == Join(a + b, p)
    {
      if p.Parsed? {
        assert a + (b + p.kids) == (a + b) + p.kids;
      }
    }

    method ConsumeObject() returns (ok: bool)
      requires Valid() && curTok.LBrace?
      modifies this
      ensures Consumed(ok, Element(tokens.src, old(curTok), old(loc)), old(Content()), old(curNodeOfs))
      decreases Left(), 0
    {
      ok := Reserve(y.header + 1, |buffer| + y.header + 1);
      if !ok {
        return;
      }
      ok := WriteObject();
      if !ok || !curTok.RBrace? {
        return false;
      }
      ok := ReadToken();
    }

    /** Writes an object up to the token that ends it. */
    method WriteObject() returns (ok: bool)
      requires Valid() && used + FrontSize(y, NODE, "") <= |buffer|
      modifies this
      ensures Consumed(ok, Boxed(NODE, "", MembersAt(tokens.src, old(loc))), old(Content()), old(curNodeOfs))
      decreases 2 * (tokens.src.length - loc), 3
    {
      ghost var a := Content();
      var outer := OpenBox(NODE, "");
      ghost var b := Content();
      ok := ReadToken();
      if !ok {
        return;
      }
      ghost var p := Members(tokens.src, curTok, loc);
      ok := ConsumeMembers();
      if !ok {
        UnwrittenBox(y, limit, |a|, p, NODE, "");
        return;
      }
      CloseBox(outer, FrontSize(y, NODE, ""), a, b, NODE, "", EncodeList(y, p.kids));
      BoxEncoded(y, NODE, "", p.kids);
    }

    method ConsumeElements() returns (ok: bool)
      requires Valid()
      modifies this
      ensures Consumed(ok, Elements(tokens.src, old(curTok), old(loc)), old(Content()), old(curNodeOfs))
      decreases Left(), 2
    {
      ghost var p, before, at := Elements(tokens.src, curTok, loc), Content(), curNodeOfs;
      ghost var done: seq<Tree> := [];
      AddedNothing(before, at);
      assert p == Join(done, p) by {
        assert p.Parsed? ==> [] + p.kids == p.kids;
      }
      while true
        invariant Valid() && curNodeOfs == at && Added(before, Content(), at, EncodeList(y, done))
        invariant p == Join(done, Elements(tokens.src, curTok, loc)) && Left() <= old(Left())
        decreases Left()
      {
        ghost var mid, e, rest := Content(), Element(tokens.src, curTok, loc), Elements(tokens.src, curTok, loc);
        ok := ConsumeElement();
        if !ok {
          if e.Parsed? && e.tok == Comma {
            UnwrittenStart(y, limit, |mid|, e.kids, ElementsAt(tokens.src, e.loc));
          }
          UnwrittenRest(y, limit, |before|, done, rest);
          return;
        }
        AddedTwice(before, mid, Content(), at, EncodeList(y, done), EncodeList(y, e.kids));
        EncodeListAppend(y, done, e.kids);
        if !curTok.Comma? {
          return true;
        }
        ok := ReadToken();
        if !ok {
          return;
        }
        JoinTwice(done, e.kids, Elements(tokens.src, curTok, loc));
        done := done + e.kids;
      }
    }

    method ConsumeSlots() returns (ok: bool)
      requires Valid()
      modifies this
      ensures Consumed(ok, Slots(tokens.src, old(curTok), old(loc)), old(Content()), old(curNodeOfs))
      decreases Left(), 3
    {
      AddedNothing(Content(), curNodeOfs);
      if curTok.RBracket? {
        return true;
      }
      ok := ConsumeElements();
    }

    method ConsumeArray() returns (ok: bool)
      requires Valid() && curTok.LBracket?
      modifies this
      ensures Consumed(ok, Element(tokens.src, old(curTok), old(loc)), old(Content()), old(curNodeOfs))
      decreases Left(), 0
    {
      ok := Reserve(y.header, |buffer| + y.header);
      if !ok {
        return;
      }
      ok := WriteArray();
      if !ok || !curTok.RBracket? {
        return false;
      }
      ok := ReadToken();
    }

    /** Writes an array up to the token that ends it. */
    method WriteArray() returns (ok: bool)
      requires Valid() && used + FrontSize(y, ARRAY, "") <= |buffer|
      modifies this
      ensures Consumed(ok, Boxed(ARRAY, "", SlotsAt(tokens.src, old(loc))), old(Content()), old(curNodeOfs))
      decreases 2 * (tokens.src.length - loc), 4
    {
      ghost var a := Content();
      var outer := OpenBox(ARRAY, "");
      ghost var b := Content();
      ok := ReadToken();
      if !ok {
        return;
      }
      ghost var p := Slots(tokens.src, curTok, loc);
      ok := ConsumeSlots();
      if !ok {
        UnwrittenBox(y, limit, |a|, p, ARRAY, "");
        return;
      }
      CloseBox(outer, FrontSize(y, ARRAY, ""), a, b, ARRAY, "", EncodeList(y, p.kids));
      BoxEncoded(y, ARRAY, "", p.kids);
    }

    /** Consumes one element and requires the end of the text behind it. */
    method ReadInternal() returns (ok: bool)
      requires Valid() && loc == 0
      modifies this
      ensures Valid()
      ensures (ok ==>
          ParseSource(tokens.src).Some?
            && Added(old(Content()), Content(), old(curNodeOfs), EncodeList(y, ParseSource(tokens.src).value)))
      ensures !ok ==>
        ParseSource(tokens.src).None? || Short(limit, old(used) + |EncodeList(y, ParseSource(tokens.src).value)|)
    {
      ok := ReadToken();
      if !ok || !Starts(curTok) {
        return false;
      }
      ok := ConsumeElement();
      ok := ok && curTok.Eoi?;
    }
  }

  /** Encodes a text, with an arena that provides up to `limit` bytes: the buffer and the bytes used of it. */
  method Read(y: Layout, json: string, limit: nat) returns (r: Option<(seq<Cell>, nat)>)
    ensures r.Some? ==>
      && var (buffer, used) := r.value;
         && used <= |buffer| <= limit && ParseText(json).Some?
         && buffer[..used] == Encode(y, Box(ROOT, "", ParseText(json).value)) && buffer[0] == Head(ROOT, used)
    ensures r.None? ==> ParseText(json).None? || Short(limit, |Encode(y, Box(ROOT, "", ParseText(json).value))|)
  {
    ghost var parsed := ParseText(json);
    if y.header > limit {
      RootShort(y, limit, parsed);
      return None;
    }
    var e := new Encoder(y, json, limit);
    var ok := e.ReadInternal();
    if !ok {
      RootShort(y, limit, parsed);
      return None;
    }
    RootComplete(y, parsed.value, e.Content());
    return Some((e.buffer, e.used));
  }

  /** What the root takes is what its header and its content take. */
  lemma RootShort(y: Layout, limit: nat, parsed: Option<seq<Tree>>)
    requires y.header > limit || parsed.None? || Short(limit, y.header + |EncodeList(y, parsed.value)|)
    ensures parsed.None? || Short(limit, |Encode(y, Box(ROOT, "", parsed.value))|)
  {
    if parsed.Some? {
      BoxEncoded(y, ROOT, "", parsed.value);
    }
  }

  lemma RootComplete(y: Layout, kids: seq<Tree>, after: seq<Cell>)
    requires Added(Header(y.header, ROOT, y.header), after, 0, EncodeList(y, kids))
    ensures after == Encode(y, Box(ROOT, "", kids))
  {
    var content := EncodeList(y, kids);
    BoxEncoded(y, ROOT, "", kids);
    RootFront(y, |content|);
    assert after == Front(y, ROOT, "", y.header + |content|) + content;
  }

  lemma RootFront(y: Layout, k: nat)
    ensures Front(y, ROOT, "", y.header + k) == Bumped(Header(y.header, ROOT, y.header), 0, k)
  {
    assert Header(y.header, ROOT, y.header + k) == Bumped(Header(y.header, ROOT, y.header), 0, k);
    assert Front(y, ROOT, "", y.header + k) == Header(y.header, ROOT, y.header + k) + [];
  }
}
