/** What the encoder makes of a text: its trees, read off the tokens. The encoder is lenient: commas between
    members may be missing or repeated, and a member or an array slot may be left without a value. */
module JsonParse {
  import opened JsonText
  import opened JsonTree

  /** Trees read so far, the current token, and the position behind it. */
  datatype Parsed = Failed | Parsed(kids: seq<Tree>, tok: Token, loc: nat)

  /** A text as its tokens: the token from a position on, and the value of a string token. */
  datatype SourceData = SourceData(next: nat -> Lexed, value: Token -> Option<string>, length: nat) {
    /** Reading advances within the text, unless it ends. */
    ghost predicate Good() {
      forall i: nat {:trigger next(i)} ::
        i <= length && next(i).Tok? ==> i <= next(i).loc <= length && (next(i).tok == Eoi || i < next(i).loc)
    }
  }

  type Source = src: SourceData | src.Good() witness SourceData((i: nat) => Fail, (tok: Token) => None, 0)

  function Value(s: string, tok: Token): Option<string> {
    if tok.Str? && tok.from <= tok.end <= |s| then Extract(s, tok.from, tok.end) else None
  }

  function SourceOf(s: string): Source {
    SourceData((i: nat) => if i <= |s| then Lex(s, i) else Fail, (tok: Token) => Value(s, tok), |s|)
  }

  /** The source has the tokens of s. */
  ghost predicate ReadsText(src: Source, s: string) {
    && src.length == |s|
    && (forall i: nat {:trigger Lex(s, i)} :: i <= |s| ==> src.next(i) == Lex(s, i))
    && (forall tok: Token {:trigger Value(s, tok)} :: src.value(tok) == Value(s, tok))
  }

  /** A text together with its tokens. */
  datatype TokenizedData = TokenizedData(text: string, src: Source)

  type Tokenized = x: TokenizedData | ReadsText(x.src, x.text) witness TokenizedData("", SourceOf(""))

  function Tokenize(s: string): (x: Tokenized)
    ensures x.text == s && x.src == SourceOf(s)
  {
    TokenizedData(s, SourceOf(s))
  }

  /** Reading on shrinks this, unless the text has ended. */
  function Measure(src: Source, tok: Token, loc: nat): nat {
    (if loc <= src.length then 2 * (src.length - loc) else 0) + if tok.Eoi? then 0 else 1
  }

  /** The trees, and the next token. */
  function Then(src: Source, loc: nat, kids: seq<Tree>): (r: Parsed)
    requires loc <= src.length
    ensures r.Parsed? ==> loc <= r.loc <= src.length && Measure(src, r.tok, r.loc) <= 2 * (src.length - loc)
  {
    var n := src.next(loc);
    if n.Fail? then Failed else Parsed(kids, n.tok, n.loc)
  }

  function Join(kids: seq<Tree>, p: Parsed): Parsed {
    if p.Failed? then Failed else Parsed(kids + p.kids, p.tok, p.loc)
  }

  /** An element starting with the current token; tokens that start none are left alone. */
  function Element(src: Source, tok: Token, loc: nat): (r: Parsed)
    requires loc <= src.length
    ensures r.Parsed? ==> r.loc <= src.length && Measure(src, r.tok, r.loc) <= Measure(src, tok, loc)
    decreases Measure(src, tok, loc), 1
  {
    match tok
    case Eoi => Failed
    case Number(text) => Then(src, loc, [Num(text)])
    case Str(_, _) => if src.value(tok).None? then Failed else Then(src, loc, [Text(src.value(tok).value)])
    case Null => Then(src, loc, [Nil])
    case Bool(b) => Then(src, loc, [Tree.Truth(b)])
    case LBrace =>
      var p := Boxed(NODE, "", MembersAt(src, loc));
      if p.Failed? || p.tok != RBrace then Failed else Then(src, p.loc, p.kids)
    case LBracket =>
      var p := Boxed(ARRAY, "", SlotsAt(src, loc));
      if p.Failed? || p.tok != RBracket then Failed else Then(src, p.loc, p.kids)
    case _ => Parsed([], tok, loc)
  }

  /** The element whose first token is the next one. */
  function ElementAt(src: Source, loc: nat): (r: Parsed)
    requires loc <= src.length
    ensures r.Parsed? ==> r.loc <= src.length && Measure(src, r.tok, r.loc) <= 2 * (src.length - loc)
    decreases 2 * (src.length - loc), 2
  {
    var n := src.next(loc);
    if n.Fail? then Failed else Element(src, n.tok, n.loc)
  }

  function MembersAt(src: Source, loc: nat): (r: Parsed)
    requires loc <= src.length
    ensures r.Parsed? ==> r.loc <= src.length && Measure(src, r.tok, r.loc) <= 2 * (src.length - loc)
    decreases 2 * (src.length - loc), 2
  {
    var n := src.next(loc);
    if n.Fail? then Failed else Members(src, n.tok, n.loc)
  }

  function ElementsAt(src: Source, loc: nat): (r: Parsed)
    requires loc <= src.length
    ensures r.Parsed? ==> r.loc <= src.length && Measure(src, r.tok, r.loc) <= 2 * (src.length - loc)
    decreases 2 * (src.length - loc), 3
  {
    var n := src.next(loc);
    if n.Fail? then Failed else Elements(src, n.tok, n.loc)
  }

  /** The content of an array: nothing, or elements with commas between them. */
  function Slots(src: Source, tok: Token, loc: nat): (r: Parsed)
    requires loc <= src.length
    ensures r.Parsed? ==> r.loc <= src.length && Measure(src, r.tok, r.loc) <= Measure(src, tok, loc)
    decreases Measure(src, tok, loc), 3
  {
    if tok == RBracket then Parsed([], tok, loc) else Elements(src, tok, loc)
  }

  function SlotsAt(src: Source, loc: nat): (r: Parsed)
    requires loc <= src.length
    ensures r.Parsed? ==> r.loc <= src.length && Measure(src, r.tok, r.loc) <= 2 * (src.length - loc)
    decreases 2 * (src.length - loc), 4
  {
    var n := src.next(loc);
    if n.Fail? then Failed else Slots(src, n.tok, n.loc)
  }

  /** Parsed trees become the children of a box. */
  function Boxed(tag: Tag, name: string, p: Parsed): Parsed {
    if p.Failed? then Failed else Parsed([Box(tag, name, p.kids)], p.tok, p.loc)
  }

  /** A member: name, colon, and an element. */
  function OneMember(src: Source, tok: Token, loc: nat): (r: Parsed)
    requires loc <= src.length && tok.Str?
    ensures r.Parsed? ==> r.loc <= src.length && Measure(src, r.tok, r.loc) < Measure(src, tok, loc)
    decreases Measure(src, tok, loc), 0
  {
    var name := src.value(tok);
    if name.None? then Failed
    else
      var colon := src.next(loc);
      if colon.Fail? || colon.tok != Colon then Failed else Boxed(NODE, name.value, ElementAt(src, colon.loc))
  }

  function Members(src: Source, tok: Token, loc: nat): (r: Parsed)
    requires loc <= src.length
    ensures r.Parsed? ==> r.loc <= src.length && Measure(src, r.tok, r.loc) <= Measure(src, tok, loc)
    decreases Measure(src, tok, loc), 1
  {
    if tok.Str? then
      var m := OneMember(src, tok, loc);
      if m.Failed? then Failed else Join(m.kids, Members(src, m.tok, m.loc))
    else if tok == Comma then
      MembersAt(src, loc)
    else Parsed([], tok, loc)
  }

  function Elements(src: Source, tok: Token, loc: nat): (r: Parsed)
    requires loc <= src.length
    ensures r.Parsed? ==> r.loc <= src.length && Measure(src, r.tok, r.loc) <= Measure(src, tok, loc)
    decreases Measure(src, tok, loc), 2
  {
    var e := Element(src, tok, loc);
    if e.Failed? then Failed
    else if e.tok == Comma then Join(e.kids, ElementsAt(src, e.loc))
    else e
  }

  /** A token that starts a text. */
  predicate Starts(tok: Token) {
    tok.Number? || tok.Str? || tok.Null? || tok.Bool? || tok.LBrace? || tok.LBracket?
  }

  /** A whole text: one element and nothing behind it. */
  function ParseSource(src: Source): Option<seq<Tree>> {
    var n, e := src.next(0), ElementAt(src, 0);
    if n.Fail? || !Starts(n.tok) || e.Failed? || e.tok != Eoi then None else Some(e.kids)
  }

  function ParseText(s: string): Option<seq<Tree>> {
    ParseSource(SourceOf(s))
  }

  /** A member without a value is accepted, as a name without a child... */
  lemma MissingValue(src: Source, name: string, a: nat, str: Token, b: nat, c: nat, d: nat)
    requires src.next(0) == Tok(LBrace, a) && src.next(a) == Tok(str, b) && str.Str? && src.value(str) == Some(name)
    requires src.next(b) == Tok(Colon, c) && src.next(c) == Tok(RBrace, d) && src.next(d) == Tok(Eoi, src.length)
    ensures ParseSource(src) == Some([Box(NODE, "", [Box(NODE, name, [])])])
  {
    assert Members(src, RBrace, d) == Parsed([], RBrace, d);
    assert Element(src, RBrace, d) == Parsed([], RBrace, d);
    assert ElementAt(src, c) == Parsed([], RBrace, d);
    assert OneMember(src, str, b) == Parsed([Box(NODE, name, [])], RBrace, d);
    assert Members(src, str, b) == Parsed([Box(NODE, name, [])], RBrace, d);
    assert MembersAt(src, a) == Parsed([Box(NODE, name, [])], RBrace, d);
    assert Element(src, LBrace, a) == Parsed([Box(NODE, "", [Box(NODE, name, [])])], Eoi, src.length);
  }

  /** ...commas in front of an element and behind it are skipped, */
  lemma ExtraCommas(src: Source, text: string, a: nat, b: nat, c: nat, d: nat, e: nat)
    requires src.next(0) == Tok(LBracket, a) && src.next(a) == Tok(Comma, b) && src.next(b) == Tok(Number(text), c)
    requires src.next(c) == Tok(Comma, d) && src.next(d) == Tok(RBracket, e) && src.next(e) == Tok(Eoi, src.length)
    ensures ParseSource(src) == Some([Box(ARRAY, "", [Num(text)])])
  {
    assert Element(src, RBracket, e) == Parsed([], RBracket, e);
    assert Elements(src, RBracket, e) == Parsed([], RBracket, e);
    assert ElementsAt(src, d) == Parsed([], RBracket, e);
    assert Element(src, Number(text), c) == Parsed([Num(text)], Comma, d);
    assert Elements(src, Number(text), c) == Parsed([Num(text)], RBracket, e);
    assert ElementsAt(src, b) == Parsed([Num(text)], RBracket, e);
    assert Element(src, Comma, b) == Parsed([], Comma, b);
    assert Elements(src, Comma, b) == Parsed([Num(text)], RBracket, e);
    assert SlotsAt(src, a) == Parsed([Num(text)], RBracket, e);
    assert Element(src, LBracket, a) == Parsed([Box(ARRAY, "", [Num(text)])], Eoi, src.length);
  }

  /** ...but two elements without a comma between them are an error. */
  lemma MissingComma(src: Source, x: string, y: string, a: nat, b: nat, c: nat)
    requires src.next(0) == Tok(LBracket, a) && src.next(a) == Tok(Number(x), b) && src.next(b) == Tok(Number(y), c)
    ensures ParseSource(src) == None
  {
    assert Element(src, Number(x), b) == Parsed([Num(x)], Number(y), c);
    assert Elements(src, Number(x), b) == Parsed([Num(x)], Number(y), c);
    assert SlotsAt(src, a) == Parsed([Num(x)], Number(y), c);
    assert Element(src, LBracket, a) == Failed;
  }

  lemma StartsOneTree(src: Source, tok: Token, loc: nat)
    requires loc <= src.length && Starts(tok)
    ensures Element(src, tok, loc).Parsed? ==> |Element(src, tok, loc).kids| == 1
  {
  }

  /** A text that is accepted is one tree. */
  lemma OneTree(s: string)
    ensures ParseText(s).Some? ==> |ParseText(s).value| == 1
  {
    var src := SourceOf(s);
    var n := src.next(0);
    if n.Tok? && Starts(n.tok) {
      StartsOneTree(src, n.tok, n.loc);
    }
  }
}
