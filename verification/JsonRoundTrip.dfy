/** JSON values, their canonical text, and what becomes of them: encoding the text and traversing the result
    replays the value. */
module JsonRoundTrip {
  import opened JsonText
  import opened JsonTree
  import opened JsonParse
  import JsonEncoder

  datatype Json =
    | JNumber(number: Numeral)
    | JString(text: string)
    | JNull
    | JBool(truth: bool)
    | JArray(elems: seq<Json>)
    | JObject(members: seq<Member>)

  datatype Member = Member(name: string, value: Json)

  predicate Wf(v: Json) {
    match v
    case JNumber(n) => n.Wf()
    case JArray(es) => forall i :: 0 <= i < |es| ==> Wf(es[i])
    case JObject(ms) => forall i :: 0 <= i < |ms| ==> Wf(ms[i].value)
    case _ => true
  }

  // ---------------------------------------------------------------------- canonical text

  function Concat(parts: seq<string>): string {
    if parts == [] then "" else parts[0] + Concat(parts[1..])
  }

  function Quoted(s: string): string {
    [QUOTE] + Escape(s) + [QUOTE]
  }

  function Print(v: Json): string
    decreases v
  {
    match v
    case JNumber(n) => n.Text()
    case JString(s) => Quoted(s)
    case JNull => "null"
    case JBool(b) => if b then "true" else "false"
    case JArray(es) => Bracketed('[', if es == [] then "" else PrintElems(v, 0), ']')
    case JObject(ms) => Bracketed('{', if ms == [] then "" else PrintMembers(v, 0), '}')
  }

  function Bracketed(open: char, text: string, close: char): string {
    Concat([[open], text, [close]])
  }

  function Separated(a: string, sep: char, b: string): string {
    Concat([a, [sep], b])
  }

  /** The elements from i on. */
  function PrintElems(v: Json, i: nat): string
    requires v.JArray? && i < |v.elems|
    decreases v, |v.elems| - i
  {
    if i + 1 == |v.elems| then Print(v.elems[i]) else Separated(Print(v.elems[i]), ',', PrintElems(v, i + 1))
  }

  /** The members from i on. */
  function PrintMembers(v: Json, i: nat): string
    requires v.JObject? && i < |v.members|
    decreases v, |v.members| - i, 1
  {
    if i + 1 == |v.members| then PrintMember(v, i) else Separated(PrintMember(v, i), ',', PrintMembers(v, i + 1))
  }

  function PrintMember(v: Json, i: nat): string
    requires v.JObject? && i < |v.members|
    decreases v, |v.members| - i, 0
  {
    Separated(Quoted(v.members[i].name), ':', Print(v.members[i].value))
  }

  // ---------------------------------------------------------------------- the tree of a value

  function TreeOf(v: Json): Tree
    decreases v
  {
    match v
    case JNumber(n) => Num(n.Text())
    case JString(s) => Text(s)
    case JNull => Nil
    case JBool(b) => Tree.Truth(b)
    case JArray(es) => Box(ARRAY, "", ElemTrees(v, 0))
    case JObject(ms) => Box(NODE, "", MemberTrees(v, 0))
  }

  function ElemTrees(v: Json, i: nat): seq<Tree>
    requires v.JArray? && i <= |v.elems|
    decreases v, |v.elems| - i
  {
    if i == |v.elems| then [] else [TreeOf(v.elems[i])] + ElemTrees(v, i + 1)
  }

  function MemberTrees(v: Json, i: nat): seq<Tree>
    requires v.JObject? && i <= |v.members|
    decreases v, |v.members| - i
  {
    if i == |v.members| then []
      else [Box(NODE, v.members[i].name, [TreeOf(v.members[i].value)])] + MemberTrees(v, i + 1)
  }

  // ---------------------------------------------------------------------- what can be read

  /** No exponent has a leading zero. */
  predicate Readable(v: Json)
    decreases v
  {
    match v
    case JNumber(n) => ShortExponent(n)
    case JArray(es) => ElemsReadable(v, 0)
    case JObject(ms) => MembersReadable(v, 0)
    case _ => true
  }

  predicate ElemsReadable(v: Json, i: nat)
    requires v.JArray? && i <= |v.elems|
    decreases v, |v.elems| - i
  {
    i == |v.elems| || (Readable(v.elems[i]) && ElemsReadable(v, i + 1))
  }

  predicate MembersReadable(v: Json, i: nat)
    requires v.JObject? && i <= |v.members|
    decreases v, |v.members| - i
  {
    i == |v.members| || (Readable(v.members[i].value) && MembersReadable(v, i + 1))
  }

  // ---------------------------------------------------------------------- all texts of a value

  /** White space of section 2 of RFC 8259. */
  predicate IsBlank(c: char) {
    c == ' ' || c == '\t' || c == '\n' || c == '\r'
  }

  ghost predicate Blank(s: string, i: nat, j: nat) {
    i <= j <= |s| && forall k :: i <= k < j ==> IsBlank(s[k])
  }

  /** s[at..end] is a text of v by the grammar of RFC 8259, with any white space around its tokens and any
      spelling of its strings. */
  ghost predicate IsText(s: string, at: nat, end: nat, v: Json)
    decreases v, 2, 0
  {
    exists p: nat, q: nat {:trigger IsToken(s, p, q, v)} :: IsToken(s, p, q, v) && Blank(s, at, p) && Blank(s, q, end)
  }

  /** The same without white space around it. */
  ghost predicate IsToken(s: string, p: nat, q: nat, v: Json)
    decreases v, 1, 0
  {
    && p < q <= |s|
    && match v
       case JNumber(n) => s[p..q] == n.Text()
       case JString(t) => p + 1 < q && s[p] == '\"' && s[q - 1] == '\"' && SpellsString(s, p + 1, q - 1, t)
       case JNull => s[p..q] == "null"
       case JBool(b) => s[p..q] == if b then "true" else "false"
       case JArray(es) =>
          && p + 1 < q && s[p] == '[' && s[q - 1] == ']'
          && (if es == [] then Blank(s, p + 1, q - 1) else AreElems(s, p + 1, q - 1, v, 0))
       case JObject(ms) =>
          && p + 1 < q && s[p] == '{' && s[q - 1] == '}'
          && (if ms == [] then Blank(s, p + 1, q - 1) else AreMembers(s, p + 1, q - 1, v, 0))
  }

  /** The elements from i on, with commas between them. */
  ghost predicate AreElems(s: string, at: nat, end: nat, v: Json, i: nat)
    requires v.JArray? && i < |v.elems|
    decreases v, 0, |v.elems| - i
  {
    if i + 1 == |v.elems| then IsElem(s, at, end, v, i)
    else exists comma: nat {:trigger IsElem(s, at, comma, v, i)} ::
      comma < |s| && s[comma] == ',' && IsElem(s, at, comma, v, i) && AreElems(s, comma + 1, end, v, i + 1)
  }

  ghost predicate IsElem(s: string, at: nat, end: nat, v: Json, i: nat)
    requires v.JArray? && i < |v.elems|
    decreases v, 0, 0
  {
    IsText(s, at, end, v.elems[i])
  }

  /** The members from i on, with commas between them. */
  ghost predicate AreMembers(s: string, at: nat, end: nat, v: Json, i: nat)
    requires v.JObject? && i < |v.members|
    decreases v, 0, |v.members| - i
  {
    if i + 1 == |v.members| then IsMember(s, at, end, v, i)
    else exists comma: nat {:trigger IsMember(s, at, comma, v, i)} ::
      comma < |s| && s[comma] == ',' && IsMember(s, at, comma, v, i) && AreMembers(s, comma + 1, end, v, i + 1)
  }

  /** A name, a colon and a value. */
  ghost predicate IsMember(s: string, at: nat, end: nat, v: Json, i: nat)
    requires v.JObject? && i < |v.members|
    decreases v, 0, 0
  {
    exists colon: nat {:trigger IsText(s, colon + 1, end, v.members[i].value)} ::
      && IsName(s, at, colon, v.members[i].name) && colon < |s| && s[colon] == ':'
      && IsText(s, colon + 1, end, v.members[i].value)
  }

  ghost predicate IsName(s: string, at: nat, end: nat, name: string) {
    exists p: nat, q: nat {:trigger SpellsString(s, p + 1, q - 1, name)} ::
      && Blank(s, at, p) && Blank(s, q, end) && p + 1 < q && s[p] == '\"' && s[q - 1] == '\"'
      && SpellsString(s, p + 1, q - 1, name)
  }

  // ---------------------------------------------------------------------- tokens of a text

  /** What may stand behind a value: the end of the text, a comma, a closing bracket or brace, or white space. */
  predicate Follow(s: string, i: nat) {
    i == |s| || (i < |s| && (s[i] == ',' || s[i] == ']' || s[i] == '}' || IsBlank(s[i])))
  }

  lemma LexPunctuation(s: string, i: nat)
    requires i < |s| && IsPunctuation(s[i])
    ensures Lex(s, i) == Tok(Punctuation(s[i]), i + 1)
  {
  }

  lemma LexStringAt(s: string, i: nat, e: nat)
    requires i < |s| && s[i] == QUOTE && StringEnd(s, i + 1) == Some(e)
    ensures Lex(s, i) == Tok(Str(i + 1, e), e + 1)
  {
  }

  lemma LexTrue(s: string, i: nat)
    requires TextAt(s, i, "true") && Follow(s, i + 4)
    ensures Lex(s, i) == Tok(Bool(true), i + 4)
  {
    var w := s[i..i + 4];
    assert s[i] == w[0] && s[i + 1] == w[1] && s[i + 2] == w[2] && s[i + 3] == w[3];
  }

  lemma LexFalse(s: string, i: nat)
    requires TextAt(s, i, "false") && Follow(s, i + 5)
    ensures Lex(s, i) == Tok(Bool(false), i + 5)
  {
    var w := s[i..i + 5];
    assert s[i] == w[0] && s[i + 1] == w[1] && s[i + 2] == w[2] && s[i + 3] == w[3] && s[i + 4] == w[4];
  }

  lemma LexNull(s: string, i: nat)
    requires TextAt(s, i, "null") && Follow(s, i + 4)
    ensures Lex(s, i) == Tok(Null, i + 4)
  {
    var w := s[i..i + 4];
    assert s[i] == w[0] && s[i + 1] == w[1] && s[i + 2] == w[2] && s[i + 3] == w[3];
  }

  lemma LexNumberAt(s: string, i: nat)
    requires i < |s| && (IsDigit(s[i]) || s[i] == '-')
    ensures var e := NumberEnd(s, i); Lex(s, i) == if e.None? then Fail else Tok(Number(s[i..e.value]), e.value)
  {
  }

  lemma LexNumeral(s: string, i: nat, n: Numeral)
    requires n.Wf() && TextAt(s, i, n.Text()) && Follow(s, i + |n.Text()|)
    ensures i <= |s| && Lex(s, i) == if ShortExponent(n) then Tok(Number(n.Text()), i + |n.Text()|) else Fail
  {
    NumberReadIff(s, i, n);
    assert s[i..i + |n.Text()|] == n.Text();
    LexNumberAt(s, i);
  }

  lemma {:induction false} LexBlank(s: string, i: nat, j: nat)
    requires Blank(s, i, j)
    ensures Lex(s, i) == Lex(s, j)
    decreases j - i
  {
    if i < j {
      assert IsBlank(s[i]);
      LexBlank(s, i + 1, j);
    }
  }

  /** White space is skipped. */
  lemma NextToken(x: Tokenized, at: nat, p: nat)
    requires Blank(x.text, at, p)
    ensures x.src.next(at) == Lex(x.text, p)
  {
    LexBlank(x.text, at, p);
    assert x.src.next(at) == Lex(x.text, at);
  }

  lemma NextPunctuation(x: Tokenized, at: nat, p: nat)
    requires Blank(x.text, at, p) && p < |x.text| && IsPunctuation(x.text[p])
    ensures x.src.next(at) == Tok(Punctuation(x.text[p]), p + 1)
  {
    NextToken(x, at, p);
    LexPunctuation(x.text, p);
  }

  lemma NextString(x: Tokenized, at: nat, p: nat, q: nat, v: string)
    requires Blank(x.text, at, p) && p + 1 < q <= |x.text| && x.text[p] == QUOTE && x.text[q - 1] == QUOTE
    requires SpellsString(x.text, p + 1, q - 1, v) 
    ensures x.src.next(at) == Tok(Str(p + 1, q - 1), q) && x.src.value(Str(p + 1, q - 1)) == Some(v)
  {
    NextToken(x, at, p);
    SpelledStringRead(x.text, p + 1, q - 1, v);
    LexStringAt(x.text, p, q - 1);
    assert Value(x.text, Str(p + 1, q - 1)) == Some(v);
  }

  lemma NextWord(x: Tokenized, at: nat, p: nat)
    requires Blank(x.text, at, p)
    ensures TextAt(x.text, p, "true") && Follow(x.text, p + 4) ==> x.src.next(at) == Tok(Bool(true), p + 4)
    ensures TextAt(x.text, p, "false") && Follow(x.text, p + 5) ==> x.src.next(at) == Tok(Bool(false), p + 5)
    ensures TextAt(x.text, p, "null") && Follow(x.text, p + 4) ==> x.src.next(at) == Tok(Null, p + 4)
  {
    NextToken(x, at, p);
    if TextAt(x.text, p, "true") && Follow(x.text, p + 4) {
      LexTrue(x.text, p);
    }
    if TextAt(x.text, p, "false") && Follow(x.text, p + 5) {
      LexFalse(x.text, p);
    }
    if TextAt(x.text, p, "null") && Follow(x.text, p + 4) {
      LexNull(x.text, p);
    }
  }

  lemma NextNumeral(x: Tokenized, at: nat, p: nat, n: Numeral)
    requires Blank(x.text, at, p)
    requires n.Wf() && TextAt(x.text, p, n.Text()) && Follow(x.text, p + |n.Text()|)
    ensures x.src.next(at) == if ShortExponent(n) then Tok(Number(n.Text()), p + |n.Text()|) else Fail
  {
    NextToken(x, at, p);
    LexNumeral(x.text, p, n);
  }

  // ---------------------------------------------------------------------- the tokens of a value

  /** The tokens from `at` to `end` are those of a value; a number whose exponent has a leading zero is none. */
  ghost predicate Spells(src: Source, at: nat, v: Json, end: nat)
    decreases v, 1
  {
    && at < end <= src.length
    && var first := src.next(at);
       match v
       case JNumber(n) => first == if ShortExponent(n) then Tok(Number(n.Text()), end) else Fail
       case JString(s) => first.Tok? && first.tok.Str? && first.loc == end && src.value(first.tok) == Some(s)
       case JNull => first == Tok(Null, end)
       case JBool(b) => first == Tok(Bool(b), end)
       case JArray(es) =>
          && first.Tok? && first.tok == LBracket
          && (if es == [] then src.next(first.loc) == Tok(RBracket, end) else SpellsElems(src, first.loc, v, 0, end))
       case JObject(ms) =>
          && first.Tok? && first.tok == LBrace
          && (if ms == [] then src.next(first.loc) == Tok(RBrace, end) else SpellsMembers(src, first.loc, v, 0, end))
  }

  /** The elements from i on and the closing bracket. */
  ghost predicate SpellsElems(src: Source, at: nat, v: Json, i: nat, end: nat)
    requires v.JArray? && i < |v.elems|
    decreases v, 0, |v.elems| - i
  {
    exists mid: nat {:trigger Spells(src, at, v.elems[i], mid)} ::
      && Spells(src, at, v.elems[i], mid)
      && if i + 1 == |v.elems| then src.next(mid) == Tok(RBracket, end)
         else src.next(mid).Tok? && src.next(mid).tok == Comma && SpellsElems(src, src.next(mid).loc, v, i + 1, end)
  }

  /** The members from i on and the closing brace. */
  ghost predicate SpellsMembers(src: Source, at: nat, v: Json, i: nat, end: nat)
    requires v.JObject? && i < |v.members|
    decreases v, 0, |v.members| - i
  {
    exists mid: nat {:trigger SpellsMember(src, at, v, i, mid)} ::
      && SpellsMember(src, at, v, i, mid)
      && if i + 1 == |v.members| then src.next(mid) == Tok(RBrace, end)
         else src.next(mid).Tok? && src.next(mid).tok == Comma && SpellsMembers(src, src.next(mid).loc, v, i + 1, end)
  }

  ghost predicate SpellsMember(src: Source, at: nat, v: Json, i: nat, mid: nat)
    requires v.JObject? && i < |v.members|
    decreases v, 0, 0
  {
    exists colon: nat {:trigger SpellsName(src, at, v.members[i].name, colon)} ::
      SpellsName(src, at, v.members[i].name, colon) && Spells(src, colon, v.members[i].value, mid)
  }

  /** A name and a colon. */
  ghost predicate SpellsName(src: Source, at: nat, name: string, end: nat) {
    && at <= src.length && end <= src.length
    && var n := src.next(at);
       n.Tok? && n.tok.Str? && src.value(n.tok) == Some(name) && src.next(n.loc) == Tok(Colon, end)
  }

  // ---------------------------------------------------------------------- a text has these tokens

  lemma {:induction false} LeafSpells(x: Tokenized, at: nat, p: nat, q: nat, v: Json)
    requires Wf(v) && IsToken(x.text, p, q, v) && Blank(x.text, at, p) && Follow(x.text, q)
    requires !v.JArray? && !v.JObject?
    ensures Spells(x.src, at, v, q)
  {
    match v
    case JNumber(n) => NumeralSpells(x, at, p, q, v);
    case JString(s) => NextString(x, at, p, q, s);
    case _ => NextWord(x, at, p);
  }

  lemma NumeralSpells(x: Tokenized, at: nat, p: nat, q: nat, v: Json)
    requires v.JNumber? && Wf(v) && IsToken(x.text, p, q, v) && Blank(x.text, at, p) && Follow(x.text, q)
    ensures Spells(x.src, at, v, q)
  {
    assert |x.text[p..q]| == q - p;
    NextNumeral(x, at, p, v.number);
  }

  /** Behind a value that is followed by something that may follow it. */
  lemma BlankFollow(s: string, q: nat, end: nat)
    requires Blank(s, q, end) && Follow(s, end)
    ensures Follow(s, q)
  {
  }

  lemma {:induction false} TextSpells(x: Tokenized, at: nat, end: nat, v: Json) returns (q: nat)
    requires Wf(v) && IsText(x.text, at, end, v) && Follow(x.text, end)
    ensures Blank(x.text, q, end) && Spells(x.src, at, v, q)
    decreases v, 3, 0
  {
    var p;
    p, q :| IsToken(x.text, p, q, v) && Blank(x.text, at, p) && Blank(x.text, q, end);
    BlankFollow(x.text, q, end);
    TokenSpells(x, at, p, q, v);
  }

  lemma {:induction false} TokenSpells(x: Tokenized, at: nat, p: nat, q: nat, v: Json)
    requires Wf(v) && IsToken(x.text, p, q, v) && Blank(x.text, at, p) && Follow(x.text, q)
    ensures Spells(x.src, at, v, q)
    decreases v, 2, 0
  {
    if v.JArray? {
      ArraySpells(x, at, p, q, v);
    } else if v.JObject? {
      ObjectSpells(x, at, p, q, v);
    } else {
      LeafSpells(x, at, p, q, v);
    }
  }

  lemma {:induction false} ArraySpells(x: Tokenized, at: nat, p: nat, q: nat, v: Json)
    requires v.JArray? && Wf(v) && IsToken(x.text, p, q, v) && Blank(x.text, at, p)
    ensures Spells(x.src, at, v, q)
    decreases v, 1, 0
  {
    NextPunctuation(x, at, p);
    if v.elems == [] {
      NextPunctuation(x, p + 1, q - 1);
    } else {
      ElemsSpell(x, p + 1, q - 1, v, 0);
    }
  }

  lemma {:induction false} ElemsSpell(x: Tokenized, at: nat, end: nat, v: Json, i: nat)
    requires v.JArray? && Wf(v) && i < |v.elems| && AreElems(x.text, at, end, v, i)
    requires end < |x.text| && x.text[end] == ']'
    ensures SpellsElems(x.src, at, v, i, end + 1)
    decreases v, 0, |v.elems| - i
  {
    if i + 1 == |v.elems| {
      var q := TextSpells(x, at, end, v.elems[i]);
      NextPunctuation(x, q, end);
    } else {
      var comma: nat :|
        comma < |x.text| && x.text[comma] == ',' && IsElem(x.text, at, comma, v, i)
          && AreElems(x.text, comma + 1, end, v, i + 1);
      var q := TextSpells(x, at, comma, v.elems[i]);
      NextPunctuation(x, q, comma);
      ElemsSpell(x, comma + 1, end, v, i + 1);
    }
  }

  lemma {:induction false} ObjectSpells(x: Tokenized, at: nat, p: nat, q: nat, v: Json)
    requires v.JObject? && Wf(v) && IsToken(x.text, p, q, v) && Blank(x.text, at, p)
    ensures Spells(x.src, at, v, q)
    decreases v, 1, 0
  {
    NextPunctuation(x, at, p);
    if v.members == [] {
      NextPunctuation(x, p + 1, q - 1);
    } else {
      MembersSpell(x, p + 1, q - 1, v, 0);
    }
  }

  lemma {:induction false} MembersSpell(x: Tokenized, at: nat, end: nat, v: Json, i: nat)
    requires v.JObject? && Wf(v) && i < |v.members| && AreMembers(x.text, at, end, v, i)
    requires end < |x.text| && x.text[end] == '}'
    ensures SpellsMembers(x.src, at, v, i, end + 1)
    decreases v, 0, |v.members| - i, 2
  {
    if i + 1 == |v.members| {
      MembersEnd(x, at, end, v, i);
    } else {
      var comma, q := MembersBegin(x, at, end, v, i);
      MembersSpell(x, comma + 1, end, v, i + 1);
      MembersSpelledOn(x.src, at, v, i, q, comma + 1, end + 1);
    }
  }

  lemma {:induction false} MembersEnd(x: Tokenized, at: nat, end: nat, v: Json, i: nat)
    requires v.JObject? && Wf(v) && i + 1 == |v.members| && IsMember(x.text, at, end, v, i)
    requires end < |x.text| && x.text[end] == '}'
    ensures SpellsMembers(x.src, at, v, i, end + 1)
    decreases v, 0, |v.members| - i, 1
  {
    var q := MemberThen(x, at, end, v, i);
    LastMemberSpelled(x.src, at, v, i, q, end + 1);
  }

  lemma {:induction false} MembersBegin(x: Tokenized, at: nat, end: nat, v: Json, i: nat) returns (comma: nat, q: nat)
    requires v.JObject? && Wf(v) && i + 1 < |v.members| && AreMembers(x.text, at, end, v, i)
    ensures comma < |x.text| && AreMembers(x.text, comma + 1, end, v, i + 1)
    ensures SpellsMember(x.src, at, v, i, q) && x.src.next(q) == Tok(Comma, comma + 1)
    decreases v, 0, |v.members| - i, 1
  {
    comma := MembersSplit(x.text, at, end, v, i);
    q := MemberThen(x, at, comma, v, i);
  }

  /** A member and what is behind it. */
  lemma {:induction false} MemberThen(x: Tokenized, at: nat, end: nat, v: Json, i: nat) returns (q: nat)
    requires v.JObject? && Wf(v) && i < |v.members| && IsMember(x.text, at, end, v, i)
    requires end < |x.text| && (x.text[end] == ',' || x.text[end] == '}')
    ensures SpellsMember(x.src, at, v, i, q) && x.src.next(q) == Tok(Punctuation(x.text[end]), end + 1)
    decreases v, 0, |v.members| - i, 0
  {
    q := MemberSpells(x, at, end, v, i);
    NextPunctuation(x, q, end);
  }

  lemma MembersSplit(s: string, at: nat, end: nat, v: Json, i: nat) returns (comma: nat)
    requires v.JObject? && i + 1 < |v.members| && AreMembers(s, at, end, v, i)
    ensures comma < |s| && s[comma] == ',' && IsMember(s, at, comma, v, i) && AreMembers(s, comma + 1, end, v, i + 1)
  {
    comma :| comma < |s| && s[comma] == ',' && IsMember(s, at, comma, v, i) && AreMembers(s, comma + 1, end, v, i + 1);
  }

  lemma LastMemberSpelled(src: Source, at: nat, v: Json, i: nat, mid: nat, end: nat)
    requires v.JObject? && i + 1 == |v.members| && SpellsMember(src, at, v, i, mid)
    requires src.next(mid) == Tok(RBrace, end)
    ensures SpellsMembers(src, at, v, i, end)
  {
  }

  lemma MembersSpelledOn(src: Source, at: nat, v: Json, i: nat, mid: nat, next: nat, end: nat)
    requires v.JObject? && i + 1 < |v.members| && SpellsMember(src, at, v, i, mid)
    requires src.next(mid) == Tok(Comma, next) && SpellsMembers(src, next, v, i + 1, end)
    ensures SpellsMembers(src, at, v, i, end)
  {
  }

  lemma NameSpells(x: Tokenized, at: nat, colon: nat, name: string)
    requires IsName(x.text, at, colon, name) && colon < |x.text| && x.text[colon] == ':'
    ensures SpellsName(x.src, at, name, colon + 1)
  {
    var p: nat, q: nat :|
      && Blank(x.text, at, p) && Blank(x.text, q, colon) && p + 1 < q && x.text[p] == QUOTE && x.text[q - 1] == QUOTE
      && SpellsString(x.text, p + 1, q - 1, name);
    NextString(x, at, p, q, name);
    NextPunctuation(x, q, colon);
  }

  lemma {:induction false} MemberSpells(x: Tokenized, at: nat, end: nat, v: Json, i: nat) returns (q: nat)
    requires v.JObject? && Wf(v) && i < |v.members| && IsMember(x.text, at, end, v, i) && Follow(x.text, end)
    ensures SpellsMember(x.src, at, v, i, q) && Blank(x.text, q, end)
    decreases v, 0, 0
  {
    var colon: nat :|
      && IsName(x.text, at, colon, v.members[i].name) && colon < |x.text| && x.text[colon] == ':'
      && IsText(x.text, colon + 1, end, v.members[i].value);
    NameSpells(x, at, colon, v.members[i].name);
    q := TextSpells(x, colon + 1, end, v.members[i].value);
  }

  // ---------------------------------------------------------------------- parsing token by token

  /** One element, and the comma or bracket behind it. */
  lemma ElementsStep(src: Source, at: nat, mid: nat, t: Tree)
    requires at <= mid <= src.length && ElementAt(src, at) == Then(src, mid, [t]) && src.next(mid).Tok?
    ensures ElementsAt(src, at) == if src.next(mid).tok == Comma then Join([t], ElementsAt(src, src.next(mid).loc))
      else Then(src, mid, [t])
  {
  }

  /** One member, and the comma or brace behind it. */
  lemma MembersStep(src: Source, at: nat, name: string, colon: nat, mid: nat, t: Tree)
    requires SpellsName(src, at, name, colon) && colon <= mid <= src.length && src.next(mid).Tok?
    requires ElementAt(src, colon) == Then(src, mid, [t])
    ensures MembersAt(src, at) == Join([Box(NODE, name, [t])], Members(src, src.next(mid).tok, src.next(mid).loc))
  {
    var n := src.next(at);
    assert OneMember(src, n.tok, n.loc) == Then(src, mid, [Box(NODE, name, [t])]);
  }

  lemma MembersFail(src: Source, at: nat, name: string, colon: nat)
    requires SpellsName(src, at, name, colon) && ElementAt(src, colon).Failed?
    ensures MembersAt(src, at).Failed?
  {
    var n := src.next(at);
    assert OneMember(src, n.tok, n.loc).Failed?;
  }

  /** An element that starts with an opening bracket or brace, by what the content is parsed to. */
  lemma BoxElement(src: Source, at: nat)
    requires at <= src.length && src.next(at).Tok?
    ensures src.next(at).tok == LBracket ==>
      ElementAt(src, at) == Closed(src, ARRAY, SlotsAt(src, src.next(at).loc), RBracket)
    ensures src.next(at).tok == LBrace ==>
      ElementAt(src, at) == Closed(src, NODE, MembersAt(src, src.next(at).loc), RBrace)
  {
    var n := src.next(at);
    assert ElementAt(src, at) == Element(src, n.tok, n.loc);
  }

  /** A box of what was parsed, if the closing token comes next. */
  function Closed(src: Source, tag: Tag, p: Parsed, close: Token): Parsed
    requires p.Parsed? ==> p.loc <= src.length
  {
    var box := Boxed(tag, "", p);
    if box.Failed? || box.tok != close then Failed else Then(src, box.loc, box.kids)
  }

  // ---------------------------------------------------------------------- parsing the tokens of a value

  /** The value between `at` and `end` is parsed to its tree, or rejected. */
  ghost predicate ParsedAt(src: Source, at: nat, end: nat, v: Json) {
    && at <= end <= src.length && (src.next(at).Tok? ==> Starts(src.next(at).tok))
    && ElementAt(src, at) == if Readable(v) then Then(src, end, [TreeOf(v)]) else Failed
  }

  lemma LeafParsed(src: Source, at: nat, v: Json, end: nat)
    requires Spells(src, at, v, end) && !v.JArray? && !v.JObject?
    ensures ParsedAt(src, at, end, v)
  {
  }

  lemma {:induction false} SpelledParsed(src: Source, at: nat, v: Json, end: nat)
    requires Spells(src, at, v, end)
    ensures ParsedAt(src, at, end, v)
    decreases v, 2, 0
  {
    if v.JArray? {
      SpelledArray(src, at, v, end);
    } else if v.JObject? {
      SpelledObject(src, at, v, end);
    } else {
      LeafParsed(src, at, v, end);
    }
  }

  lemma {:induction false} SpelledArray(src: Source, at: nat, v: Json, end: nat)
    requires v.JArray? && Spells(src, at, v, end)
    ensures ParsedAt(src, at, end, v)
    decreases v, 1, 0
  {
    BoxElement(src, at);
    if v.elems != [] {
      SpelledElems(src, src.next(at).loc, v, 0, end);
    }
  }

  lemma {:induction false} SpelledElems(src: Source, at: nat, v: Json, i: nat, end: nat)
    requires v.JArray? && i < |v.elems| && at <= src.length && SpellsElems(src, at, v, i, end)
    ensures src.next(at).Tok? ==> Starts(src.next(at).tok)
    ensures ElementsAt(src, at) == if ElemsReadable(v, i) then Parsed(ElemTrees(v, i), RBracket, end) else Failed
    decreases v, 0, |v.elems| - i
  {
    var mid: nat :|
      && Spells(src, at, v.elems[i], mid)
      && if i + 1 == |v.elems| then src.next(mid) == Tok(RBracket, end)
         else src.next(mid).Tok? && src.next(mid).tok == Comma && SpellsElems(src, src.next(mid).loc, v, i + 1, end);
    SpelledParsed(src, at, v.elems[i], mid);
    if i + 1 < |v.elems| {
      SpelledElems(src, src.next(mid).loc, v, i + 1, end);
    }
    ElemsOn(src, at, mid, end, v, i);
  }

  lemma ElemsOn(src: Source, at: nat, mid: nat, end: nat, v: Json, i: nat)
    requires v.JArray? && i < |v.elems| && ParsedAt(src, at, mid, v.elems[i])
    requires if i + 1 == |v.elems| then src.next(mid) == Tok(RBracket, end)
      else
        && src.next(mid).Tok? && src.next(mid).tok == Comma
        && ElementsAt(src, src.next(mid).loc)
             == if ElemsReadable(v, i + 1) then Parsed(ElemTrees(v, i + 1), RBracket, end) else Failed
    ensures ElementsAt(src, at) == if ElemsReadable(v, i) then Parsed(ElemTrees(v, i), RBracket, end) else Failed
  {
    if Readable(v.elems[i]) {
      ElementsStep(src, at, mid, TreeOf(v.elems[i]));
    }
  }

  lemma {:induction false} SpelledObject(src: Source, at: nat, v: Json, end: nat)
    requires v.JObject? && Spells(src, at, v, end)
    ensures ParsedAt(src, at, end, v)
    decreases v, 1, 0
  {
    BoxElement(src, at);
    if v.members != [] {
      SpelledMembers(src, src.next(at).loc, v, 0, end);
    }
  }

  lemma {:induction false} SpelledMembers(src: Source, at: nat, v: Json, i: nat, end: nat)
    requires v.JObject? && i < |v.members| && at <= src.length && SpellsMembers(src, at, v, i, end)
    ensures MembersAt(src, at) == if MembersReadable(v, i) then Parsed(MemberTrees(v, i), RBrace, end) else Failed
    decreases v, 0, |v.members| - i
  {
    var mid: nat :|
      && SpellsMember(src, at, v, i, mid)
      && if i + 1 == |v.members| then src.next(mid) == Tok(RBrace, end)
         else src.next(mid).Tok? && src.next(mid).tok == Comma && SpellsMembers(src, src.next(mid).loc, v, i + 1, end);
    var colon: nat :| SpellsName(src, at, v.members[i].name, colon) && Spells(src, colon, v.members[i].value, mid);
    SpelledParsed(src, colon, v.members[i].value, mid);
    if i + 1 < |v.members| {
      SpelledMembers(src, src.next(mid).loc, v, i + 1, end);
    }
    MembersOn(src, at, colon, mid, end, v, i);
  }

  lemma MembersOn(src: Source, at: nat, colon: nat, mid: nat, end: nat, v: Json, i: nat)
    requires v.JObject? && i < |v.members|
    requires SpellsName(src, at, v.members[i].name, colon) && ParsedAt(src, colon, mid, v.members[i].value)
    requires if i + 1 == |v.members| then src.next(mid) == Tok(RBrace, end)
      else
        && src.next(mid).Tok? && src.next(mid).tok == Comma
        && MembersAt(src, src.next(mid).loc)
             == if MembersReadable(v, i + 1) then Parsed(MemberTrees(v, i + 1), RBrace, end) else Failed
    ensures MembersAt(src, at) == if MembersReadable(v, i) then Parsed(MemberTrees(v, i), RBrace, end) else Failed
  {
    if Readable(v.members[i].value) {
      MembersStep(src, at, v.members[i].name, colon, mid, TreeOf(v.members[i].value));
    } else {
      MembersFail(src, at, v.members[i].name, colon);
    }
  }

  /** A text of a value, whatever its white space and the spelling of its strings, is accepted, as that value, exactly
      if no exponent has a leading zero. */
  lemma TextParsedIff(s: string, v: Json)
    requires Wf(v) && IsText(s, 0, |s|, v)
    ensures ParseText(s) == if Readable(v) then Some([TreeOf(v)]) else None
  {
    var x := Tokenize(s);
    var q := TextSpells(x, 0, |s|, v);
    SpelledParsed(x.src, 0, v, q);
    NextToken(x, q, |s|);
  }

  // ---------------------------------------------------------------------- the canonical text is a text

  lemma QuotedParts(s: string, i: nat, v: string) returns (e: nat)
    requires TextAt(s, i, Quoted(v))
    ensures e == i + 1 + |Escape(v)| && i + |Quoted(v)| == e + 1 <= |s|
    ensures s[i] == QUOTE && s[e] == QUOTE && s[i + 1..e] == Escape(v)
  {
    e := i + 1 + |Escape(v)|;
    TextSplit(s, i, [QUOTE] + Escape(v), [QUOTE]);
    TextSplit(s, i, [QUOTE], Escape(v));
    assert s[i] == [QUOTE][0] && s[e] == [QUOTE][0];
  }

  lemma FirstPart(s: string, at: nat, part: string, parts: seq<string>)
    requires TextAt(s, at, Concat([part] + parts))
    ensures TextAt(s, at, part) && TextAt(s, at + |part|, Concat(parts))
    ensures |Concat([part] + parts)| == |part| + |Concat(parts)|
  {
    assert ([part] + parts)[1..] == parts;
    TextSplit(s, at, part, Concat(parts));
  }

  lemma ThreeParts(s: string, at: nat, a: string, b: string, c: string)
    requires TextAt(s, at, Concat([a, b, c]))
    ensures TextAt(s, at, a) && TextAt(s, at + |a|, b) && TextAt(s, at + |a| + |b|, c)
    ensures |Concat([a, b, c])| == |a| + |b| + |c|
  {
    assert [a, b, c] == [a] + ([b] + ([c] + []));
    FirstPart(s, at, a, [b] + ([c] + []));
    FirstPart(s, at + |a|, b, [c] + []);
    FirstPart(s, at + |a| + |b|, c, []);
  }

  /** The text of an array or object: a bracket, the content, and a bracket. */
  lemma BracketedParts(s: string, at: nat, open: char, text: string, close: char) returns (last: nat)
    requires TextAt(s, at, Bracketed(open, text, close))
    ensures last == at + 1 + |text| < |s| && s[at] == open && s[last] == close && TextAt(s, at + 1, text)
    ensures at + |Bracketed(open, text, close)| == last + 1
  {
    last := at + 1 + |text|;
    ThreeParts(s, at, [open], text, [close]);
    assert s[at] == [open][0] && s[last] == [close][0];
  }

  lemma SeparatedParts(s: string, at: nat, a: string, sep: char, b: string) returns (mid: nat)
    requires TextAt(s, at, Separated(a, sep, b))
    ensures mid == at + |a| < |s| && s[mid] == sep && TextAt(s, at, a) && TextAt(s, mid + 1, b)
    ensures at + |Separated(a, sep, b)| == mid + 1 + |b|
  {
    mid := at + |a|;
    ThreeParts(s, at, a, [sep], b);
    assert s[mid] == [sep][0];
  }

  /** A text without white space around it. */
  lemma TokenIsText(s: string, p: nat, q: nat, v: Json)
    requires IsToken(s, p, q, v)
    ensures IsText(s, p, q, v)
  {
    assert Blank(s, p, p) && Blank(s, q, q);
  }

  lemma {:induction false} PrintIsToken(s: string, at: nat, end: nat, v: Json, t: string)
    requires Wf(v) && t == Print(v) && TextAt(s, at, t) && end == at + |t|
    ensures IsToken(s, at, end, v)
    decreases v, 1, 0
  {
    match v
    case JNumber(n) => assert n.whole != "";
    case JString(n) => QuotedIsString(s, at, end, n);
    case JNull =>
    case JBool(_) =>
    case JArray(_) =>
      BoxText(s, at, end, v, t);
      PrintedArray(s, at, end, v);
    case JObject(_) =>
      BoxText(s, at, end, v, t);
      PrintedObject(s, at, end, v);
  }

  /** What is printed between the brackets or braces. */
  function Content(v: Json): string
    requires v.JArray? || v.JObject?
  {
    if v.JArray? then if v.elems == [] then "" else PrintElems(v, 0)
    else if v.members == [] then "" else PrintMembers(v, 0)
  }

  lemma BoxText(s: string, at: nat, end: nat, v: Json, t: string)
    requires (v.JArray? || v.JObject?) && t == Print(v) && TextAt(s, at, t) && end == at + |t|
    ensures end == at + |Content(v)| + 2 <= |s| && TextAt(s, at + 1, Content(v))
    ensures s[at] == (if v.JArray? then '[' else '{') && s[end - 1] == (if v.JArray? then ']' else '}')
  {
    var text := Content(v);
    if v.JArray? {
      var last := BracketedParts(s, at, '[', text, ']');
    } else {
      var last := BracketedParts(s, at, '{', text, '}');
    }
  }

  lemma {:induction false} PrintedArray(s: string, at: nat, end: nat, v: Json)
    requires v.JArray? && Wf(v) && end == at + |Content(v)| + 2 <= |s| && TextAt(s, at + 1, Content(v))
    requires s[at] == '[' && s[end - 1] == ']'
    ensures IsToken(s, at, end, v)
    decreases v, 0, |v.elems| + 2
  {
    if v.elems != [] {
      assert Span(s, at + 1, end - 1, Content(v));
      PrintAreElems(s, at + 1, end - 1, v, 0, Content(v));
    }
    ArrayIsToken(s, at, end, v);
  }

  lemma ArrayIsToken(s: string, p: nat, q: nat, v: Json)
    requires v.JArray? && p + 1 < q <= |s| && s[p] == '[' && s[q - 1] == ']'
    requires if v.elems == [] then q == p + 2 else AreElems(s, p + 1, q - 1, v, 0)
    ensures IsToken(s, p, q, v)
  {
  }

  lemma {:induction false} PrintedObject(s: string, at: nat, end: nat, v: Json)
    requires v.JObject? && Wf(v) && end == at + |Content(v)| + 2 <= |s| && TextAt(s, at + 1, Content(v))
    requires s[at] == '{' && s[end - 1] == '}'
    ensures IsToken(s, at, end, v)
    decreases v, 0, |v.members| + 2
  {
    if v.members != [] {
      assert Span(s, at + 1, end - 1, Content(v));
      PrintAreMembers(s, at + 1, end - 1, v, 0, Content(v));
    }
    ObjectIsToken(s, at, end, v);
  }

  lemma ObjectIsToken(s: string, p: nat, q: nat, v: Json)
    requires v.JObject? && p + 1 < q <= |s| && s[p] == '{' && s[q - 1] == '}'
    requires if v.members == [] then q == p + 2 else AreMembers(s, p + 1, q - 1, v, 0)
    ensures IsToken(s, p, q, v)
  {
  }

  lemma QuotedIsString(s: string, at: nat, end: nat, n: string)
    requires TextAt(s, at, Quoted(n)) && end == at + |Quoted(n)|
    ensures at + 1 < end <= |s| && s[at] == QUOTE && s[end - 1] == QUOTE && SpellsString(s, at + 1, end - 1, n)
  {
    var e := QuotedParts(s, at, n);
    EscapeSpells(s, at + 1, n, e);
  }

  ghost predicate Span(s: string, at: nat, end: nat, t: string) {
    at <= end <= |s| && s[at..end] == t
  }

  lemma {:induction false} PrintAreElems(s: string, at: nat, end: nat, v: Json, i: nat, t: string)
    requires v.JArray? && Wf(v) && i < |v.elems| && t == PrintElems(v, i) && Span(s, at, end, t)
    ensures AreElems(s, at, end, v, i)
    decreases v, 0, |v.elems| - i, 1
  {
    if i + 1 < |v.elems| {
      var comma, rest := PrintedElem(s, at, end, v, i, t);
      PrintAreElems(s, comma + 1, end, v, i + 1, rest);
      ElemsJoin(s, at, comma, end, v, i);
    } else {
      PrintedLast(s, at, end, v, i, t);
    }
  }

  /** Element i, and the text behind its comma. */
  lemma {:induction false} PrintedElem(s: string, at: nat, end: nat, v: Json, i: nat, t: string)
    returns (comma: nat, rest: string)
    requires v.JArray? && Wf(v) && i + 1 < |v.elems| && t == PrintElems(v, i) && Span(s, at, end, t)
    ensures IsElem(s, at, comma, v, i) && comma < |s| && s[comma] == ','
    ensures rest == PrintElems(v, i + 1) && Span(s, comma + 1, end, rest)
    decreases v, 0, |v.elems| - i, 0
  {
    var first := Print(v.elems[i]);
    rest := PrintElems(v, i + 1);
    comma := SpanParts(s, at, end, first, ',', rest);
    PrintIsToken(s, at, comma, v.elems[i], first);
    TokenIsText(s, at, comma, v.elems[i]);
  }

  lemma SpanParts(s: string, at: nat, end: nat, a: string, sep: char, b: string) returns (mid: nat)
    requires Span(s, at, end, Separated(a, sep, b))
    ensures mid < |s| && s[mid] == sep && Span(s, at, mid, a) && Span(s, mid + 1, end, b)
    ensures TextAt(s, at, a) && mid == at + |a|
  {
    assert at + |Separated(a, sep, b)| == end;
    mid := SeparatedParts(s, at, a, sep, b);
  }

  lemma {:induction false} PrintedLast(s: string, at: nat, end: nat, v: Json, i: nat, t: string)
    requires v.JArray? && Wf(v) && i + 1 == |v.elems| && t == Print(v.elems[i]) && Span(s, at, end, t)
    ensures AreElems(s, at, end, v, i)
    decreases v, 0, |v.elems| - i, 0
  {
    assert at + |t| == end;
    PrintIsToken(s, at, end, v.elems[i], t);
    TokenIsText(s, at, end, v.elems[i]);
    LastElem(s, at, end, v, i);
  }

  lemma ElemsJoin(s: string, at: nat, comma: nat, end: nat, v: Json, i: nat)
    requires v.JArray? && i + 1 < |v.elems| && comma < |s| && s[comma] == ','
    requires IsElem(s, at, comma, v, i) && AreElems(s, comma + 1, end, v, i + 1)
    ensures AreElems(s, at, end, v, i)
  {
  }

  lemma LastElem(s: string, at: nat, end: nat, v: Json, i: nat)
    requires v.JArray? && i + 1 == |v.elems| && IsElem(s, at, end, v, i)
    ensures AreElems(s, at, end, v, i)
  {
  }

  lemma {:induction false} PrintAreMembers(s: string, at: nat, end: nat, v: Json, i: nat, t: string)
    requires v.JObject? && Wf(v) && i < |v.members| && t == PrintMembers(v, i) && Span(s, at, end, t)
    ensures AreMembers(s, at, end, v, i)
    decreases v, 0, |v.members| - i, 2
  {
    if i + 1 < |v.members| {
      var comma, rest := PrintedMembers(s, at, end, v, i, t);
      PrintAreMembers(s, comma + 1, end, v, i + 1, rest);
      MembersJoin(s, at, comma, end, v, i);
    } else {
      PrintedMember(s, at, end, v, i, t);
      LastMember(s, at, end, v, i);
    }
  }

  /** Member i, and the text behind its comma. */
  lemma {:induction false} PrintedMembers(s: string, at: nat, end: nat, v: Json, i: nat, t: string)
    returns (comma: nat, rest: string)
    requires v.JObject? && Wf(v) && i + 1 < |v.members| && t == PrintMembers(v, i) && Span(s, at, end, t)
    ensures IsMember(s, at, comma, v, i) && comma < |s| && s[comma] == ','
    ensures rest == PrintMembers(v, i + 1) && Span(s, comma + 1, end, rest)
    decreases v, 0, |v.members| - i, 1
  {
    var first := PrintMember(v, i);
    rest := PrintMembers(v, i + 1);
    comma := SpanParts(s, at, end, first, ',', rest);
    PrintedMember(s, at, comma, v, i, first);
  }

  lemma {:induction false} PrintedMember(s: string, at: nat, end: nat, v: Json, i: nat, t: string)
    requires v.JObject? && Wf(v) && i < |v.members| && t == PrintMember(v, i) && Span(s, at, end, t)
    ensures IsMember(s, at, end, v, i)
    decreases v, 0, |v.members| - i, 0
  {
    var name, value := Quoted(v.members[i].name), Print(v.members[i].value);
    var colon := SpanParts(s, at, end, name, ':', value);
    assert colon + 1 + |value| == end;
    PrintIsToken(s, colon + 1, end, v.members[i].value, value);
    PrintIsMember(s, at, colon, end, v, i);
  }

  lemma MembersJoin(s: string, at: nat, comma: nat, end: nat, v: Json, i: nat)
    requires v.JObject? && i + 1 < |v.members| && comma < |s| && s[comma] == ','
    requires IsMember(s, at, comma, v, i) && AreMembers(s, comma + 1, end, v, i + 1)
    ensures AreMembers(s, at, end, v, i)
  {
  }

  lemma PrintIsMember(s: string, at: nat, colon: nat, end: nat, v: Json, i: nat)
    requires v.JObject? && i < |v.members| && TextAt(s, at, Quoted(v.members[i].name))
    requires colon == at + |Quoted(v.members[i].name)| < |s| && s[colon] == ':'
    requires IsToken(s, colon + 1, end, v.members[i].value)
    ensures IsMember(s, at, end, v, i)
  {
    QuotedIsString(s, at, colon, v.members[i].name);
    assert Blank(s, at, at) && Blank(s, colon, colon);
    assert IsName(s, at, colon, v.members[i].name);
    TokenIsText(s, colon + 1, end, v.members[i].value);
  }

  lemma LastMember(s: string, at: nat, end: nat, v: Json, i: nat)
    requires v.JObject? && i + 1 == |v.members| && IsMember(s, at, end, v, i)
    ensures AreMembers(s, at, end, v, i)
  {
  }

  /** The canonical text is one of the texts of a value. */
  lemma PrintIsText(v: Json)
    requires Wf(v)
    ensures IsText(Print(v), 0, |Print(v)|, v)
  {
    var s := Print(v);
    assert s[0..|s|] == s;
    PrintIsToken(s, 0, |s|, v, s);
    TokenIsText(s, 0, |s|, v);
  }

  /** White space, and the spelling of strings, do not matter: every text of a value is read like the canonical one. */
  lemma SpellingDoesNotMatter(s: string, v: Json)
    requires Wf(v) && IsText(s, 0, |s|, v)
    ensures ParseText(s) == ParseText(Print(v))
  {
    PrintIsText(v);
    TextParsedIff(s, v);
    TextParsedIff(Print(v), v);
  }

  /** The tree of a value whose strings have no NUL is one that traversals can read. */
  predicate NulFreeJson(v: Json) {
    match v
    case JString(s) => NulFree(s)
    case JArray(es) => forall i :: 0 <= i < |es| ==> NulFreeJson(es[i])
    case JObject(ms) => forall i :: 0 <= i < |ms| ==> NulFree(ms[i].name) && NulFreeJson(ms[i].value)
    case _ => true
  }

  lemma {:induction false} TreeIsProper(v: Json)
    requires NulFreeJson(v)
    ensures Proper(TreeOf(v)) && NulFreeTree(TreeOf(v))
    decreases v
  {
    if v.JArray? {
      ElemsProper(v, 0);
    } else if v.JObject? {
      MembersProper(v, 0);
    }
  }

  lemma {:induction false} ElemsProper(v: Json, i: nat)
    requires v.JArray? && NulFreeJson(v) && i <= |v.elems|
    ensures forall k :: 0 <= k < |ElemTrees(v, i)| ==> Proper(ElemTrees(v, i)[k]) && NulFreeTree(ElemTrees(v, i)[k])
    decreases v, |v.elems| - i
  {
    if i < |v.elems| {
      TreeIsProper(v.elems[i]);
      ElemsProper(v, i + 1);
    }
  }

  lemma {:induction false} MembersProper(v: Json, i: nat)
    requires v.JObject? && NulFreeJson(v) && i <= |v.members|
    ensures forall k ::
      0 <= k < |MemberTrees(v, i)| ==> Proper(MemberTrees(v, i)[k]) && NulFreeTree(MemberTrees(v, i)[k])
    decreases v, |v.members| - i
  {
    if i < |v.members| {
      TreeIsProper(v.members[i].value);
      MembersProper(v, i + 1);
    }
  }

  /** What a client sees of a value: numbers and strings by their text, arrays and objects with what is inside, each
      member as a node with the member's name. */
  ghost function Replay(v: Json): seq<Event>
    decreases v
  {
    match v
    case JNumber(n) => [Leaf(Num(n.Text()))]
    case JString(s) => [Leaf(Text(s))]
    case JNull => [Leaf(Nil)]
    case JBool(b) => [Leaf(Tree.Truth(b))]
    case JArray(es) => [Enter(ARRAY, "")] + ReplayElems(v, |es|) + [Leave(ARRAY, "")]
    case JObject(ms) => [Enter(NODE, "")] + ReplayMembers(v, |ms|) + [Leave(NODE, "")]
  }

  /** The first n elements. */
  ghost function ReplayElems(v: Json, n: nat): seq<Event>
    requires v.JArray? && n <= |v.elems|
    decreases v, n
  {
    if n == 0 then [] else ReplayElems(v, n - 1) + Replay(v.elems[n - 1])
  }

  /** The first n members. */
  ghost function ReplayMembers(v: Json, n: nat): seq<Event>
    requires v.JObject? && n <= |v.members|
    decreases v, n
  {
    if n == 0 then [] else ReplayMembers(v, n - 1) + ReplayMember(v, n - 1)
  }

  ghost function ReplayMember(v: Json, i: nat): seq<Event>
    requires v.JObject? && i < |v.members|
    decreases v, i, 0
  {
    [Enter(NODE, v.members[i].name)] + Replay(v.members[i].value) + [Leave(NODE, v.members[i].name)]
  }

  lemma Shifted<T>(first: T, rest: seq<T>, k: nat)
    requires k <= |rest|
    ensures ([first] + rest)[k] == if k == 0 then first else rest[k - 1]
  {
  }

  lemma {:induction false} ElemTreeAt(v: Json, i: nat, k: nat)
    requires v.JArray? && i <= k < |v.elems| && |ElemTrees(v, i)| == |v.elems| - i
    ensures ElemTrees(v, i)[k - i] == TreeOf(v.elems[k])
    decreases k - i
  {
    Shifted(TreeOf(v.elems[i]), ElemTrees(v, i + 1), k - i);
    if i < k {
      ElemTreeAt(v, i + 1, k);
    }
  }

  lemma {:induction false} ElemTreesSize(v: Json, i: nat)
    requires v.JArray? && i <= |v.elems|
    ensures |ElemTrees(v, i)| == |v.elems| - i
    decreases |v.elems| - i
  {
    if i < |v.elems| {
      ElemTreesSize(v, i + 1);
    }
  }

  lemma {:induction false} MemberTreeAt(v: Json, i: nat, k: nat)
    requires v.JObject? && i <= k < |v.members| && |MemberTrees(v, i)| == |v.members| - i
    ensures MemberTrees(v, i)[k - i] == Box(NODE, v.members[k].name, [TreeOf(v.members[k].value)])
    decreases k - i
  {
    Shifted(Box(NODE, v.members[i].name, [TreeOf(v.members[i].value)]), MemberTrees(v, i + 1), k - i);
    if i < k {
      MemberTreeAt(v, i + 1, k);
    }
  }

  lemma {:induction false} MemberTreesSize(v: Json, i: nat)
    requires v.JObject? && i <= |v.members|
    ensures |MemberTrees(v, i)| == |v.members| - i
    decreases |v.members| - i
  {
    if i < |v.members| {
      MemberTreesSize(v, i + 1);
    }
  }

  /** The events of the tree of a value are what a client is to see of the value. */
  lemma {:induction false} TreeReplays(v: Json)
    ensures Events(TreeOf(v)) == Replay(v)
    decreases v, 1, 0
  {
    if v.JArray? {
      ElemTreesSize(v, 0);
      ElemsReplay(v, TreeOf(v), |v.elems|);
    } else if v.JObject? {
      MemberTreesSize(v, 0);
      MembersReplay(v, TreeOf(v), |v.members|);
    }
  }

  lemma {:induction false} ElemsReplay(v: Json, t: Tree, n: nat)
    requires v.JArray? && t == TreeOf(v) && n <= |v.elems| == |t.kids|
    ensures EventsOf(t, n) == ReplayElems(v, n)
    decreases v, 0, n
  {
    if n > 0 {
      ElemsReplay(v, t, n - 1);
      ElemTreeAt(v, 0, n - 1);
      TreeReplays(v.elems[n - 1]);
    }
  }

  lemma {:induction false} MembersReplay(v: Json, t: Tree, n: nat)
    requires v.JObject? && t == TreeOf(v) && n <= |v.members| == |t.kids|
    ensures EventsOf(t, n) == ReplayMembers(v, n)
    decreases v, 0, n
  {
    if n > 0 {
      MembersReplay(v, t, n - 1);
      MemberTreeAt(v, 0, n - 1);
      MemberReplays(v, n - 1, t.kids[n - 1]);
    }
  }

  lemma {:induction false} MemberReplays(v: Json, i: nat, kid: Tree)
    requires v.JObject? && i < |v.members| && kid == Box(NODE, v.members[i].name, [TreeOf(v.members[i].value)])
    ensures Events(kid) == ReplayMember(v, i)
    decreases v, 0, i
  {
    TreeReplays(v.members[i].value);
    assert EventsOf(kid, 1) == EventsOf(kid, 0) + Events(kid.kids[0]) == Events(kid.kids[0]);
  }

  /** Encoding a text of a value and traversing the bytes used: the traversal takes them all and sees the
      value. Encoding fails only for want of memory or for an exponent with a leading zero. */
  method EncodeAndTraverse(y: Layout, json: string, limit: nat, ghost v: Json) returns (events: Option<seq<Event>>)
    requires Wf(v) && NulFreeJson(v) && IsText(json, 0, |json|, v)
    ensures events.Some? ==> Readable(v) && events.value == [Enter(ROOT, "")] + Replay(v) + [Leave(ROOT, "")]
    ensures Readable(v) && limit >= JsonEncoder.Scaled(2 * |Encode(y, Box(ROOT, "", [TreeOf(v)]))|) ==> events.Some?
  {
    TextParsedIff(json, v);
    var r := JsonEncoder.Read(y, json, limit);
    if r.None? {
      return None;
    }
    var (buffer, used) := r.value;
    ghost var t := Box(ROOT, "", [TreeOf(v)]);
    TreeIsProper(v);
    TreeReplays(v);
    assert buffer[0..0 + |Encode(y, t)|] == buffer[..used];
    var consumed, seen := Traverse(y, buffer, 0, used, t);
    assert consumed == used;
    assert EventsOf(t, 1) == Events(TreeOf(v));
    return Some(seen);
  }
}
