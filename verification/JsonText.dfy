/** JSON text: tokens, and the values of string tokens. Texts are bytes, written as characters. */
module JsonText {

  datatype Option<T> = None | Some(value: T)

  /** A number keeps its text, a string the range between its quotes. */
  datatype Token =
    | Id
    | Number(text: string)
    | Str(from: nat, end: nat)
    | Bool(value: bool)
    | Null
    | LBrace | RBrace | LBracket | RBracket | Comma | Colon
    | Eoi

  datatype Lexed = Fail | Tok(tok: Token, loc: nat)

  const NUL := '\0'
  const QUOTE := '\"'
  const BACKSLASH := '\\'

  predicate IsDigit(c: char) {
    '0' <= c <= '9'
  }

  predicate IsAlpha(c: char) {
    'a' <= c <= 'z' || 'A' <= c <= 'Z'
  }

  predicate IsSpace(c: char) {
    c == ' ' || 9 as char <= c <= 13 as char
  }

  predicate IsHexDigit(c: char) {
    IsDigit(c) || 'a' <= c <= 'f' || 'A' <= c <= 'F'
  }

  function HexValue(c: char): (v: nat)
    requires IsHexDigit(c)
    ensures v < 16
  {
    if IsDigit(c) then c as int - '0' as int
    else if 'a' <= c <= 'f' then c as int - 'a' as int + 10
    else c as int - 'A' as int + 10
  }

  /** Characters that stand for another one behind a backslash. */
  predicate IsEscape(c: char) {
    c == QUOTE || c == BACKSLASH || c == '/' || c == 'b' || c == 'f' || c == 'n' || c == 'r' || c == 't'
  }

  function Unescaped(c: char): char
    requires IsEscape(c)
  {
    if c == 'b' then 8 as char
    else if c == 'f' then 12 as char
    else if c == 'n' then 10 as char
    else if c == 'r' then 13 as char
    else if c == 't' then 9 as char
    else c
  }

  /** The text is followed by a NUL. */
  function CharAt(s: string, i: nat): char {
    if i < |s| then s[i] else NUL
  }

  // ---------------------------------------------------------------------- numbers

  /** The end of the digits that start at i. */
  function DigitsEnd(s: string, i: nat): (e: nat)
    requires i <= |s|
    ensures i <= e <= |s| && (forall k :: i <= k < e ==> IsDigit(s[k])) && !IsDigit(CharAt(s, e))
    decreases |s| - i
  {
    if i < |s| && IsDigit(s[i]) then DigitsEnd(s, i + 1) else i
  }

  /** The end of an integer: at least one digit unless the text ends, no leading zero. */
  function IntegerEnd(s: string, i: nat): (r: Option<nat>)
    requires i <= |s|
    ensures r.Some? ==> i <= r.value <= |s|
  {
    var e := DigitsEnd(s, i);
    if (e == i && i < |s|) || (i + 1 < e && s[i] == '0') then None else Some(e)
  }

  function FractionEnd(s: string, i: nat): (r: Option<nat>)
    requires i <= |s|
    ensures r.Some? ==> i <= r.value <= |s|
  {
    var e := DigitsEnd(s, i);
    if e == i && i < |s| then None else Some(e)
  }

  /** The end of the exponent behind its letter. */
  function ExponentEnd(s: string, i: nat): (r: Option<nat>)
    requires i <= |s|
    ensures r.Some? ==> i <= r.value <= |s|
  {
    if i >= |s| then None
    else
      var l := if s[i] == '-' || s[i] == '+' then i + 1 else i;
      if l >= |s| then None else IntegerEnd(s, l)
  }

  /** The end of sign and integer part of a number that starts at i; the integer part may be missing. */
  function WholeEnd(s: string, i: nat): (r: Option<nat>)
    requires i < |s| && (IsDigit(s[i]) || s[i] == '.' || s[i] == '-')
    ensures r.Some? ==> i <= r.value <= |s| && (r.value == i ==> s[i] == '.')
  {
    var l := if s[i] == '-' then i + 1 else i;
    if IsDigit(CharAt(s, l)) then IntegerEnd(s, l)
    else if s[i] == '-' then None
    else Some(i)
  }

  /** The end of sign, integer part and fraction of a number that starts at i. */
  function MantissaEnd(s: string, i: nat): (r: Option<nat>)
    requires i < |s| && (IsDigit(s[i]) || s[i] == '.' || s[i] == '-')
    ensures r.Some? ==> i < r.value <= |s|
  {
    var e := WholeEnd(s, i);
    if e.None? then None
    else if CharAt(s, e.value) == '.' then FractionEnd(s, e.value + 1)
    else e
  }

  /** The end of a number that starts at i. */
  function NumberEnd(s: string, i: nat): (r: Option<nat>)
    requires i < |s| && (IsDigit(s[i]) || s[i] == '.' || s[i] == '-')
    ensures r.Some? ==> i < r.value <= |s|
  {
    var m := MantissaEnd(s, i);
    if m.None? then None else TailEnd(s, m.value)
  }

  /** The end of the exponent at m, if there is one. */
  function TailEnd(s: string, m: nat): (r: Option<nat>)
    requires m <= |s|
    ensures r.Some? ==> m <= r.value <= |s|
  {
    if CharAt(s, m) == 'e' || CharAt(s, m) == 'E' then ExponentEnd(s, m + 1) else Some(m)
  }

  // ---------------------------------------------------------------------- strings

  predicate FourHexDigits(s: string, i: nat) {
    i + 3 < |s| && IsHexDigit(s[i]) && IsHexDigit(s[i + 1]) && IsHexDigit(s[i + 2]) && IsHexDigit(s[i + 3])
  }

  /** The closing quote of a string, from position i inside of it. */
  function StringEnd(s: string, i: nat): (r: Option<nat>)
    requires i <= |s|
    ensures r.Some? ==> i <= r.value < |s| && s[r.value] == QUOTE
    decreases |s| - i
  {
    if i >= |s| then None
    else if s[i] == QUOTE then Some(i)
    else if s[i] != BACKSLASH then StringEnd(s, i + 1)
    else if i + 1 >= |s| then None
    else if IsEscape(s[i + 1]) then StringEnd(s, i + 2)
    else if s[i + 1] != 'u' || i + 5 >= |s| then None
    else if FourHexDigits(s, i + 2) then StringEnd(s, i + 2)
    else None
  }

  /** The value of a string token from..end: escapes replaced, a code unit as its low and its high byte. */
  function Extract(s: string, from: nat, end: nat): Option<string>
    requires end <= |s|
    decreases end - from
  {
    if from >= end then Some("")
    else if s[from] != BACKSLASH then Prepend([s[from]], Extract(s, from + 1, end))
    else if from + 1 >= end then None
    else if IsEscape(s[from + 1]) then Prepend([Unescaped(s[from + 1])], Extract(s, from + 2, end))
    else if s[from + 1] != 'u' then Extract(s, from + 2, end)
    else if from + 5 >= end then None
    else if FourHexDigits(s, from + 2) then
      Prepend(CodeUnit(s, from + 2), Extract(s, from + 6, end))
    else None
  }

  function Prepend(a: string, r: Option<string>): Option<string> {
    if r.None? then None else Some(a + r.value)
  }

  function CodeUnit(s: string, i: nat): string
    requires FourHexDigits(s, i)
  {
    [(16 * HexValue(s[i + 2]) + HexValue(s[i + 3])) as char, (16 * HexValue(s[i]) + HexValue(s[i + 1])) as char]
  }

  // ---------------------------------------------------------------------- tokens

  predicate TrueAt(s: string, i: nat) {
    i + 3 < |s| && s[i] == 't' && s[i + 1] == 'r' && s[i + 2] == 'u' && s[i + 3] == 'e'
  }

  predicate FalseAt(s: string, i: nat) {
    i + 4 < |s| && s[i] == 'f' && s[i + 1] == 'a' && s[i + 2] == 'l' && s[i + 3] == 's' && s[i + 4] == 'e'
  }

  predicate NullAt(s: string, i: nat) {
    i + 3 < |s| && s[i] == 'n' && s[i + 1] == 'u' && s[i + 2] == 'l' && s[i + 3] == 'l'
  }

  /** A word that ends at `end`: no letter or digit may follow. */
  function LexWord(s: string, end: nat, tok: Token): Lexed {
    if IsAlpha(CharAt(s, end)) || IsDigit(CharAt(s, end)) then Fail else Tok(tok, end)
  }

  function IdEnd(s: string, i: nat): (e: nat)
    requires i <= |s|
    ensures i <= e <= |s|
    decreases |s| - i
  {
    if i < |s| && (IsAlpha(s[i]) || IsDigit(s[i])) then IdEnd(s, i + 1) else i
  }

  predicate IsPunctuation(c: char) {
    c == '{' || c == '}' || c == ',' || c == ':' || c == '[' || c == ']'
  }

  function Punctuation(c: char): Token
    requires IsPunctuation(c)
  {
    if c == '{' then LBrace else if c == '}' then RBrace else if c == ',' then Comma
    else if c == ':' then Colon else if c == '[' then LBracket else RBracket
  }

  /** The token at i, where no space is. */
  function LexHere(s: string, i: nat): (r: Lexed)
    requires i < |s| && !IsSpace(s[i])
    ensures r.Tok? ==> i < r.loc <= |s| && r.tok != Eoi
    ensures r.Tok? && r.tok.Str? ==> r.tok.from <= r.tok.end < |s| && StringEnd(s, r.tok.from) == Some(r.tok.end)
  {
    var c := s[i];
    if IsDigit(c) || c == '.' || c == '-' then
      var e := NumberEnd(s, i);
      if e.None? then Fail else Tok(Number(s[i..e.value]), e.value)
    else if c == QUOTE then
      var e := StringEnd(s, i + 1);
      if e.None? then Fail else Tok(Str(i + 1, e.value), e.value + 1)
    else if TrueAt(s, i) then LexWord(s, i + 4, Bool(true))
    else if FalseAt(s, i) then LexWord(s, i + 5, Bool(false))
    else if NullAt(s, i) then LexWord(s, i + 4, Null)
    else if IsPunctuation(c) then Tok(Punctuation(c), i + 1)
    else if IsAlpha(c) then Tok(Id, IdEnd(s, i + 1))
    else Fail
  }

  /** The next token from i on. */
  function Lex(s: string, i: nat): (r: Lexed)
    requires i <= |s|
    ensures r.Tok? ==> i <= r.loc <= |s| && (r.tok == Eoi || i < r.loc)
    ensures r.Tok? && r.tok.Str? ==> r.tok.from <= r.tok.end < |s| && StringEnd(s, r.tok.from) == Some(r.tok.end)
    decreases |s| - i
  {
    if i >= |s| then Tok(Eoi, i)
    else if IsSpace(s[i]) then Lex(s, i + 1)
    else LexHere(s, i)
  }

  // ---------------------------------------------------------------------- what is no token

  /** White space is skipped; any other character that starts no number, string, word or punctuation is an error. */
  lemma NoToken(s: string, i: nat)
    requires i < |s|
    ensures var c := s[i];
      var space := c == ' ' || 9 <= c as int <= 13;
      var starts := '0' <= c <= '9' || 'a' <= c <= 'z' || 'A' <= c <= 'Z'
        || c in {'.', '-', '\"', '{', '}', '[', ']', ',', ':'};
      (space ==> Lex(s, i) == Lex(s, i + 1)) && (!space && !starts ==> Lex(s, i) == Fail)
  {
  }

  /** A letter or a digit behind `true`, `false` or `null` is an error. */
  lemma GluedWord(s: string, i: nat, w: string)
    requires w == "true" || w == "false" || w == "null"
    requires i + |w| < |s| && s[i..i + |w|] == w
    requires var c := s[i + |w|]; 'a' <= c <= 'z' || 'A' <= c <= 'Z' || '0' <= c <= '9'
    ensures Lex(s, i) == Fail
  {
    assert s[i + 0] == w[0] && s[i + 1] == w[1] && s[i + 2] == w[2] && s[i + 3] == w[3];
    if w == "false" {
      assert s[i + 4] == w[4];
    }
  }

  /** So is a zero in front of other digits. */
  lemma LeadingZero(s: string, i: nat)
    requires i + 1 < |s| && s[i] == '0' && '0' <= s[i + 1] <= '9'
    ensures Lex(s, i) == Fail
  {
    assert DigitsEnd(s, i) == DigitsEnd(s, i + 1) >= i + 2;
    assert NumberEnd(s, i).None?;
  }

  // ---------------------------------------------------------------------- the tokenizer

  method MatchInteger(s: string, from: nat) returns (ok: bool, loc: nat)
    requires from <= |s|
    ensures ok == IntegerEnd(s, from).Some? && (ok ==> loc == IntegerEnd(s, from).value)
  {
    ok, loc := true, from;
    while loc < |s|
      invariant from <= loc <= |s| && DigitsEnd(s, from) == DigitsEnd(s, loc)
      invariant from < |s| && loc == |s| ==> from < loc
    {
      if !IsDigit(s[loc]) {
        if from == loc {
          return false, loc;
        }
        break;
      }
      loc := loc + 1;
    }
    if from + 1 < loc && s[from] == '0' {
      ok := false;
    }
  }

  method MatchFraction(s: string, from: nat) returns (ok: bool, loc: nat)
    requires from <= |s|
    ensures ok == FractionEnd(s, from).Some? && (ok ==> loc == FractionEnd(s, from).value)
  {
    ok, loc := true, from;
    while loc < |s|
      invariant from <= loc <= |s| && DigitsEnd(s, from) == DigitsEnd(s, loc)
      invariant from < |s| && loc == |s| ==> from < loc
    {
      if !IsDigit(s[loc]) {
        if from == loc {
          return false, loc;
        }
        break;
      }
      loc := loc + 1;
    }
  }

  method MatchExponent(s: string, from: nat) returns (ok: bool, loc: nat)
    requires from <= |s|
    ensures ok == ExponentEnd(s, from).Some? && (ok ==> loc == ExponentEnd(s, from).value)
  {
    loc := from;
    if loc >= |s| {
      return false, loc;
    }
    if s[loc] == '-' || s[loc] == '+' {
      loc := loc + 1;
      if loc >= |s| {
        return false, loc;
      }
    }
    ok, loc := MatchInteger(s, loc);
  }

  method MatchWhole(s: string, from: nat) returns (ok: bool, loc: nat)
    requires from < |s| && (IsDigit(s[from]) || s[from] == '.' || s[from] == '-')
    ensures ok == WholeEnd(s, from).Some? && (ok ==> loc == WholeEnd(s, from).value)
  {
    loc, ok := from, true;
    if s[from] == '-' {
      loc := loc + 1;
      if loc >= |s| || !IsDigit(s[loc]) {
        return false, loc;
      }
    }
    if IsDigit(s[loc]) {
      ok, loc := MatchInteger(s, loc);
    }
  }

  method MatchMantissa(s: string, from: nat) returns (ok: bool, loc: nat)
    requires from < |s| && (IsDigit(s[from]) || s[from] == '.' || s[from] == '-')
    ensures ok == MantissaEnd(s, from).Some? && (ok ==> loc == MantissaEnd(s, from).value)
  {
    ok, loc := MatchWhole(s, from);
    if !ok {
      return;
    }
    if CharAt(s, loc) == '.' {
      ok, loc := MatchFraction(s, loc + 1);
    }
  }

  method MatchTail(s: string, from: nat) returns (ok: bool, loc: nat)
    requires from <= |s|
    ensures ok == TailEnd(s, from).Some? && (ok ==> loc == TailEnd(s, from).value)
  {
    ok, loc := true, from;
    if CharAt(s, loc) == 'e' || CharAt(s, loc) == 'E' {
      ok, loc := MatchExponent(s, loc + 1);
    }
  }

  method GetNumber(s: string, from: nat) returns (r: Lexed)
    requires from < |s| && (IsDigit(s[from]) || s[from] == '.' || s[from] == '-')
    ensures var e := NumberEnd(s, from); r == if e.None? then Fail else Tok(Number(s[from..e.value]), e.value)
  {
    var ok, loc := MatchMantissa(s, from);
    if !ok {
      return Fail;
    }
    ok, loc := MatchTail(s, loc);
    if !ok {
      return Fail;
    }
    return Tok(Number(s[from..loc]), loc);
  }

  method GetString(s: string, from: nat) returns (r: Lexed)
    requires from <= |s|
    ensures var e := StringEnd(s, from); r == if e.None? then Fail else Tok(Str(from, e.value), e.value + 1)
  {
    var loc := from;
    if loc >= |s| {
      return Fail;
    }
    while loc < |s| && s[loc] != QUOTE
      invariant from <= loc <= |s| && StringEnd(s, from) == StringEnd(s, loc)
    {
      if s[loc] == BACKSLASH {
        loc := loc + 1;
        if loc >= |s| {
          return Fail;
        }
        if !IsEscape(s[loc]) {
          if s[loc] != 'u' || loc + 4 >= |s| {
            return Fail;
          }
          if !IsHexDigit(s[loc + 1]) || !IsHexDigit(s[loc + 2]) || !IsHexDigit(s[loc + 3]) || !IsHexDigit(s[loc + 4]) {
            return Fail;
          }
        }
      }
      loc := loc + 1;
    }
    if CharAt(s, loc) != QUOTE {
      return Fail;
    }
    return Tok(Str(from, loc), loc + 1);
  }

  /** Reads the next token from loc on. */
  method GetToken(s: string, from: nat) returns (r: Lexed)
    requires from <= |s|
    ensures r == Lex(s, from)
  {
    var loc := from;
    while loc < |s|
      invariant from <= loc <= |s| && Lex(s, from) == Lex(s, loc)
    {
      var c := s[loc];
      if IsSpace(c) {
        loc := loc + 1;
        continue;
      }
      if IsDigit(c) || c == '.' || c == '-' {
        r := GetNumber(s, loc);
        return;
      } else if c == QUOTE {
        r := GetString(s, loc + 1);
        return;
      } else if TrueAt(s, loc) {
        return LexWord(s, loc + 4, Bool(true));
      } else if FalseAt(s, loc) {
        return LexWord(s, loc + 5, Bool(false));
      } else if NullAt(s, loc) {
        return LexWord(s, loc + 4, Null);
      } else if IsPunctuation(c) {
        return Tok(Punctuation(c), loc + 1);
      } else if IsAlpha(c) {
        var end := loc + 1;
        while end < |s| && (IsAlpha(s[end]) || IsDigit(s[end]))
          invariant loc + 1 <= end <= |s| && IdEnd(s, loc + 1) == IdEnd(s, end)
        {
          end := end + 1;
        }
        return Tok(Id, end);
      } else {
        return Fail;
      }
    }
    return Tok(Eoi, loc);
  }

  /** The value of a string token. */
  method ExtractStrValue(tok: Token, msg: string) returns (r: Option<string>)
    ensures r == if tok.Str? && tok.from <= tok.end <= |msg| then Extract(msg, tok.from, tok.end) else None
  {
    if !tok.Str? || tok.from > tok.end || tok.end > |msg| {
      return None;
    }
    var value, i := "", tok.from;
    if Extract(msg, i, tok.end).Some? {
      assert value + Extract(msg, i, tok.end).value == Extract(msg, i, tok.end).value;
    }
    while i < tok.end
      invariant tok.from <= i && Extract(msg, tok.from, tok.end) == Prepend(value, Extract(msg, i, tok.end))
      decreases tok.end - i
    {
      if msg[i] != BACKSLASH {
        StepExtract(msg, i, tok.end, value, [msg[i]], i + 1);
        value := value + [msg[i]];
        i := i + 1;
        continue;
      }
      i := i + 1;
      if i >= tok.end {
        return None;
      }
      if IsEscape(msg[i]) {
        StepExtract(msg, i - 1, tok.end, value, [Unescaped(msg[i])], i + 1);
        value := value + [Unescaped(msg[i])];
      } else if msg[i] == 'u' {
        if i + 4 >= tok.end {
          return None;
        }
        if !(IsHexDigit(msg[i + 4]) && IsHexDigit(msg[i + 3]) && IsHexDigit(msg[i + 2]) && IsHexDigit(msg[i + 1])) {
          return None;
        }
        StepExtract(msg, i - 1, tok.end, value, CodeUnit(msg, i + 1), i + 5);
        value := value + CodeUnit(msg, i + 1);
        i := i + 4;
      }
      i := i + 1;
    }
    assert Extract(msg, i, tok.end) == Some("");
    assert value + "" == value;
    return Some(value);
  }

  lemma StepExtract(msg: string, i: nat, end: nat, value: string, more: string, next: nat)
    requires i < end <= |msg| && Extract(msg, i, end) == Prepend(more, Extract(msg, next, end))
    ensures Prepend(value, Extract(msg, i, end)) == Prepend(value + more, Extract(msg, next, end))
  {
    if Extract(msg, next, end).Some? {
      assert value + (more + Extract(msg, next, end).value) == (value + more) + Extract(msg, next, end).value;
    }
  }

  // ---------------------------------------------------------------------- strings survive

  /** Extraction succeeds on every string the tokenizer accepts. */
  lemma {:induction false} ExtractSucceeds(s: string, i: nat, end: nat)
    requires i <= end <= |s| && StringEnd(s, i) == Some(end)
    ensures Extract(s, i, end).Some?
    decreases end - i
  {
    if i < end {
      if s[i] != BACKSLASH {
        ExtractSucceeds(s, i + 1, end);
      } else if IsEscape(s[i + 1]) {
        ExtractSucceeds(s, i + 2, end);
      } else {
        HexDigitsInside(s, i, end);
        ExtractSucceeds(s, i + 6, end);
      }
    }
  }

  /** The four digits of a code unit lie before the closing quote. */
  lemma HexDigitsInside(s: string, i: nat, end: nat)
    requires i + 5 < |s| && s[i] == BACKSLASH && s[i + 1] == 'u' && StringEnd(s, i) == Some(end)
    ensures i + 6 <= end && StringEnd(s, i + 6) == Some(end)
  {
    assert StringEnd(s, i + 2) == StringEnd(s, i + 3) == StringEnd(s, i + 4) == StringEnd(s, i + 5) == StringEnd(s,
        i + 6);
  }

  /** c is the hexadecimal digit of value n. */
  ghost predicate HexDigitOf(c: char, n: nat) {
    || (n < 10 && c as int == '0' as int + n)
    || (10 <= n < 16 && (c as int == 'a' as int + n - 10 || c as int == 'A' as int + n - 10))
  }

  /** Behind a backslash e stands for c: section 7 of RFC 8259. */
  ghost predicate EscapeOf(e: char, c: char) {
    || (e == '\"' && c == '\"') || (e == '\\' && c == '\\') || (e == '/' && c == '/')
    || (e == 'b' && c == 8 as char) || (e == 'f' && c == 12 as char) || (e == 'n' && c == '\n')
    || (e == 'r' && c == '\r') || (e == 't' && c == '\t')
  }

  /** At i four hexadecimal digits spell a code unit whose bytes are lo and hi. */
  ghost predicate UnitAt(s: string, i: nat, lo: char, hi: char)
    requires i + 4 <= |s|
  {
    exists a: nat, b: nat, c: nat, d: nat {:trigger HexDigitOf(s[i], a), HexDigitOf(s[i + 1], b),
                                           HexDigitOf(s[i + 2], c), HexDigitOf(s[i + 3], d)} ::
      && HexDigitOf(s[i], a) && HexDigitOf(s[i + 1], b) && HexDigitOf(s[i + 2], c) && HexDigitOf(s[i + 3], d)
      && hi as int == 16 * a + b && lo as int == 16 * c + d
  }

  /** The text s[i..end] between quotes spells the string v: any character but quote and backslash for itself, escapes,
      and code units, of which v gets the low and then the high byte. */
  ghost predicate SpellsString(s: string, i: nat, end: nat, v: string)
    requires end <= |s|
    decreases |v|
  {
    if v == "" then i == end
    else
      || (i < end && s[i] != '\"' && s[i] != '\\' && v[0] == s[i] && SpellsString(s, i + 1, end, v[1..]))
      || (i + 1 < end && s[i] == '\\' && EscapeOf(s[i + 1], v[0]) && SpellsString(s, i + 2, end, v[1..]))
      || (i + 5 < end && s[i] == '\\' && s[i + 1] == 'u' && |v| > 1 && UnitAt(s, i + 2, v[0], v[1])
            && SpellsString(s, i + 6, end, v[2..]))
  }

  lemma HexDigitRead(c: char, n: nat)
    requires HexDigitOf(c, n)
    ensures IsHexDigit(c) && HexValue(c) == n && c != QUOTE && c != BACKSLASH
  {
  }

  lemma UnitRead(s: string, i: nat, lo: char, hi: char)
    requires i + 4 < |s| && UnitAt(s, i, lo, hi)
    ensures FourHexDigits(s, i) && CodeUnit(s, i) == [lo, hi]
    ensures forall k :: i <= k < i + 4 ==> s[k] != QUOTE && s[k] != BACKSLASH
  {
    var a: nat, b: nat, c: nat, d: nat :|
      && HexDigitOf(s[i], a) && HexDigitOf(s[i + 1], b) && HexDigitOf(s[i + 2], c) && HexDigitOf(s[i + 3], d)
      && hi as int == 16 * a + b && lo as int == 16 * c + d;
    HexDigitRead(s[i], a);
    HexDigitRead(s[i + 1], b);
    HexDigitRead(s[i + 2], c);
    HexDigitRead(s[i + 3], d);
    ByteRead(c, d, lo);
    ByteRead(a, b, hi);
  }

  lemma ByteRead(high: nat, low: nat, c: char)
    requires high < 16 && low < 16 && c as int == 16 * high + low
    ensures (16 * high + low) as char == c
  {
  }

  lemma UnitPassed(s: string, i: nat)
    requires i + 6 < |s| && s[i] == BACKSLASH && s[i + 1] == 'u' && FourHexDigits(s, i + 2)
    requires forall k :: i + 2 <= k < i + 6 ==> s[k] != QUOTE && s[k] != BACKSLASH
    ensures StringEnd(s, i) == StringEnd(s, i + 6)
  {
    assert StringEnd(s, i + 2) == StringEnd(s, i + 3) == StringEnd(s, i + 4) == StringEnd(s, i + 5);
  }

  lemma EscapeRead(e: char, c: char)
    requires EscapeOf(e, c)
    ensures IsEscape(e) && Unescaped(e) == c && e != 'u'
  {
  }

  /** The first part of a spelled string as the tokenizer and the extraction see it. */
  lemma SpelledPart(s: string, i: nat, end: nat, v: string) returns (next: nat, k: nat)
    requires i <= end < |s| && SpellsString(s, i, end, v) && s[end] == QUOTE && v != ""
    ensures i < next <= end && 0 < k <= |v| && SpellsString(s, next, end, v[k..])
    ensures StringEnd(s, i) == StringEnd(s, next) && Extract(s, i, end) == Prepend(v[..k], Extract(s, next, end))
  {
    if s[i] != BACKSLASH {
      next, k := i + 1, 1;
      assert v[..1] == [s[i]];
    } else if EscapeOf(s[i + 1], v[0]) && SpellsString(s, i + 2, end, v[1..]) {
      next, k := i + 2, 1;
      EscapeRead(s[i + 1], v[0]);
      assert v[..1] == [v[0]];
    } else {
      next, k := i + 6, 2;
      UnitRead(s, i + 2, v[0], v[1]);
      UnitPassed(s, i);
      assert v[..2] == [v[0], v[1]];
    }
  }

  /** However a string is spelled, its text and a quote are one token, and its value is the string. */
  lemma {:induction false} SpelledStringRead(s: string, i: nat, end: nat, v: string)
    requires i <= end < |s| && SpellsString(s, i, end, v) && s[end] == QUOTE
    ensures StringEnd(s, i) == Some(end) && Extract(s, i, end) == Some(v)
    decreases |v|
  {
    if v != "" {
      var next, k := SpelledPart(s, i, end, v);
      SpelledStringRead(s, next, end, v[k..]);
      assert v == v[..k] + v[k..];
    }
  }

  /** One way to spell a string: quote and backslash have to be escaped, and control characters with a name are. */
  function EscapeChar(c: char): string {
    if c == QUOTE || c == BACKSLASH then [BACKSLASH, c]
    else if c == 8 as char then [BACKSLASH, 'b']
    else if c == 12 as char then [BACKSLASH, 'f']
    else if c == 10 as char then [BACKSLASH, 'n']
    else if c == 13 as char then [BACKSLASH, 'r']
    else if c == 9 as char then [BACKSLASH, 't']
    else [c]
  }

  function Escape(v: string): string {
    if v == "" then "" else EscapeChar(v[0]) + Escape(v[1..])
  }

  lemma EscapeSplit(s: string, i: nat, v: string, e: nat) returns (next: nat)
    requires v != "" && e == i + |Escape(v)| < |s| && s[i..e] == Escape(v)
    ensures i < next == i + |EscapeChar(v[0])| <= e && s[i..next] == EscapeChar(v[0])
    ensures e == next + |Escape(v[1..])| && s[next..e] == Escape(v[1..])
  {
    next := i + |EscapeChar(v[0])|;
    assert s[i..next] == s[i..e][..next - i];
    assert s[next..e] == s[i..e][next - i..];
  }

  lemma {:induction false} EscapeSpells(s: string, i: nat, v: string, e: nat)
    requires e == i + |Escape(v)| < |s| && s[i..e] == Escape(v)
    ensures SpellsString(s, i, e, v)
    decreases |v|
  {
    if v != "" {
      var next := EscapeSplit(s, i, v, e);
      EscapeSpells(s, next, v[1..], e);
      var x := EscapeChar(v[0]);
      assert s[i] == s[i..next][0] == x[0];
      if |x| == 2 {
        assert s[i + 1] == s[i..next][1] == x[1];
      }
    }
  }

  /** An escaped string, closed by a quote, is one string token, and its value is the string again. */
  lemma EscapeRoundTrip(s: string, i: nat, v: string, e: nat)
    requires e == i + |Escape(v)| < |s| && s[i..e] == Escape(v) && s[e] == QUOTE
    ensures StringEnd(s, i) == Some(e) && Extract(s, i, e) == Some(v)
  {
    EscapeSpells(s, i, v, e);
    SpelledStringRead(s, i, e, v);
  }

  // ---------------------------------------------------------------------- numbers survive, mostly

  predicate AllDigits(s: string) {
    forall k :: 0 <= k < |s| ==> '0' <= s[k] <= '9'
  }

  /** A number of section 6 of RFC 8259; fraction and exponent may be missing. */
  datatype Numeral = Numeral(minus: bool, whole: string, frac: string, letter: char, sign: string, exp: string) {
    predicate Wf() {
      && whole != "" && AllDigits(whole) && (|whole| == 1 || whole[0] != '0')
      && AllDigits(frac) && AllDigits(exp) && (sign == "" || sign == "-" || sign == "+")
         && (letter == 'e' || letter == 'E')
    }

    function MinusText(): string { if minus then "-" else "" }

    function FracText(): string { if frac == "" then "" else "." + frac }

    function ExpText(): string { if exp == "" then "" else [letter] + sign + exp }

    function Text(): string { MinusText() + whole + FracText() + ExpText() }
  }

  /** The exponent has no leading zero. */
  predicate ShortExponent(n: Numeral) {
    |n.exp| <= 1 || n.exp[0] != '0'
  }

  predicate TextAt(s: string, i: nat, t: string) {
    i + |t| <= |s| && s[i..i + |t|] == t
  }

  lemma TextSplit(s: string, i: nat, t: string, u: string)
    requires TextAt(s, i, t + u)
    ensures TextAt(s, i, t) && TextAt(s, i + |t|, u)
  {
    assert s[i..i + |t|] == s[i..i + |t + u|][..|t|];
    assert s[i + |t|..i + |t| + |u|] == s[i..i + |t + u|][|t|..];
  }

  lemma DigitsRead(s: string, i: nat, d: string)
    requires TextAt(s, i, d) && AllDigits(d) && !IsDigit(CharAt(s, i + |d|))
    ensures DigitsEnd(s, i) == i + |d|
  {
    assert forall k :: i <= k < i + |d| ==> s[k] == d[k - i];
  }

  lemma IntegerRead(s: string, i: nat, d: string)
    requires d != "" && TextAt(s, i, d) && AllDigits(d) && !IsDigit(CharAt(s, i + |d|))
    ensures IsDigit(CharAt(s, i)) && IntegerEnd(s, i) == if |d| == 1 || d[0] != '0' then Some(i + |d|) else None
  {
    DigitsRead(s, i, d);
    assert s[i] == d[0];
  }

  lemma FractionRead(s: string, i: nat, n: Numeral)
    requires n.Wf() && TextAt(s, i, n.FracText())
    requires var c := CharAt(s, i + |n.FracText()|); !IsDigit(c) && c != '.'
    ensures !IsDigit(CharAt(s, i)) && (CharAt(s, i) == '.' <==> n.frac != "")
    ensures n.frac != "" ==> FractionEnd(s, i + 1) == Some(i + |n.FracText()|)
  {
    if n.frac != "" {
      TextSplit(s, i, ".", n.frac);
      assert s[i] == "."[0];
      DigitsRead(s, i + 1, n.frac);
    }
  }

  lemma WholeRead(s: string, i: nat, n: Numeral)
    requires n.Wf() && TextAt(s, i, n.MinusText()) && TextAt(s, i + |n.MinusText()|, n.whole)
    requires !IsDigit(CharAt(s, i + |n.MinusText()| + |n.whole|))
    ensures i < |s| && (IsDigit(s[i]) || s[i] == '-')
    ensures WholeEnd(s, i) == Some(i + |n.MinusText()| + |n.whole|)
  {
    IntegerRead(s, i + |n.MinusText()|, n.whole);
    if n.minus {
      assert s[i] == "-"[0];
    }
  }

  lemma MantissaRead(s: string, i: nat, n: Numeral)
    requires n.Wf() && TextAt(s, i, n.MinusText()) && TextAt(s, i + |n.MinusText()|, n.whole)
    requires TextAt(s, i + |n.MinusText()| + |n.whole|, n.FracText())
    requires var c := CharAt(s, i + |n.MinusText()| + |n.whole| + |n.FracText()|); !IsDigit(c) && c != '.'
    ensures i < |s| && (IsDigit(s[i]) || s[i] == '-')
    ensures MantissaEnd(s, i) == Some(i + |n.MinusText()| + |n.whole| + |n.FracText()|)
  {
    FractionRead(s, i + |n.MinusText()| + |n.whole|, n);
    WholeRead(s, i, n);
  }

  lemma ExponentRead(s: string, i: nat, n: Numeral)
    requires n.Wf() && n.exp != "" && TextAt(s, i, n.ExpText()) && !IsDigit(CharAt(s, i + |n.ExpText()|))
    ensures CharAt(s, i) == n.letter && ExponentEnd(s, i + 1) == if ShortExponent(n) then Some(i + |n.ExpText()|)
      else None
  {
    TextSplit(s, i, [n.letter] + n.sign, n.exp);
    TextSplit(s, i, [n.letter], n.sign);
    assert s[i] == [n.letter][0];
    IntegerRead(s, i + 1 + |n.sign|, n.exp);
    if n.sign != "" {
      assert s[i + 1] == n.sign[0];
    }
  }

  lemma TailRead(s: string, m: nat, n: Numeral)
    requires n.Wf() && TextAt(s, m, n.ExpText())
    requires var c := CharAt(s, m + |n.ExpText()|); !IsDigit(c) && c != '.' && c != 'e' && c != 'E'
    ensures TailEnd(s, m) == if ShortExponent(n) then Some(m + |n.ExpText()|) else None
    ensures !IsDigit(CharAt(s, m)) && CharAt(s, m) != '.'
  {
    if n.exp != "" {
      ExponentRead(s, m, n);
    }
  }

  lemma NumeralParts(s: string, i: nat, n: Numeral) returns (m: nat)
    requires TextAt(s, i, n.Text())
    ensures m == i + |n.MinusText()| + |n.whole| + |n.FracText()| && i + |n.Text()| == m + |n.ExpText()|
    ensures TextAt(s, i, n.MinusText()) && TextAt(s, i + |n.MinusText()|, n.whole)
    ensures TextAt(s, i + |n.MinusText()| + |n.whole|, n.FracText()) && TextAt(s, m, n.ExpText())
  {
    m := i + |n.MinusText()| + |n.whole| + |n.FracText()|;
    TextSplit(s, i, n.MinusText() + n.whole + n.FracText(), n.ExpText());
    TextSplit(s, i, n.MinusText() + n.whole, n.FracText());
    TextSplit(s, i, n.MinusText(), n.whole);
  }

  /** A number that is followed by something else is read in full exactly if its exponent has no leading zero;
      section 6 of RFC 8259 allows leading zeros there. */
  lemma NumberReadIff(s: string, i: nat, n: Numeral)
    requires n.Wf() && TextAt(s, i, n.Text())
    requires var c := CharAt(s, i + |n.Text()|); !IsDigit(c) && c != '.' && c != 'e' && c != 'E'
    ensures i < |s| && (IsDigit(s[i]) || s[i] == '-')
    ensures NumberEnd(s, i) == if ShortExponent(n) then Some(i + |n.Text()|) else None
  {
    var m := NumeralParts(s, i, n);
    TailRead(s, m, n);
    MantissaRead(s, i, n);
  }

  lemma LongExponentRejected()
    ensures Numeral(false, "1", "", 'e', "", "02").Wf() && Lex("1e02", 0) == Fail
  {
    var n := Numeral(false, "1", "", 'e', "", "02");
    assert n.Text() == "1e02";
    assert TextAt("1e02", 0, n.Text());
    NumberReadIff("1e02", 0, n);
  }
}
