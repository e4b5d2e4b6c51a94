/** The live log's record of an event: its name and its parameters in a buffer of bytes. */
module Livelog {

  const SHORT := 2
  const UINT32 := 4
  const INT64 := 8
  const DOUBLE := 8

  const DATA_INT64 := 1
  const DATA_SZ := 2
  const DATA_DOUBLE := 3
  const DATA_VEC_OF_VARIANTS := 4

  const TWO_TO_31: int := 0x8000_0000
  const TWO_TO_32: int := 0x1_0000_0000

  const NUL := '\0'

  /** A byte that holds a character, the first byte of a number, or a later byte of one. */
  datatype Cell = Char(c: char) | Short(n: nat) | Uint32(u: nat) | Int64(i: int) | Real(d: real) | Later

  type Int32 = i: int | -TWO_TO_31 <= i < TWO_TO_31

  /** A parameter: an `int` of 32 bits, a double, a string, or nothing. */
  datatype Variant = Undefined | Int(iv: Int32) | Double(dv: real) | String(sv: string)

  /** Conversion to an `int` of 32 bits. */
  function ToInt32(v: int): (r: Int32)
    ensures -TWO_TO_31 <= v < TWO_TO_31 ==> r == v
  {
    (v + TWO_TO_31) % TWO_TO_32 - TWO_TO_31
  }

  function ToUint32(n: nat): (r: nat)
    ensures n < TWO_TO_32 ==> r == n
  {
    n % TWO_TO_32
  }

  // ---------------------------------------------------------------------- the record

  /** A number of k bytes. */
  function Wide(c: Cell, k: nat): (r: seq<Cell>)
    requires 0 < k
    ensures |r| == k && r[0] == c
  {
    [c] + seq(k - 1, _ => Later)
  }

  function Chars(s: string): (r: seq<Cell>)
    ensures |r| == |s| + 1 && r[|s|] == Char(NUL) && forall i :: 0 <= i < |s| ==> r[i] == Char(s[i])
  {
    seq(|s|, i requires 0 <= i < |s| => Char(s[i])) + [Char(NUL)]
  }

  function EncString(s: string): seq<Cell> {
    Wide(Short(DATA_SZ), SHORT) + (Wide(Uint32(ToUint32(|s| + 1)), UINT32) + Chars(s))
  }

  function EncVariant(v: Variant): seq<Cell> {
    match v
    case Undefined => []
    case Int(i) => Wide(Short(DATA_INT64), SHORT) + Wide(Int64(i), INT64)
    case Double(d) => Wide(Short(DATA_DOUBLE), SHORT) + Wide(Real(d), DOUBLE)
    case String(s) => EncString(s)
  }

  /** The first n parts one after the other. */
  function Flat(parts: seq<seq<Cell>>, n: nat): seq<Cell>
    requires n <= |parts|
  {
    if n == 0 then [] else Flat(parts, n - 1) + parts[n - 1]
  }

  function Parts(v: seq<Variant>): (p: seq<seq<Cell>>)
    ensures |p| == |v| && forall i {:trigger p[i]} :: 0 <= i < |v| ==> p[i] == EncVariant(v[i])
  {
    seq(|v|, i requires 0 <= i < |v| => EncVariant(v[i]))
  }

  function EncVariants(v: seq<Variant>): seq<Cell> {
    Flat(Parts(v), |v|)
  }

  function EncParams(v: seq<Variant>): seq<Cell> {
    Wide(Short(DATA_VEC_OF_VARIANTS), SHORT) + (Wide(Uint32(ToUint32(|v|)), UINT32) + EncVariants(v))
  }

  function EncEvent(name: string, params: seq<Variant>): seq<Cell> {
    EncString(name) + EncParams(params)
  }

  // ---------------------------------------------------------------------- the record cell by cell

  /** A string stands behind its tag and its size, which counts the NUL. */
  lemma StringLayout(s: string)
    ensures var e := EncString(s);
      && |e| == 7 + |s| && e[0] == Short(2) && e[2] == Uint32((|s| + 1) % 0x1_0000_0000)
      && (forall i :: 0 <= i < |s| ==> e[6 + i] == Char(s[i])) && e[6 + |s|] == Char('\0')
  {
    var size := Wide(Uint32(ToUint32(|s| + 1)), UINT32);
    assert EncString(s)[2..] == size + Chars(s);
    assert EncString(s)[6..] == Chars(s);
    assert EncString(s)[2] == EncString(s)[2..][0];
    assert forall i :: 0 <= i <= |s| ==> EncString(s)[6 + i] == EncString(s)[6..][i];
  }

  /** Numbers stand behind their tags; a parameter without a kind takes no bytes. */
  lemma VariantLayout(v: Variant)
    ensures var e := EncVariant(v);
      match v
      case Undefined => e == []
      case Int(i) => |e| == 10 && e[0] == Short(1) && e[2] == Int64(i)
      case Double(d) => |e| == 10 && e[0] == Short(3) && e[2] == Real(d)
      case String(s) => e == EncString(s)
  {
  }

  /** The record of an event: its name, a tag, the number of parameters, and the parameters in their order. */
  lemma EventLayout(name: string, params: seq<Variant>)
    ensures var e, k := EncEvent(name, params), 7 + |name|;
      && k + 6 <= |e| && e[..k] == EncString(name)
      && e[k] == Short(4) && e[k + 2] == Uint32(|params| % 0x1_0000_0000)
      && e[k + 6..] == Flat(Parts(params), |params|)
  {
    var a, b := EncString(name), EncParams(params);
    StringLayout(name);
    ParamsLayout(params, b, EncVariants(params));
    assert forall i :: 0 <= i < |b| ==> (a + b)[|a| + i] == b[i];
    assert (a + b)[|a| + 6..] == b[6..];
  }

  lemma ParamsLayout(params: seq<Variant>, b: seq<Cell>, list: seq<Cell>)
    requires b == EncParams(params) && list == EncVariants(params)
    ensures 6 <= |b| && b[0] == Short(4) && b[2] == Uint32(|params| % 0x1_0000_0000) && b[6..] == list
  {
    var count := Wide(Uint32(ToUint32(|params|)), UINT32);
    assert b[2..] == count + list;
    assert b[2] == b[2..][0];
  }

  // ---------------------------------------------------------------------- writing

  /** At `at` the cells b are written, nothing else changed. */
  ghost predicate Wrote(before: seq<Cell>, after: seq<Cell>, at: nat, b: seq<Cell>) {
    |after| == |before| && at + |b| <= |after| && after == before[..at] + b + before[at + |b|..]
  }

  lemma WroteBoth(a: seq<Cell>, b: seq<Cell>, c: seq<Cell>, at: nat, x: seq<Cell>, z: seq<Cell>)
    requires Wrote(a, b, at, x) && Wrote(b, c, at + |x|, z)
    ensures Wrote(a, c, at, x + z)
  {
    assert c == a[..at] + (x + z) + a[at + |x + z|..];
  }

  method Put(data: array<Cell>, at: nat, b: seq<Cell>)
    requires at + |b| <= data.Length
    modifies data
    ensures Wrote(old(data[..]), data[..], at, b)
  {
    for i := 0 to |b|
      invariant forall k :: 0 <= k < data.Length ==> data[k] == if at <= k < at + i then b[k - at] else old(data[k])
    {
      data[at + i] := b[i];
    }
  }

  /** Writes a tag and what comes behind it, or only counts both. */
  method WriteTagged(data: array<Cell>, at: nat, tag: nat, b: seq<Cell>, write: bool) returns (r: nat)
    requires write ==> at + SHORT + |b| <= data.Length
    modifies data
    ensures r == SHORT + |b|
    ensures if write then Wrote(old(data[..]), data[..], at, Wide(Short(tag), SHORT) + b) else data[..] == old(data[..])
  {
    r := 0;
    if write {
      Put(data, at + r, Wide(Short(tag), SHORT));
    }
    r := r + SHORT;
    ghost var a := data[..];
    if write {
      Put(data, at + r, b);
      WroteBoth(old(data[..]), a, data[..], at, Wide(Short(tag), SHORT), b);
    }
    r := r + |b|;
  }

  method WriteString(data: array<Cell>, at: nat, s: string, write: bool) returns (r: nat)
    requires write ==> at + |EncString(s)| <= data.Length
    modifies data
    ensures r == |EncString(s)|
    ensures if write then Wrote(old(data[..]), data[..], at, EncString(s)) else data[..] == old(data[..])
  {
    r := WriteTagged(data, at, DATA_SZ, Wide(Uint32(ToUint32(|s| + 1)), UINT32) + Chars(s), write);
  }

  method WriteVariant(data: array<Cell>, at: nat, v: Variant, write: bool) returns (r: nat)
    requires write ==> at + |EncVariant(v)| <= data.Length
    modifies data
    ensures r == |EncVariant(v)|
    ensures if write then Wrote(old(data[..]), data[..], at, EncVariant(v)) else data[..] == old(data[..])
  {
    r := 0;
    if v.Int? {
      r := WriteTagged(data, at, DATA_INT64, Wide(Int64(v.iv), INT64), write);
    } else if v.Double? {
      r := WriteTagged(data, at, DATA_DOUBLE, Wide(Real(v.dv), DOUBLE), write);
    } else if v.String? {
      r := WriteString(data, at, v.sv, write);
    }
  }

  lemma {:induction false} FlatGrows(parts: seq<seq<Cell>>, n: nat, m: nat)
    requires n <= m <= |parts|
    ensures |Flat(parts, n)| <= |Flat(parts, m)|
    decreases m
  {
    if n < m {
      FlatGrows(parts, n, m - 1);
    }
  }

  method WriteVariants(data: array<Cell>, at: nat, v: seq<Variant>, write: bool) returns (r: nat)
    requires write ==> at + |EncVariants(v)| <= data.Length
    modifies data
    ensures r == |EncVariants(v)|
    ensures if write then Wrote(old(data[..]), data[..], at, EncVariants(v)) else data[..] == old(data[..])
  {
    ghost var parts := Parts(v);
    r := 0;
    for n := 0 to |v|
      invariant r == |Flat(parts, n)|
      invariant write ==> Wrote(old(data[..]), data[..], at, Flat(parts, n))
      invariant !write ==> data[..] == old(data[..])
    {
      FlatGrows(parts, n + 1, |v|);
      r := WriteOne(data, at, r, v[n], write, old(data[..]), Flat(parts, n), parts[n]);
    }
  }

  method WriteOne(data: array<Cell>, at: nat, r0: nat, v: Variant, write: bool, ghost before: seq<Cell>,
                  ghost done: seq<Cell>, ghost part: seq<Cell>)
    returns (r: nat)
    requires part == EncVariant(v) && r0 == |done|
    requires write ==> at + r0 + |part| <= data.Length && Wrote(before, data[..], at, done)
    modifies data
    ensures r == |done + part|
    ensures if write then Wrote(before, data[..], at, done + part) else data[..] == old(data[..])
  {
    var k := WriteVariant(data, at + r0, v, write);
    if write {
      WroteBoth(before, old(data[..]), data[..], at, done, part);
    }
    r := r0 + k;
  }

  method WriteParams(data: array<Cell>, at: nat, v: seq<Variant>, write: bool) returns (r: nat)
    requires write ==> at + |EncParams(v)| <= data.Length
    modifies data
    ensures r == |EncParams(v)|
    ensures if write then Wrote(old(data[..]), data[..], at, EncParams(v)) else data[..] == old(data[..])
  {
    var count := Wide(Uint32(ToUint32(|v|)), UINT32);
    r := WriteTagged(data, at, DATA_VEC_OF_VARIANTS, count, write);
    ghost var a := data[..];
    var k := WriteVariants(data, at + r, v, write);
    if write {
      WroteBoth(old(data[..]), a, data[..], at, Wide(Short(DATA_VEC_OF_VARIANTS), SHORT) + count, EncVariants(v));
      assert EncParams(v) == (Wide(Short(DATA_VEC_OF_VARIANTS), SHORT) + count) + EncVariants(v);
    }
    r := r + k;
  }

  /** Writes, or only counts, the bytes of an event; both give the same number. */
  method WriteEvent(data: array<Cell>, at: nat, name: string, params: seq<Variant>, write: bool) returns (r: nat)
    requires write ==> at + |EncEvent(name, params)| <= data.Length
    modifies data
    ensures r == |EncEvent(name, params)|
    ensures if write then Wrote(old(data[..]), data[..], at, EncEvent(name, params)) else data[..] == old(data[..])
  {
    r := WriteString(data, at, name, write);
    ghost var a := data[..];
    var k := WriteParams(data, at + r, params, write);
    if write {
      WroteBoth(old(data[..]), a, data[..], at, EncString(name), EncParams(params));
    }
    r := r + k;
  }

  // ---------------------------------------------------------------------- reading

  ghost predicate CellsAt(data: seq<Cell>, at: nat, b: seq<Cell>) {
    at + |b| <= |data| && data[at..at + |b|] == b
  }

  lemma CellsSplit(data: seq<Cell>, at: nat, x: seq<Cell>, z: seq<Cell>)
    requires CellsAt(data, at, x + z)
    ensures CellsAt(data, at, x) && CellsAt(data, at + |x|, z)
  {
    assert data[at..at + |x|] == data[at..at + |x + z|][..|x|];
    assert data[at + |x|..at + |x| + |z|] == data[at..at + |x + z|][|x|..];
  }

  lemma CellAt(data: seq<Cell>, at: nat, b: seq<Cell>, i: nat)
    requires CellsAt(data, at, b) && i < |b|
    ensures data[at + i] == b[i]
  {
    assert data[at..at + |b|][i] == b[i];
  }

  /** The characters from `at` up to a NUL. */
  method ReadChars(data: seq<Cell>, at: nat, ghost t: string) returns (s: string)
    requires NUL !in t && CellsAt(data, at, Chars(t))
    ensures s == t
  {
    s := "";
    CellAt(data, at, Chars(t), 0);
    while data[at + |s|] != Char(NUL)
      invariant |s| <= |t| && s == t[..|s|] && data[at + |s|] == Chars(t)[|s|]
      decreases |t| - |s|
    {
      s := s + [data[at + |s|].c];
      CellAt(data, at, Chars(t), |s|);
    }
  }

  /** Behind the tag of a string: its length is skipped, its characters are read up to a NUL. */
  method ReadString(data: seq<Cell>, at: nat, ghost t: string) returns (s: string, r: nat)
    requires NUL !in t && CellsAt(data, at, Wide(Uint32(ToUint32(|t| + 1)), UINT32) + Chars(t))
    ensures s == t && r == UINT32 + |t| + 1
  {
    CellsSplit(data, at, Wide(Uint32(ToUint32(|t| + 1)), UINT32), Chars(t));
    s := ReadChars(data, at + UINT32, t);
    r := UINT32 + |s| + 1;
  }

  /** A parameter without a kind is not written, so it cannot be read; a NUL ends a string. */
  predicate Readable(v: Variant) {
    !v.Undefined? && (v.String? ==> NUL !in v.sv)
  }

  function Tag(w: Variant): nat {
    if w.Int? then DATA_INT64 else if w.Double? then DATA_DOUBLE else DATA_SZ
  }

  /** What comes behind the tag of a parameter. */
  function Payload(w: Variant): seq<Cell>
    requires Readable(w)
  {
    if w.Int? then Wide(Int64(w.iv), INT64)
    else if w.Double? then Wide(Real(w.dv), DOUBLE)
    else Wide(Uint32(ToUint32(|w.sv| + 1)), UINT32) + Chars(w.sv)
  }

  lemma TagOf(data: seq<Cell>, at: nat, w: Variant)
    requires Readable(w) && CellsAt(data, at, EncVariant(w))
    ensures at + SHORT < |data| && data[at] == Short(Tag(w)) && CellsAt(data, at + SHORT, Payload(w))
    ensures data[at + SHORT] == Payload(w)[0] && |EncVariant(w)| == SHORT + |Payload(w)|
  {
    CellsSplit(data, at, Wide(Short(Tag(w)), SHORT), Payload(w));
    CellAt(data, at, Wide(Short(Tag(w)), SHORT), 0);
    CellAt(data, at + SHORT, Payload(w), 0);
  }

  method ReadVariant(data: seq<Cell>, at: nat, ghost w: Variant, ghost part: seq<Cell>) returns (v: Variant, r: nat)
    requires part == EncVariant(w) && Readable(w) && CellsAt(data, at, part)
    ensures v == w && r == |part|
  {
    TagOf(data, at, w);
    var what := data[at].n;
    r := SHORT;
    v := Undefined;
    if what == DATA_INT64 {
      v := Int(ToInt32(data[at + r].i));
      r := r + INT64;
    } else if what == DATA_DOUBLE {
      v := Double(data[at + r].d);
      r := r + DOUBLE;
    } else if what == DATA_SZ {
      var s, k := ReadString(data, at + r, w.sv);
      v := String(s);
      r := r + k;
    }
  }

  predicate AllReadable(v: seq<Variant>) {
    forall i :: 0 <= i < |v| ==> Readable(v[i])
  }

  /** The parameters behind their tag. */
  method ReadParams(data: seq<Cell>, at: nat, ghost w: seq<Variant>) returns (v: seq<Variant>, r: nat)
    requires |w| < TWO_TO_32 && AllReadable(w)
    requires CellsAt(data, at, Wide(Uint32(ToUint32(|w|)), UINT32) + EncVariants(w))
    ensures v == w && r == UINT32 + |EncVariants(w)|
  {
    CellsSplit(data, at, Wide(Uint32(ToUint32(|w|)), UINT32), EncVariants(w));
    CellAt(data, at, Wide(Uint32(ToUint32(|w|)), UINT32), 0);
    var len := data[at].u;
    v, r := ReadVariants(data, at + UINT32, len, EncodedData(w, Parts(w)));
    r := UINT32 + r;
  }

  /** Parameters with their bytes. */
  datatype EncodedData = EncodedData(w: seq<Variant>, parts: seq<seq<Cell>>)

  type Encoded = x: EncodedData | |x.parts| == |x.w|
    && forall i {:trigger x.parts[i]} :: 0 <= i < |x.w| ==> x.parts[i] == EncVariant(x.w[i])
    witness EncodedData([], [])

  method ReadVariants(data: seq<Cell>, at: nat, len: nat, ghost x: Encoded) returns (v: seq<Variant>, r: nat)
    requires len == |x.w| && AllReadable(x.w) && CellsAt(data, at, Flat(x.parts, len))
    ensures v == x.w && r == |Flat(x.parts, len)|
  {
    v, r := [], 0;
    for i := 0 to len
      invariant ReadTo(x, i, v, r)
    {
      v, r := ReadNext(data, at, v, r, i, x);
    }
    assert x.w[..len] == x.w;
  }

  /** The first i parameters have been read. */
  ghost predicate ReadTo(x: Encoded, i: nat, v: seq<Variant>, r: nat) {
    i <= |x.w| && v == x.w[..i] && r == |Flat(x.parts, i)|
  }

  lemma FirstOnes<T>(s: seq<T>, i: nat)
    requires i < |s|
    ensures s[..i + 1] == s[..i] + [s[i]]
  {
  }

  method ReadNext(data: seq<Cell>, at: nat, v0: seq<Variant>, r0: nat, ghost i: nat, ghost x: Encoded)
    returns (v: seq<Variant>, r: nat)
    requires i < |x.w| && AllReadable(x.w) && ReadTo(x, i, v0, r0) && CellsAt(data, at, Flat(x.parts, |x.w|))
    ensures ReadTo(x, i + 1, v, r)
  {
    ghost var part := x.parts[i];
    PartAt(data, at, x.parts, i, |x.w|);
    var w;
    w, r := ReadVariant(data, at + r0, x.w[i], part);
    assert Flat(x.parts, i + 1) == Flat(x.parts, i) + part;
    FirstOnes(x.w, i);
    v, r := v0 + [w], r0 + r;
  }

  lemma {:induction false} PartAt(data: seq<Cell>, at: nat, parts: seq<seq<Cell>>, i: nat, n: nat)
    requires i < n <= |parts| && CellsAt(data, at, Flat(parts, n))
    ensures CellsAt(data, at + |Flat(parts, i)|, parts[i])
    decreases n
  {
    CellsSplit(data, at, Flat(parts, n - 1), parts[n - 1]);
    if i < n - 1 {
      PartAt(data, at, parts, i, n - 1);
    }
  }

  lemma EventParts(data: seq<Cell>, name: string, params: seq<Variant>, k: nat)
    requires CellsAt(data, 0, EncEvent(name, params)) && k == SHORT + UINT32 + |name| + 1
    ensures CellsAt(data, SHORT, Wide(Uint32(ToUint32(|name| + 1)), UINT32) + Chars(name))
    ensures CellsAt(data, k + SHORT, Wide(Uint32(ToUint32(|params|)), UINT32) + EncVariants(params))
    ensures |EncEvent(name, params)| == k + SHORT + UINT32 + |EncVariants(params)|
  {
    CellsSplit(data, 0, EncString(name), EncParams(params));
    StringSize(name);
    NamePart(data, name, EncString(name));
    ParamsPart(data, k, params, EncParams(params));
  }

  lemma StringSize(s: string)
    ensures |EncString(s)| == SHORT + UINT32 + |s| + 1
  {
  }

  lemma NamePart(data: seq<Cell>, name: string, a: seq<Cell>)
    requires a == EncString(name) && CellsAt(data, 0, a)
    ensures CellsAt(data, SHORT, Wide(Uint32(ToUint32(|name| + 1)), UINT32) + Chars(name))
    ensures |a| == SHORT + UINT32 + |name| + 1
  {
    var tag, text := Wide(Short(DATA_SZ), SHORT), Wide(Uint32(ToUint32(|name| + 1)), UINT32) + Chars(name);
    assert a == tag + text;
    CellsSplit(data, 0, tag, text);
  }

  lemma ParamsPart(data: seq<Cell>, at: nat, params: seq<Variant>, b: seq<Cell>)
    requires b == EncParams(params) && CellsAt(data, at, b)
    ensures CellsAt(data, at + SHORT, Wide(Uint32(ToUint32(|params|)), UINT32) + EncVariants(params))
    ensures |b| == SHORT + UINT32 + |EncVariants(params)|
  {
    var tag, list :=
      Wide(Short(DATA_VEC_OF_VARIANTS), SHORT), Wide(Uint32(ToUint32(|params|)), UINT32) + EncVariants(params);
    assert b == tag + list;
    CellsSplit(data, at, tag, list);
  }

  /** Reading the record of an event gives back its name and its parameters, and takes all of its bytes. */
  method ReadEvent(data: seq<Cell>, ghost name: string, ghost params: seq<Variant>)
    returns (ok: bool, evName: string, evParams: seq<Variant>, r: nat)
    requires NUL !in name && |params| < TWO_TO_32 && AllReadable(params)
    requires CellsAt(data, 0, EncEvent(name, params))
    ensures ok && evName == name && evParams == params && r == |EncEvent(name, params)|
  {
    EventParts(data, name, params, SHORT + UINT32 + |name| + 1);
    r := SHORT;
    var k;
    evName, k := ReadString(data, r, name);
    r := r + k + SHORT;
    evParams, k := ReadParams(data, r, params);
    r := r + k;
    ok := r != 0;
  }

  /** Records an event and reads it back. */
  method RecordAndReplay(name: string, params: seq<Variant>) returns (evName: string, evParams: seq<Variant>)
    requires NUL !in name && |params| < TWO_TO_32 && AllReadable(params)
    ensures evName == name && evParams == params
  {
    var none := new Cell[0];
    var len := WriteEvent(none, 0, name, params, false);
    var data := new Cell[len](_ => Later);
    var written := WriteEvent(data, 0, name, params, true);
    var ok, r;
    ok, evName, evParams, r := ReadEvent(data[..], name, params);
  }
}
