/** Frame patterns: a tree of typed fields is written to, sized for, and read back from a frame. */
module FramePatterns {
  import opened Frames

  datatype Leaf = Any | Number(value: Word) | State(name: string)

  /** Bits of a field, and whether reading it extends a sign. */
  datatype Format = Format(width: nat, signed: bool)

  /** What leaves outside of all types are written and read as, and what they are sized as. */
  const LONG := Format(64, true)
  const UNSIZED := Format(0, true)

  /** What the name of a struct means: a section that only one direction uses, a type, or nothing. */
  datatype Tag = In | Out | Type(format: Format) | Plain

  datatype Pattern = Leaf(leaf: Leaf) | Struct(tag: Tag, parts: seq<Pattern>)

  datatype Direction = Writing | Reading

  type States = map<string, Word>

  datatype Field = Field(format: Format, leaf: Leaf) {
    const width: nat := format.width
  }

  predicate Skipped(tag: Tag, dir: Direction) {
    (tag.In? && dir.Writing?) || (tag.Out? && dir.Reading?)
  }

  function FormatIn(tag: Tag, w: Format): Format {
    if tag.Type? then tag.format else w
  }

  /** The fields of a pattern in their order; a leaf outside of all types has format w. */
  function Fields(p: Pattern, w: Format, dir: Direction): seq<Field>
    decreases p
  {
    match p
    case Leaf(l) => [Field(w, l)]
    case Struct(tag, parts) => if Skipped(tag, dir) then [] else FieldsTo(p, |parts|, FormatIn(tag, w), dir)
  }

  /** The fields of the first n parts. */
  function FieldsTo(p: Pattern, n: nat, w: Format, dir: Direction): seq<Field>
    requires p.Struct? && n <= |p.parts|
    decreases p, n
  {
    if n == 0 then [] else FieldsTo(p, n - 1, w, dir) + Fields(p.parts[n - 1], w, dir)
  }

  function Total(fs: seq<Field>): nat {
    if fs == [] then 0 else fs[0].width + Total(fs[1..])
  }

  lemma {:induction false} TotalAppend(fs: seq<Field>, gs: seq<Field>)
    ensures Total(fs + gs) == Total(fs) + Total(gs)
  {
    if fs == [] {
      assert fs + gs == gs;
    } else {
      assert (fs + gs)[1..] == fs[1..] + gs;
      TotalAppend(fs[1..], gs);
    }
  }

  // ---------------------------------------------------------------------- fields by their place in the pattern

  /** From p the path leads to leaf l, through structs with these tags, the outermost first. */
  ghost predicate Leads(p: Pattern, path: seq<nat>, tags: seq<Tag>, l: Leaf)
    decreases p
  {
    match p
    case Leaf(m) => path == [] && tags == [] && l == m
    case Struct(tag, parts) =>
      && path != [] && tags != [] && path[0] < |parts| && tags[0] == tag
      && Leads(parts[path[0]], path[1..], tags[1..], l)
  }

  /** No struct on the way is used in the other direction only. */
  ghost predicate Used(tags: seq<Tag>, dir: Direction) {
    forall k :: 0 <= k < |tags| ==> !(tags[k].In? && dir.Writing?) && !(tags[k].Out? && dir.Reading?)
  }

  /** The format of the innermost type on the way, and w if there is none. */
  ghost predicate Innermost(tags: seq<Tag>, w: Format, f: Format) {
    || (exists k :: 0 <= k < |tags| && tags[k] == Type(f) && forall l :: k < l < |tags| ==> !tags[l].Type?)
    || (f == w && forall k :: 0 <= k < |tags| ==> !tags[k].Type?)
  }

  /** Path a is to the left of path b. */
  ghost predicate Before(a: seq<nat>, b: seq<nat>)
    decreases |a|
  {
    a != [] && b != [] && (a[0] < b[0] || (a[0] == b[0] && Before(a[1..], b[1..])))
  }

  /** The path leads to the leaf of f, and its innermost type gives f its format. */
  ghost predicate PlaceOf(p: Pattern, w: Format, dir: Direction, path: seq<nat>, f: Field) {
    exists tags :: Leads(p, path, tags, f.leaf) && Used(tags, dir) && Innermost(tags, w, f.format)
  }

  ghost predicate Ordered(paths: seq<seq<nat>>) {
    forall i, j :: 0 <= i < j < |paths| ==> Before(paths[i], paths[j])
  }

  ghost predicate PlacedAt(p: Pattern, w: Format, dir: Direction, fs: seq<Field>, paths: seq<seq<nat>>) {
    |paths| == |fs| && forall i :: 0 <= i < |fs| ==> PlaceOf(p, w, dir, paths[i], fs[i])
  }

  /** No leaf in use is missing. */
  ghost predicate AllPlaces(p: Pattern, dir: Direction, paths: seq<seq<nat>>) {
    forall path, tags, l :: Leads(p, path, tags, l) && Used(tags, dir) ==> path in paths
  }

  /** fs are the fields at these paths, from left to right, and no leaf in use is missing. */
  ghost predicate Places(p: Pattern, w: Format, dir: Direction, fs: seq<Field>, paths: seq<seq<nat>>) {
    PlacedAt(p, w, dir, fs, paths) && Ordered(paths) && AllPlaces(p, dir, paths)
  }

  /** The fields are the leaves in use, from left to right, each with the format of the innermost type around it. */
  ghost predicate LaidOut(p: Pattern, w: Format, dir: Direction, fs: seq<Field>) {
    exists paths :: Places(p, w, dir, fs, paths)
  }

  /** The paths lead into the first n parts of a struct... */
  ghost predicate Left(paths: seq<seq<nat>>, n: nat) {
    forall i :: 0 <= i < |paths| ==> paths[i] != [] && paths[i][0] < n
  }

  /** ...and none of those is missing. */
  ghost predicate AllPlacesTo(p: Pattern, n: nat, dir: Direction, paths: seq<seq<nat>>) {
    forall path, tags, l :: Leads(p, path, tags, l) && Used(tags, dir) && path != [] && path[0] < n ==> path in paths
  }

  lemma {:induction false} FieldsPlaced(p: Pattern, w: Format, dir: Direction) returns (paths: seq<seq<nat>>)
    ensures Places(p, w, dir, Fields(p, w, dir), paths)
    decreases p
  {
    match p
    case Leaf(l) =>
      paths := [[]];
      assert Leads(p, [], [], l);
    case Struct(tag, parts) =>
      if Skipped(tag, dir) {
        paths := [];
        forall path, tags, l | Leads(p, path, tags, l)
          ensures !Used(tags, dir)
        {
          assert tags[0] == tag;
        }
      } else {
        paths := PartsPlaced(p, |parts|, w, dir);
      }
  }

  lemma {:induction false} PartsPlaced(p: Pattern, n: nat, w: Format, dir: Direction) returns (paths: seq<seq<nat>>)
    requires p.Struct? && !Skipped(p.tag, dir) && n <= |p.parts|
    ensures PlacedAt(p, w, dir, FieldsTo(p, n, FormatIn(p.tag, w), dir), paths)
    ensures Ordered(paths) && Left(paths, n) && AllPlacesTo(p, n, dir, paths)
    decreases p, n
  {
    if n == 0 {
      paths := [];
    } else {
      var left := PartsPlaced(p, n - 1, w, dir);
      var part := FieldsPlaced(p.parts[n - 1], FormatIn(p.tag, w), dir);
      paths := left + Below(n - 1, part);
      PartPlaced(p, n - 1, w, dir, FieldsTo(p, n - 1, FormatIn(p.tag, w), dir), left,
        Fields(p.parts[n - 1], FormatIn(p.tag, w), dir), part);
      PartOrdered(left, n - 1, part);
      PartComplete(p, n - 1, dir, left, part);
    }
  }

  /** A path below part m, seen from the struct. */
  lemma PlaceBelow(p: Pattern, m: nat, w: Format, dir: Direction, path: seq<nat>, f: Field)
    requires p.Struct? && !Skipped(p.tag, dir) && m < |p.parts|
    requires PlaceOf(p.parts[m], FormatIn(p.tag, w), dir, path, f)
    ensures PlaceOf(p, w, dir, [m] + path, f)
  {
    var tags: seq<Tag> :| Leads(p.parts[m], path, tags, f.leaf) && Used(tags, dir)
      && Innermost(tags, FormatIn(p.tag, w), f.format);
    var tags' := [p.tag] + tags;
    assert ([m] + path)[1..] == path && tags'[1..] == tags;
    assert Leads(p, [m] + path, tags', f.leaf);
    if k :| 0 <= k < |tags| && tags[k] == Type(f.format) && forall l :: k < l < |tags| ==> !tags[l].Type? {
      assert tags'[k + 1] == Type(f.format) && forall l :: k + 1 < l < |tags'| ==> !tags'[l].Type?;
    } else {
      assert forall k :: 0 < k < |tags'| ==> !tags'[k].Type?;
      assert tags'[0] == p.tag;
    }
  }

  function Below(m: nat, paths: seq<seq<nat>>): (r: seq<seq<nat>>)
    ensures |r| == |paths| && forall i :: 0 <= i < |r| ==> r[i] == [m] + paths[i]
  {
    seq(|paths|, i requires 0 <= i < |paths| => [m] + paths[i])
  }

  lemma PartPlaced(p: Pattern, m: nat, w: Format, dir: Direction, fs: seq<Field>, left: seq<seq<nat>>, gs: seq<Field>,
                   part: seq<seq<nat>>)
    requires p.Struct? && !Skipped(p.tag, dir) && m < |p.parts|
    requires PlacedAt(p, w, dir, fs, left) && PlacedAt(p.parts[m], FormatIn(p.tag, w), dir, gs, part)
    ensures PlacedAt(p, w, dir, fs + gs, left + Below(m, part))
  {
    forall i | 0 <= i < |gs|
      ensures PlaceOf(p, w, dir, Below(m, part)[i], gs[i])
    {
      PlaceBelow(p, m, w, dir, part[i], gs[i]);
    }
  }

  lemma PartOrdered(left: seq<seq<nat>>, m: nat, part: seq<seq<nat>>)
    requires Ordered(left) && Left(left, m) && Ordered(part)
    ensures Ordered(left + Below(m, part)) && Left(left + Below(m, part), m + 1)
  {
    forall a: seq<nat>, b: seq<nat> | Before(a, b)
      ensures Before([m] + a, [m] + b)
    {
      assert ([m] + a)[1..] == a && ([m] + b)[1..] == b;
    }
  }

  lemma PartComplete(p: Pattern, m: nat, dir: Direction, left: seq<seq<nat>>, part: seq<seq<nat>>)
    requires p.Struct? && m < |p.parts| && AllPlacesTo(p, m, dir, left) && AllPlaces(p.parts[m], dir, part)
    ensures AllPlacesTo(p, m + 1, dir, left + Below(m, part))
  {
    forall path, tags, l | Leads(p, path, tags, l) && Used(tags, dir) && path != [] && path[0] < m + 1
      ensures path in left + Below(m, part)
    {
      if path[0] == m {
        assert Leads(p.parts[m], path[1..], tags[1..], l) && Used(tags[1..], dir);
        var i :| 0 <= i < |part| && part[i] == path[1..];
        assert Below(m, part)[i] == [m] + path[1..] == path;
      }
    }
  }

  /** What is written and read are the leaves of the pattern that are in use, from left to right, each with the format
      of the innermost type around it, and w where there is none. */
  lemma FieldsLaidOut(p: Pattern, w: Format, dir: Direction)
    ensures LaidOut(p, w, dir, Fields(p, w, dir))
  {
    var paths := FieldsPlaced(p, w, dir);
  }

  lemma {:induction false} BeforeOnce(a: seq<nat>, b: seq<nat>)
    requires Before(a, b)
    ensures !Before(b, a) && a != b
    decreases |a|
  {
    if a[0] == b[0] {
      BeforeOnce(a[1..], b[1..]);
    }
  }

  lemma {:induction false} OrderedUnique(a: seq<seq<nat>>, b: seq<seq<nat>>)
    requires Ordered(a) && Ordered(b) && forall q :: q in a <==> q in b
    ensures a == b
    decreases |a|
  {
    assert (a != [] ==> a[0] in a) && (b != [] ==> b[0] in b);
    if a != [] && b != [] {
      assert a[0] in b && b[0] in a;
      FirstOfOrdered(a, b);
      forall q
        ensures q in a[1..] <==> q in b[1..]
      {
        RestOfOrdered(a, q);
        RestOfOrdered(b, q);
      }
      OrderedUnique(a[1..], b[1..]);
      assert a == [a[0]] + a[1..] && b == [b[0]] + b[1..];
    }
  }

  lemma FirstOfOrdered(a: seq<seq<nat>>, b: seq<seq<nat>>)
    requires Ordered(a) && Ordered(b) && a != [] && b != [] && a[0] in b && b[0] in a
    ensures a[0] == b[0]
  {
    if a[0] != b[0] {
      assert Before(a[0], b[0]) && Before(b[0], a[0]);
      BeforeOnce(a[0], b[0]);
    }
  }

  lemma RestOfOrdered(a: seq<seq<nat>>, q: seq<nat>)
    requires Ordered(a) && a != []
    ensures q in a[1..] <==> q in a && q != a[0]
  {
    if q in a[1..] {
      var i :| 0 <= i < |a[1..]| && a[1..][i] == q;
      assert Before(a[0], a[i + 1]);
      BeforeOnce(a[0], q);
    }
  }

  lemma {:induction false} LeadsUnique(p: Pattern, path: seq<nat>, a: seq<Tag>, l: Leaf, b: seq<Tag>, m: Leaf)
    requires Leads(p, path, a, l) && Leads(p, path, b, m)
    ensures a == b && l == m
    decreases p
  {
    if p.Struct? {
      LeadsUnique(p.parts[path[0]], path[1..], a[1..], l, b[1..], m);
      assert a == [a[0]] + a[1..] && b == [b[0]] + b[1..];
    }
  }

  lemma InnermostUnique(tags: seq<Tag>, w: Format, f: Format, g: Format)
    requires Innermost(tags, w, f) && Innermost(tags, w, g)
    ensures f == g
  {
  }

  lemma PlaceUnique(p: Pattern, w: Format, dir: Direction, path: seq<nat>, f: Field, g: Field)
    requires PlaceOf(p, w, dir, path, f) && PlaceOf(p, w, dir, path, g)
    ensures f == g
  {
    var a :| Leads(p, path, a, f.leaf) && Used(a, dir) && Innermost(a, w, f.format);
    var b :| Leads(p, path, b, g.leaf) && Used(b, dir) && Innermost(b, w, g.format);
    LeadsUnique(p, path, a, f.leaf, b, g.leaf);
    InnermostUnique(a, w, f.format, g.format);
  }

  lemma PlacesCover(p: Pattern, w: Format, dir: Direction, fs: seq<Field>, a: seq<seq<nat>>, b: seq<seq<nat>>)
    requires PlacedAt(p, w, dir, fs, a) && AllPlaces(p, dir, b)
    ensures forall q :: q in a ==> q in b
  {
    forall q | q in a
      ensures q in b
    {
      var i :| 0 <= i < |a| && a[i] == q;
      assert PlaceOf(p, w, dir, q, fs[i]);
    }
  }

  /** The pattern determines the fields. */
  lemma LaidOutUnique(p: Pattern, w: Format, dir: Direction, fs: seq<Field>, gs: seq<Field>)
    requires LaidOut(p, w, dir, fs) && LaidOut(p, w, dir, gs)
    ensures fs == gs
  {
    var a :| Places(p, w, dir, fs, a);
    var b :| Places(p, w, dir, gs, b);
    PlacesCover(p, w, dir, fs, a, b);
    PlacesCover(p, w, dir, gs, b, a);
    OrderedUnique(a, b);
    forall i | 0 <= i < |fs|
      ensures fs[i] == gs[i]
    {
      PlaceUnique(p, w, dir, a[i], fs[i], gs[i]);
    }
  }

  predicate Writable(fs: seq<Field>) {
    forall i :: 0 <= i < |fs| ==> 1 <= fs[i].width <= 64
  }

  // ---------------------------------------------------------------------- writing

  /** A leaf has something to write: a number, or a system state with a value. */
  predicate HasValue(l: Leaf, env: States) {
    l.Number? || (l.State? && l.name in env)
  }

  function Value(l: Leaf, env: States): Word
    requires HasValue(l, env)
  {
    if l.Number? then l.value else env[l.name]
  }

  /** From bit off on the frame holds the fields one after the other. */
  ghost predicate Written(data: seq<Byte>, off: nat, fs: seq<Field>, env: States)
    requires Writable(fs) && off + Total(fs) <= 8 * |data|
    decreases |fs|
  {
    fs == []
    || ((HasValue(fs[0].leaf, env) ==> FieldAt(data, off, fs[0].width, Value(fs[0].leaf, env)))
        && Written(data, off + fs[0].width, fs[1..], env))
  }

  lemma {:induction false} WrittenAppend(data: seq<Byte>, off: nat, fs: seq<Field>, gs: seq<Field>, env: States)
    requires Writable(fs) && Writable(gs) && off + Total(fs) + Total(gs) <= 8 * |data|
    requires Written(data, off, fs, env) && Written(data, off + Total(fs), gs, env)
    ensures Total(fs + gs) == Total(fs) + Total(gs) && Written(data, off, fs + gs, env)
    decreases |fs|
  {
    if fs == [] {
      assert fs + gs == gs;
    } else {
      assert (fs + gs)[1..] == fs[1..] + gs;
      WrittenAppend(data, off + fs[0].width, fs[1..], gs, env);
    }
  }

  /** What was written stays as long as only bits after it change. */
  lemma {:induction false} WrittenStays(a: seq<Byte>, b: seq<Byte>, off: nat, fs: seq<Field>, env: States)
    requires |a| == |b| && Writable(fs) && off + Total(fs) <= 8 * |a|
    requires Written(a, off, fs, env) && SameBelow(b, a, off + Total(fs))
    ensures Written(b, off, fs, env)
    decreases |fs|
  {
    if fs != [] {
      if HasValue(fs[0].leaf, env) {
        forall i | 0 <= i < fs[0].width
          ensures Bit(b, off + i) == FieldBit(Value(fs[0].leaf, env), fs[0].width, i)
        {
          assert Bit(a, off + i) == FieldBit(Value(fs[0].leaf, env), fs[0].width, i);
        }
      }
      WrittenStays(a, b, off + fs[0].width, fs[1..], env);
    }
  }

  /** What that means for one field: a number, and a system state that has a value, stand in the bits behind the fields
      before it. */
  lemma {:induction false} WrittenField(data: seq<Byte>, off: nat, fs: seq<Field>, env: States, i: nat)
    requires Writable(fs) && off + Total(fs) <= 8 * |data| && Written(data, off, fs, env) && i < |fs|
    ensures off + Total(fs[..i]) + fs[i].width <= off + Total(fs)
    ensures fs[i].leaf.Number? ==> FieldAt(data, off + Total(fs[..i]), fs[i].width, fs[i].leaf.value)
    ensures fs[i].leaf.State? && fs[i].leaf.name in env ==>
      FieldAt(data, off + Total(fs[..i]), fs[i].width, env[fs[i].leaf.name])
    decreases i
  {
    if i > 0 {
      WrittenField(data, off + fs[0].width, fs[1..], env, i - 1);
      assert fs[..i] == [fs[0]] + fs[1..][..i - 1];
      assert fs[..i][1..] == fs[1..][..i - 1];
    }
  }

  /** Each number, and each system state that has a value, stands in the bits behind the fields before it. */
  ghost predicate FieldsStand(data: seq<Byte>, fs: seq<Field>, env: States) {
    forall i {:trigger fs[i]} :: 0 <= i < |fs| ==>
      var off, w := Total(fs[..i]), fs[i].width;
      && 1 <= w <= 64 && off + w <= 8 * |data|
      && (fs[i].leaf.Number? ==> FieldAt(data, off, w, fs[i].leaf.value))
      && (fs[i].leaf.State? && fs[i].leaf.name in env ==> FieldAt(data, off, w, env[fs[i].leaf.name]))
  }

  lemma AllWritten(data: seq<Byte>, fs: seq<Field>, env: States)
    requires Writable(fs) && Total(fs) <= 8 * |data| && Written(data, 0, fs, env)
    ensures FieldsStand(data, fs, env)
  {
    forall i | 0 <= i < |fs|
      ensures Total(fs[..i]) + fs[i].width <= 8 * |data|
      ensures fs[i].leaf.Number? ==> FieldAt(data, Total(fs[..i]), fs[i].width, fs[i].leaf.value)
      ensures fs[i].leaf.State? && fs[i].leaf.name in env ==>
        FieldAt(data, Total(fs[..i]), fs[i].width, env[fs[i].leaf.name])
    {
      WrittenField(data, 0, fs, env, i);
    }
  }

  lemma WritableAppend(fs: seq<Field>, gs: seq<Field>)
    ensures Writable(fs + gs) <==> Writable(fs) && Writable(gs)
  {
    assert forall j :: 0 <= j < |fs| ==> (fs + gs)[j] == fs[j];
    assert forall j :: 0 <= j < |gs| ==> (fs + gs)[|fs| + j] == gs[j];
  }

  lemma {:induction false} FirstParts(p: Pattern, i: nat, n: nat, w: Format, dir: Direction)
    requires p.Struct? && i <= n <= |p.parts|
    ensures FieldsTo(p, i, w, dir) <= FieldsTo(p, n, w, dir)
    decreases n
  {
    if i < n {
      FirstParts(p, i, n - 1, w, dir);
    }
  }

  /** Part i starts after the parts before it and ends within the whole. */
  lemma PartWithin(p: Pattern, i: nat, w: Format, dir: Direction)
    requires p.Struct? && i < |p.parts|
    ensures var fs, all := Fields(p.parts[i], w, dir), FieldsTo(p, |p.parts|, w, dir);
      && Total(FieldsTo(p, i + 1, w, dir)) == Total(FieldsTo(p, i, w, dir)) + Total(fs) <= Total(all)
      && (Writable(all) ==> Writable(fs) && Writable(FieldsTo(p, i, w, dir)) && Writable(FieldsTo(p, i + 1, w, dir)))
  {
    var done, fs, next, all :=
      FieldsTo(p, i, w, dir), Fields(p.parts[i], w, dir), FieldsTo(p, i + 1, w, dir), FieldsTo(p, |p.parts|, w, dir);
    TotalAppend(done, fs);
    WritableAppend(done, fs);
    FirstParts(p, i + 1, |p.parts|, w, dir);
    assert all == next + all[|next|..];
    TotalAppend(next, all[|next|..]);
    WritableAppend(next, all[|next|..]);
  }

  /** The effect of writing fs at bit off on a frame. */
  ghost predicate Wrote(before: seq<Byte>, after: seq<Byte>, off: nat, fs: seq<Field>, env: States)
    requires Writable(fs) && off + Total(fs) <= 8 * |after|
  {
    && |before| == |after|
    && SameBelow(after, before, off)
    && Written(after, off, fs, env)
    && SameBytesFrom(after, before, (off + Total(fs) + 7) / 8)
  }

  lemma WroteBoth(a: seq<Byte>, b: seq<Byte>, c: seq<Byte>, off: nat, fs: seq<Field>, gs: seq<Field>, env: States)
    requires Writable(fs) && Writable(gs) && |a| == |b| == |c| && off + Total(fs) + Total(gs) <= 8 * |a|
    requires Wrote(a, b, off, fs, env) && Wrote(b, c, off + Total(fs), gs, env)
    ensures Total(fs + gs) == Total(fs) + Total(gs) && Wrote(a, c, off, fs + gs, env)
  {
    Sandwich(a, b, c, off, off + Total(fs));
    WrittenStays(b, c, off, fs, env);
    WrittenAppend(c, off, fs, gs, env);
  }

  /** Writes a pattern from bit off on, or only counts its bits. */
  method FillRawChunk(p: Pattern, data: array<Byte>, off: nat, w: Format, env: States, writeData: bool)
    returns (bits: nat)
    requires writeData ==> Writable(Fields(p, w, Writing)) && off + Total(Fields(p, w, Writing)) <= 8 * data.Length
    modifies data
    ensures bits == Total(Fields(p, w, Writing))
    ensures if writeData then Wrote(old(data[..]), data[..], off, Fields(p, w, Writing), env)
      else data[..] == old(data[..])
    decreases p
  {
    match p
    case Leaf(l) =>
      if writeData && HasValue(l, env) {
        assert Fields(p, w, Writing)[0].width == w.width;
        WriteField(data, off, w.width, Value(l, env));
      }
      return w.width;
    case Struct(tag, parts) =>
      if tag.In? {
        return 0;
      }
      bits := FillParts(p, data, off, FormatIn(tag, w), env, writeData);
  }

  method FillParts(p: Pattern, data: array<Byte>, off: nat, w: Format, env: States, writeData: bool) returns (bits: nat)
    requires p.Struct?
    requires writeData ==>
      Writable(FieldsTo(p, |p.parts|, w, Writing)) && off + Total(FieldsTo(p, |p.parts|, w, Writing)) <= 8 * data.Length
    modifies data
    ensures bits == Total(FieldsTo(p, |p.parts|, w, Writing))
    ensures if writeData then Wrote(old(data[..]), data[..], off, FieldsTo(p, |p.parts|, w, Writing), env)
      else data[..] == old(data[..])
    decreases p, 1
  {
    bits := 0;
    var i := 0;
    while i < |p.parts|
      invariant i <= |p.parts| && bits == Total(FieldsTo(p, i, w, Writing))
      invariant writeData ==> Filled(p, i, old(data[..]), data[..], off, w, env)
      invariant !writeData ==> data[..] == old(data[..])
    {
      bits := FillPart(p, i, data, off, w, env, writeData, bits, old(data[..]));
      i := i + 1;
    }
  }

  /** The first n parts are written. */
  ghost predicate Filled(p: Pattern, n: nat, before: seq<Byte>, after: seq<Byte>, off: nat, w: Format, env: States)
    requires p.Struct? && n <= |p.parts|
  {
    var fs := FieldsTo(p, n, w, Writing);
    Writable(fs) && off + Total(fs) <= 8 * |after| && Wrote(before, after, off, fs, env)
  }

  /** Writes part i behind the parts before it. */
  method FillPart(p: Pattern, i: nat, data: array<Byte>, off: nat, w: Format, env: States, writeData: bool, bits0: nat,
                  ghost before: seq<Byte>)
    returns (bits: nat)
    requires p.Struct? && i < |p.parts| && bits0 == Total(FieldsTo(p, i, w, Writing))
    requires writeData ==> Filled(p, i, before, data[..], off, w, env)
    requires writeData ==>
      Writable(FieldsTo(p, |p.parts|, w, Writing)) && off + Total(FieldsTo(p, |p.parts|, w, Writing)) <= 8 * data.Length
    modifies data
    ensures bits == Total(FieldsTo(p, i + 1, w, Writing))
    ensures if writeData then Filled(p, i + 1, before, data[..], off, w, env) else data[..] == old(data[..])
    decreases p, 0
  {
    PartWithin(p, i, w, Writing);
    var rr := FillRawChunk(p.parts[i], data, off + bits0, w, env, writeData);
    if writeData {
      WroteBoth(before, old(data[..]), data[..], off, FieldsTo(p, i, w, Writing), Fields(p.parts[i], w, Writing), env);
    }
    bits := bits0 + rr;
  }

  // ---------------------------------------------------------------------- sizing

  /** No leaf stands outside of all types. */
  predicate Typed(p: Pattern)
    decreases p
  {
    match p
    case Leaf(_) => false
    case Struct(tag, parts) => tag.In? || tag.Type? || TypedTo(p, |parts|)
  }

  predicate TypedTo(p: Pattern, n: nat)
    requires p.Struct? && n <= |p.parts|
    decreases p, n
  {
    n == 0 || (TypedTo(p, n - 1) && Typed(p.parts[n - 1]))
  }

  /** The sizing pass gives leaves outside of types no bits, writing gives them 64; without such leaves both see the
      same fields. */
  lemma {:induction false} SizeFitsIffTyped(p: Pattern)
    ensures if Typed(p) then Total(Fields(p, UNSIZED, Writing)) == Total(Fields(p, LONG, Writing))
            else Total(Fields(p, UNSIZED, Writing)) + 64 <= Total(Fields(p, LONG, Writing))
    ensures Typed(p) ==> Fields(p, UNSIZED, Writing) == Fields(p, LONG, Writing)
    decreases p
  {
    match p
    case Leaf(l) =>
      assert Fields(p, UNSIZED, Writing)[1..] == [] == Fields(p, LONG, Writing)[1..];
    case Struct(tag, parts) =>
      if !tag.In? && !tag.Type? {
        PartsSizeFitsIffTyped(p, |parts|);
      }
  }

  lemma {:induction false} PartsSizeFitsIffTyped(p: Pattern, n: nat)
    requires p.Struct? && n <= |p.parts|
    ensures if TypedTo(p, n) then Total(FieldsTo(p, n, UNSIZED, Writing)) == Total(FieldsTo(p, n, LONG, Writing))
            else Total(FieldsTo(p, n, UNSIZED, Writing)) + 64 <= Total(FieldsTo(p, n, LONG, Writing))
    ensures TypedTo(p, n) ==> FieldsTo(p, n, UNSIZED, Writing) == FieldsTo(p, n, LONG, Writing)
    decreases p, n
  {
    if n > 0 {
      PartsSizeFitsIffTyped(p, n - 1);
      SizeFitsIffTyped(p.parts[n - 1]);
      TotalAppend(FieldsTo(p, n - 1, UNSIZED, Writing), Fields(p.parts[n - 1], UNSIZED, Writing));
      TotalAppend(FieldsTo(p, n - 1, LONG, Writing), Fields(p.parts[n - 1], LONG, Writing));
    }
  }

  /** Bytes of the frame made for a pattern. */
  function FrameSize(p: Pattern): nat {
    (Total(Fields(p, UNSIZED, Writing)) + 7) / 8
  }

  /** The frame has room for what is written to it exactly if no leaf stands outside of all types. */
  lemma RoomIffTyped(p: Pattern)
    ensures Total(Fields(p, LONG, Writing)) <= 8 * FrameSize(p) <==> Typed(p)
  {
    SizeFitsIffTyped(p);
  }

  /** A number outside of all types: a frame of no bytes for 64 bits. */
  lemma UntypedNumberHasNoRoom(v: Word)
    ensures var p := Struct(Plain, [Leaf(Number(v))]); FrameSize(p) == 0 && Total(Fields(p, LONG, Writing)) == 64
  {
    assert Total([Field(UNSIZED, Number(v))]) == 0 && Total([Field(LONG, Number(v))]) == 64;
    var p := Struct(Plain, [Leaf(Number(v))]);
    assert FieldsTo(p, 0, UNSIZED, Writing) == [] && FieldsTo(p, 1, UNSIZED, Writing) == [Field(UNSIZED, Number(v))];
    assert FieldsTo(p, 0, LONG, Writing) == [] && FieldsTo(p, 1, LONG, Writing) == [Field(LONG, Number(v))];
    assert [Field(UNSIZED, Number(v))][1..] == [] == [Field(LONG, Number(v))][1..];
  }

  const UINT16 := Format(16, false)

  /** A number of an unsigned type of sixteen bits takes two bytes, the low one first. */
  lemma SixteenBits(v: Word, data: seq<Byte>)
    ensures var p := Struct(Plain, [Struct(Type(UINT16), [Leaf(Number(v))])]);
      && Fields(p, LONG, Writing) == [Field(UINT16, Number(v))] && Total(Fields(p, LONG, Writing)) == 16
      && FrameSize(p) == 2
      && (|data| == 2 && Written(data, 0, Fields(p, LONG, Writing), map[]) ==> data == [v[..8], v[8..16]])
  {
    var inner := Struct(Type(UINT16), [Leaf(Number(v))]);
    var p := Struct(Plain, [inner]);
    var fs := [Field(UINT16, Number(v))];
    assert FieldsTo(inner, 0, UINT16, Writing) == [] && FieldsTo(inner, 1, UINT16, Writing) == fs;
    assert FieldsTo(p, 0, LONG, Writing) == [] && FieldsTo(p, 1, LONG, Writing) == fs;
    assert FieldsTo(p, 0, UNSIZED, Writing) == [] && FieldsTo(p, 1, UNSIZED, Writing) == fs;
    assert fs[1..] == [] && Total(fs) == 16;
    if |data| == 2 && Written(data, 0, fs, map[]) {
      TwoBytes(data, v);
    }
  }

  lemma TwoBytes(data: seq<Byte>, v: Word)
    requires |data| == 2 && FieldAt(data, 0, 16, v)
    ensures data == [v[..8], v[8..16]]
  {
    forall i | 0 <= i < 8
      ensures data[0][i] == v[i] && data[1][i] == v[8 + i]
    {
      assert Bit(data, 0 + i) == FieldBit(v, 16, i) && Bit(data, 0 + (8 + i)) == FieldBit(v, 16, 8 + i);
    }
    assert data[0] == v[..8];
    assert data[1] == v[8..16];
  }

  /** Makes the frame of a data section: no frame for an empty one. */
  method GenMsg(parts: seq<Pattern>, env: States) returns (data: array?<Byte>)
    requires Typed(Struct(Plain, parts)) && Writable(Fields(Struct(Plain, parts), LONG, Writing))
    ensures data == null <==> parts == []
    ensures data != null ==>
      var fs := Fields(Struct(Plain, parts), LONG, Writing);
      && LaidOut(Struct(Plain, parts), LONG, Writing, fs)
      && fresh(data) && data.Length == (Total(fs) + 7) / 8 && Written(data[..], 0, fs, env)
      && FieldsStand(data[..], fs, env)
  {
    if parts == [] {
      return null;
    }
    var p := Struct(Plain, parts);
    SizeFitsIffTyped(p);
    FieldsLaidOut(p, LONG, Writing);
    var none := new Byte[0];
    var bits := FillRawChunk(p, none, 0, UNSIZED, env, false);
    data := new Byte[(bits + 7) / 8](_ => EIGHT_ZEROS);
    bits := FillRawChunk(p, data, 0, LONG, env, true);
    AllWritten(data[..], Fields(p, LONG, Writing), env);
  }

  // ---------------------------------------------------------------------- reading

  datatype Outcome = Outcome(matched: bool, states: States)

  /** What a field at a bit offset, of a width, reads as. */
  type Source = (nat, nat) -> Word

  function FrameSource(data: seq<Byte>): Source {
    (off: nat, w: nat) => if 1 <= w <= 64 && off + w <= 8 * |data| then ReadBits(data, off, w) else ZERO
  }

  ghost predicate ReadsFrom(source: Source, data: seq<Byte>) {
    forall off: nat, w: nat {:trigger ReadBits(data, off, w)} ::
      1 <= w <= 64 && off + w <= 8 * |data| ==> source(off, w) == ReadBits(data, off, w)
  }

  /** A frame, and what its fields read as. */
  datatype FrameData = FrameData(bytes: seq<Byte>, source: Source)

  type Frame = f: FrameData | ReadsFrom(f.source, f.bytes) witness FrameData([], FrameSource([]))

  function FrameOf(data: seq<Byte>): (f: Frame)
    ensures f.bytes == data && f.source == FrameSource(data)
  {
    FrameData(data, FrameSource(data))
  }

  /** What a system state gets of the bits read: signed fields of 8, 16 and 32 bits extend their sign, all other
      signed ones set every bit above the field. */
  function Received(got: Word, format: Format): (v: Word)
    ensures forall i :: 0 <= i < 64 ==>
      v[i] ==
        if format.signed && format.width <= i
        then !(format.width == 8 || format.width == 16 || format.width == 32) || got[format.width - 1]
        else got[i]
  {
    if format.signed && format.width < 64 then
      var fill := !KnownSign(format.width) || got[format.width - 1];
      seq(64, i requires 0 <= i < 64 => if i < format.width then got[i] else fill)
    else got
  }

  predicate KnownSign(w: nat) {
    w == 8 || w == 16 || w == 32
  }

  /** Reading one field: a number has to be the one read, a system state is set. */
  function ReadOne(source: Source, off: nat, f: Field, states: States): Outcome {
    match f.leaf
    case Any => Outcome(true, states)
    case Number(v) => Outcome(Matches(source(off, f.width), v, f.width), states)
    case State(n) => Outcome(true, states[n := Received(source(off, f.width), f.format)])
  }

  /** Reading the fields one after the other, up to the first mismatch. */
  function ReadFields(source: Source, off: nat, fs: seq<Field>, states: States): Outcome
    decreases |fs|
  {
    if fs == [] then Outcome(true, states)
    else
      var r := ReadOne(source, off, fs[0], states);
      if r.matched then ReadFields(source, off + fs[0].width, fs[1..], r.states) else r
  }

  /** A field of one bit is compared by being zero or not, every other one by its value. */
  predicate Matches(got: Word, v: Word, w: nat) {
    if w == 1 then (got == ZERO) == (v == ZERO) else got == v
  }

  lemma {:induction false} ReadFieldsAppend(source: Source, off: nat, fs: seq<Field>, gs: seq<Field>, states: States)
    ensures var first := ReadFields(source, off, fs, states);
      ReadFields(source, off, fs + gs, states) == if first.matched then ReadFields(source, off + Total(fs), gs,
          first.states) else first
    decreases |fs|
  {
    if fs == [] {
      assert fs + gs == gs;
    } else {
      assert (fs + gs)[1..] == fs[1..] + gs;
      ReadFieldsAppend(source, off + fs[0].width, fs[1..], gs, ReadOne(source, off, fs[0], states).states);
    }
  }

  /** Reads a frame by a pattern from bit off on: the bits it took, or -2 for a number that is not there. */
  method ReadRawChunk(p: Pattern, data: array<Byte>, off: nat, w: Format, states0: States, ghost f: Frame)
    returns (bits: int, states: States)
    requires f.bytes == data[..]
    requires Writable(Fields(p, w, Reading)) && off + Total(Fields(p, w, Reading)) <= 8 * data.Length
    ensures var r := ReadFields(f.source, off, Fields(p, w, Reading), states0);
      states == r.states && bits == if r.matched then Total(Fields(p, w, Reading)) else -2
    decreases p
  {
    match p
    case Leaf(l) =>
      assert Fields(p, w, Reading)[0].width == w.width;
      if l.Any? {
        return w.width, states0;
      }
      var got := ReadField(data, off, w.width);
      if l.State? {
        return w.width, states0[l.name := Received(got, w)];
      }
      if w.width == 1 {
        if l.value != ZERO {
          if got == ZERO {
            return -2, states0;
          }
        } else if got != ZERO {
          return -2, states0;
        }
      } else if got != l.value {
        return -2, states0;
      }
      return w.width, states0;
    case Struct(tag, parts) =>
      if tag.Out? {
        return 0, states0;
      }
      bits, states := ReadParts(p, data, off, FormatIn(tag, w), states0, f);
  }

  method ReadParts(p: Pattern, data: array<Byte>, off: nat, w: Format, states0: States, ghost f: Frame)
    returns (bits: int, states: States)
    requires f.bytes == data[..]
    requires p.Struct? && Writable(FieldsTo(p, |p.parts|, w, Reading))
    requires off + Total(FieldsTo(p, |p.parts|, w, Reading)) <= 8 * data.Length
    ensures var r := ReadFields(f.source, off, FieldsTo(p, |p.parts|, w, Reading), states0);
      states == r.states && bits == if r.matched then Total(FieldsTo(p, |p.parts|, w, Reading)) else -2
    decreases p, 1
  {
    bits, states := 0, states0;
    var i := 0;
    while i < |p.parts|
      invariant i <= |p.parts| && bits == Total(FieldsTo(p, i, w, Reading))
      invariant PartsRead(p, i, w, f.source, off, states0, states)
    {
      var rr;
      rr, states := ReadPart(p, i, data, off, off + bits, w, states0, states, f);
      if rr < 0 {
        return rr, states;
      }
      bits := bits + rr;
      i := i + 1;
    }
  }

  method ReadPart(p: Pattern, i: nat, data: array<Byte>, ghost off: nat, at: nat, w: Format, ghost states0: States,
                  states1: States, ghost f: Frame)
    returns (bits: int, states: States)
    requires f.bytes == data[..] && p.Struct? && i < |p.parts| && at == off + Total(FieldsTo(p, i, w, Reading))
    requires Writable(FieldsTo(p, |p.parts|, w, Reading))
    requires off + Total(FieldsTo(p, |p.parts|, w, Reading)) <= 8 * data.Length
    requires PartsRead(p, i, w, f.source, off, states0, states1)
    ensures bits >= 0 ==>
      Total(FieldsTo(p, i, w, Reading)) + bits == Total(FieldsTo(p, i + 1, w, Reading))
        && PartsRead(p, i + 1, w, f.source, off, states0, states)
    ensures bits < 0 ==>
      bits == -2 && ReadFields(f.source, off, FieldsTo(p, |p.parts|, w, Reading), states0) == Outcome(false, states)
    decreases p, 0
  {
    PartWithin(p, i, w, Reading);
    bits, states := ReadRawChunk(p.parts[i], data, at, w, states1, f);
    PartOutcome(p, i, w, f.source, off, at, states0, states1, bits, states);
  }

  lemma PartOutcome(p: Pattern, i: nat, w: Format, source: Source, off: nat, at: nat, states0: States, states1: States,
                    bits: int, states: States)
    requires p.Struct? && i < |p.parts| && at == off + Total(FieldsTo(p, i, w, Reading))
    requires PartsRead(p, i, w, source, off, states0, states1)
    requires var r := ReadFields(source, at, Fields(p.parts[i], w, Reading), states1);
      states == r.states && bits == if r.matched then Total(Fields(p.parts[i], w, Reading)) else -2
    ensures bits >= 0 ==>
      Total(FieldsTo(p, i, w, Reading)) + bits == Total(FieldsTo(p, i + 1, w, Reading))
        && PartsRead(p, i + 1, w, source, off, states0, states)
    ensures bits < 0 ==>
      bits == -2 && ReadFields(source, off, FieldsTo(p, |p.parts|, w, Reading), states0) == Outcome(false, states)
  {
    var r := PartRead(p, i, w, source, off, states0, states1);
    TotalAppend(FieldsTo(p, i, w, Reading), Fields(p.parts[i], w, Reading));
  }

  /** Reads a whole frame by the pattern of a data section; without bytes there is nothing to match. */
  method ReadMsg(parts: seq<Pattern>, data: array?<Byte>, states0: States) returns (matched: bool, states: States)
    requires data != null && data.Length > 0 ==>
      Writable(Fields(Struct(Plain, parts), LONG, Reading))
        && Total(Fields(Struct(Plain, parts), LONG, Reading)) <= 8 * data.Length
    ensures data == null || data.Length == 0 ==> matched && states == states0
    ensures data != null && data.Length > 0 ==>
      && LaidOut(Struct(Plain, parts), LONG, Reading, Fields(Struct(Plain, parts), LONG, Reading))
      && Outcome(matched, states) == ReadFields(FrameSource(data[..]), 0, Fields(Struct(Plain, parts), LONG, Reading),
          states0)
  {
    if data == null || data.Length == 0 {
      return true, states0;
    }
    var bits;
    FieldsLaidOut(Struct(Plain, parts), LONG, Reading);
    bits, states := ReadRawChunk(Struct(Plain, parts), data, 0, LONG, states0, FrameOf(data[..]));
    return bits >= 0, states;
  }

  /** The first n parts were read without a mismatch. */
  ghost predicate PartsRead(p: Pattern, n: nat, w: Format, source: Source, off: nat, states0: States, states: States)
    requires p.Struct? && n <= |p.parts|
  {
    ReadFields(source, off, FieldsTo(p, n, w, Reading), states0) == Outcome(true, states)
  }

  /** Reading part i carries on with the parts read so far; a mismatch in it is one of the whole. */
  lemma PartRead(p: Pattern, i: nat, w: Format, source: Source, off: nat, states0: States, states: States)
    returns (r: Outcome)
    requires p.Struct? && i < |p.parts| && PartsRead(p, i, w, source, off, states0, states)
    ensures r == ReadFields(source, off + Total(FieldsTo(p, i, w, Reading)), Fields(p.parts[i], w, Reading), states)
    ensures r.matched ==> PartsRead(p, i + 1, w, source, off, states0, r.states)
    ensures !r.matched ==> r == ReadFields(source, off, FieldsTo(p, |p.parts|, w, Reading), states0)
  {
    r := ReadFields(source, off + Total(FieldsTo(p, i, w, Reading)), Fields(p.parts[i], w, Reading), states);
    var next, all := FieldsTo(p, i + 1, w, Reading), FieldsTo(p, |p.parts|, w, Reading);
    ReadFieldsAppend(source, off, FieldsTo(p, i, w, Reading), Fields(p.parts[i], w, Reading), states0);
    FirstParts(p, i + 1, |p.parts|, w, Reading);
    assert all == next + all[|next|..];
    ReadFieldsAppend(source, off, next, all[|next|..], states0);
  }

  // ---------------------------------------------------------------------- reading back what was written

  /** What a field of w bits keeps of a value. */
  function Kept(v: Word, w: nat): (k: Word)
    requires 1 <= w <= 64
    ensures forall i :: 0 <= i < 64 ==> k[i] == (i < w && FieldBit(v, w, i))
  {
    seq(64, i requires 0 <= i < 64 => i < w && FieldBit(v, w, i))
  }

  /** The field has no part in a begun byte, or none in a last byte, or only zeros there. */
  predicate ReadsBack(off: nat, w: nat, v: Word)
    requires 1 <= w <= 64
  {
    HeadBits(off, w) == 0 || TailBits(off, w) == 0 || forall i :: w - TailBits(off, w) <= i < w ==> !FieldBit(v, w, i)
  }

  lemma FieldReadsBackIff(data: seq<Byte>, off: nat, w: nat, v: Word)
    requires 1 <= w <= 64 && off + w <= 8 * |data| && FieldAt(data, off, w, v)
    ensures ReadBits(data, off, w) == Kept(v, w) <==> ReadsBack(off, w, v)
  {
    assert Stored(data, off, w) == Kept(v, w);
    ReadsStoredIff(data, off, w);
    var r := TailBits(off, w);
    if TailZero(data, off, w) {
      forall i | w - r <= i < w
        ensures !FieldBit(v, w, i)
      {
        assert !Bit(data, off + i);
      }
    }
    if forall i :: w - r <= i < w ==> !FieldBit(v, w, i) {
      forall k | off + w - r <= k < off + w
        ensures !Bit(data, k)
      {
        assert Bit(data, off + (k - off)) == FieldBit(v, w, k - off);
      }
    }
  }

  /** Every field has a value, and reads it back. */
  predicate AllReadBack(off: nat, fs: seq<Field>, env: States)
    requires Writable(fs)
    decreases |fs|
  {
    fs == []
    || ((fs[0].leaf.Any? || (HasValue(fs[0].leaf, env) && ReadsBack(off, fs[0].width, Value(fs[0].leaf, env))))
        && AllReadBack(off + fs[0].width, fs[1..], env))
  }

  /** What a reader is to find: states take the kept values, numbers have to be their kept values. */
  function Expected(fs: seq<Field>, env: States, states: States): Outcome
    requires Writable(fs) && forall i :: 0 <= i < |fs| ==> fs[i].leaf.Any? || HasValue(fs[i].leaf, env)
  {
    if fs == [] then Outcome(true, states)
    else
      match fs[0].leaf
      case Any => Expected(fs[1..], env, states)
      case Number(v) => if Matches(Kept(v, fs[0].width), v, fs[0].width) then Expected(fs[1..], env, states)
        else Outcome(false, states)
      case State(n) => assert HasValue(fs[0].leaf, env); Expected(fs[1..], env,
          states[n := Received(Kept(env[n], fs[0].width), fs[0].format)])
  }

  lemma FieldReadBack(f: Frame, off: nat, w: nat, v: Word)
    requires 1 <= w <= 64 && off + w <= 8 * |f.bytes| && FieldAt(f.bytes, off, w, v) && ReadsBack(off, w, v)
    ensures f.source(off, w) == Kept(v, w)
  {
    FieldReadsBackIff(f.bytes, off, w, v);
  }

  lemma {:induction false} AllHaveValues(off: nat, fs: seq<Field>, env: States)
    requires Writable(fs) && AllReadBack(off, fs, env)
    ensures forall i :: 0 <= i < |fs| ==> fs[i].leaf.Any? || HasValue(fs[i].leaf, env)
    decreases |fs|
  {
    if fs != [] {
      AllHaveValues(off + fs[0].width, fs[1..], env);
      assert forall i :: 0 < i < |fs| ==> fs[i] == fs[1..][i - 1];
    }
  }

  lemma {:induction false} ReadsWhatWasWritten(f: Frame, off: nat, fs: seq<Field>, env: States, states: States)
    requires Writable(fs) && off + Total(fs) <= 8 * |f.bytes|
    requires Written(f.bytes, off, fs, env) && AllReadBack(off, fs, env)
    requires forall i :: 0 <= i < |fs| ==> fs[i].leaf.Any? || HasValue(fs[i].leaf, env)
    ensures ReadFields(f.source, off, fs, states) == Expected(fs, env, states)
    decreases |fs|
  {
    if fs != [] {
      var w := fs[0].width;
      if !fs[0].leaf.Any? {
        FieldReadBack(f, off, w, Value(fs[0].leaf, env));
      }
      ReadsWhatWasWritten(f, off + w, fs[1..], env, ReadOne(f.source, off, fs[0], states).states);
    }
  }

  /** A number is found again exactly if it fits into its field; one bit always does. */
  predicate Fits(f: Field) {
    f.leaf.Number? && f.width != 1 ==> forall i :: f.width <= i < 64 ==> !f.leaf.value[i]
  }

  lemma {:induction false} MatchesIffNumbersFit(fs: seq<Field>, env: States, states: States)
    requires Writable(fs) && forall i :: 0 <= i < |fs| ==> fs[i].leaf.Any? || HasValue(fs[i].leaf, env)
    ensures Expected(fs, env, states).matched <==> forall i :: 0 <= i < |fs| ==> Fits(fs[i])
  {
    if fs != [] {
      var w := fs[0].width;
      var next :=
        if fs[0].leaf.State? then states[fs[0].leaf.name := Received(Kept(env[fs[0].leaf.name], w), fs[0].format)]
          else states;
      MatchesIffNumbersFit(fs[1..], env, next);
      assert forall i :: 0 < i < |fs| ==> fs[i] == fs[1..][i - 1];
      assert forall i :: 0 <= i < |fs| - 1 ==> fs[i + 1] == fs[1..][i];
      if fs[0].leaf.Number? {
        KeptIffFits(fs[0]);
      }
    }
  }

  lemma KeptIffFits(f: Field)
    requires f.leaf.Number? && 1 <= f.width <= 64
    ensures Matches(Kept(f.leaf.value, f.width), f.leaf.value, f.width) <==> Fits(f)
  {
    var v, k := f.leaf.value, Kept(f.leaf.value, f.width);
    if f.width == 1 {
      assert k[0] == (v != ZERO);
      assert v == ZERO ==> k == ZERO;
    } else if Fits(f) {
      assert k == v;
    } else {
      var i :| f.width <= i < 64 && v[i];
      assert !k[i];
    }
  }

  const BYTE := Format(8, true)

  /** A number of 256 written to eight bits does not match: only zeros are kept of it. */
  lemma NineBitsUnmatched(states: States)
    ensures !Expected([Field(BYTE, Number(Single(8)))], map[], states).matched
  {
    var f := Field(BYTE, Number(Single(8)));
    assert Single(8)[8] && !Fits(f);
    KeptIffFits(f);
  }

  /** Nor does a negative number: -1 has all bits set. */
  lemma MinusOneUnmatched(states: States)
    ensures !Expected([Field(BYTE, Number(Ones(64, 64)))], map[], states).matched
  {
    var f := Field(BYTE, Number(Ones(64, 64)));
    assert Ones(64, 64)[8] && !Fits(f);
    KeptIffFits(f);
  }

  /** The number with bit i alone. */
  function Single(i: nat): Word {
    seq(64, j => j == i)
  }

  /** After a match, each system state has the kept value of its last field. */
  lemma {:induction false} StatesReadBack(fs: seq<Field>, env: States, states: States, j: nat)
    requires Writable(fs) && forall i :: 0 <= i < |fs| ==> fs[i].leaf.Any? || HasValue(fs[i].leaf, env)
    requires Expected(fs, env, states).matched
    requires j < |fs| && fs[j].leaf.State?
    requires forall i :: j < i < |fs| && fs[i].leaf.State? ==> fs[i].leaf.name != fs[j].leaf.name
    ensures var after := Expected(fs, env, states).states; var n := fs[j].leaf.name;
      n in after && after[n] == Received(Kept(env[n], fs[j].width), fs[j].format)
    decreases |fs|
  {
    var next :=
      if fs[0].leaf.State? then states[fs[0].leaf.name :=
          Received(Kept(env[fs[0].leaf.name], fs[0].width), fs[0].format)] else states;
    if j == 0 {
      Untouched(fs[1..], env, next, fs[0].leaf.name);
    } else {
      StatesReadBack(fs[1..], env, next, j - 1);
    }
  }

  lemma {:induction false} Untouched(fs: seq<Field>, env: States, states: States, n: string)
    requires Writable(fs) && forall i :: 0 <= i < |fs| ==> fs[i].leaf.Any? || HasValue(fs[i].leaf, env)
    requires n in states && forall i :: 0 <= i < |fs| && fs[i].leaf.State? ==> fs[i].leaf.name != n
    ensures var after := Expected(fs, env, states).states; n in after && after[n] == states[n]
    decreases |fs|
  {
    if fs != [] {
      assert fs[0].leaf.State? ==> fs[0].leaf.name != n;
      var next :=
        if fs[0].leaf.State? then states[fs[0].leaf.name :=
            Received(Kept(env[fs[0].leaf.name], fs[0].width), fs[0].format)] else states;
      Untouched(fs[1..], env, next, n);
    }
  }

  /** v is a number of w bits with a sign. */
  predicate SignedRange(v: Word, w: nat)
    requires 1 <= w <= 64
  {
    forall i :: w <= i < 64 ==> v[i] == v[w - 1]
  }

  /** v is negative and not below -2^w; one bit holds only -1. */
  predicate NegativeRange(v: Word, w: nat)
    requires 1 <= w <= 64
  {
    (w == 1 ==> v[0]) && forall i :: w <= i < 64 ==> v[i]
  }

  predicate UnsignedRange(v: Word, w: nat) {
    forall i :: w <= i < 64 ==> !v[i]
  }

  /** A system state gets the value back that was written exactly if it is in the range of its field, except for signed
      fields of other than 8, 16 and 32 bits: these give back negative numbers only. */
  lemma ValueComesBackIff(v: Word, format: Format)
    requires 1 <= format.width < 64
    ensures Received(Kept(v, format.width), format) == v
       <==> if !format.signed then UnsignedRange(v, format.width)
            else if format.width == 8 || format.width == 16 || format.width == 32 then SignedRange(v, format.width)
            else NegativeRange(v, format.width)
  {
    var w := format.width;
    var r := Received(Kept(v, w), format);
    assert forall i :: 0 <= i < w ==> r[i] == FieldBit(v, w, i);
    if w == 1 {
      assert v == ZERO || exists i :: 0 <= i < 64 && v[i];
      assert v == ZERO ==> !v[0] && !v[1];
      assert r == v ==> r[1] == v[1];
    }
    if format.signed && if KnownSign(w) then SignedRange(v, w) else NegativeRange(v, w) {
      assert v[63] ==> v != ZERO;
      assert forall i :: 0 <= i < 64 ==> r[i] == v[i];
    }
    if !format.signed && UnsignedRange(v, w) {
      assert forall i :: 0 <= i < 64 ==> r[i] == v[i];
    }
    if r == v {
      assert forall i :: w <= i < 64 ==> v[i] == r[i];
      assert v[63] == r[63];
    }
  }

  /** In a signed field of 24 bits 256 comes back as a negative number. */
  lemma PositiveComesBackNegative()
    ensures SignedRange(Single(8), 24) && !Single(8)[63] && Received(Kept(Single(8), 24), Format(24, true))[63]
  {
  }

  /** No section belongs to one direction only. */
  predicate BothWays(p: Pattern) {
    match p
    case Leaf(_) => true
    case Struct(tag, parts) => !tag.In? && !tag.Out? && forall i :: 0 <= i < |parts| ==> BothWays(parts[i])
  }

  lemma {:induction false} SameFields(p: Pattern, w: Format)
    requires BothWays(p)
    ensures Fields(p, w, Writing) == Fields(p, w, Reading)
    decreases p
  {
    if p.Struct? {
      SameFieldsTo(p, |p.parts|, FormatIn(p.tag, w));
    }
  }

  lemma {:induction false} SameFieldsTo(p: Pattern, n: nat, w: Format)
    requires p.Struct? && BothWays(p) && n <= |p.parts|
    ensures FieldsTo(p, n, w, Writing) == FieldsTo(p, n, w, Reading)
    decreases p, n
  {
    if n > 0 {
      SameFieldsTo(p, n - 1, w);
      SameFields(p.parts[n - 1], w);
    }
  }

  /** No leaf for this system state lies to the right of the path. */
  ghost predicate LastPlace(p: Pattern, path: seq<nat>, n: string) {
    forall other, tags :: Leads(p, other, tags, State(n)) ==> !Before(path, other)
  }

  lemma {:induction false} AllUsed(p: Pattern, path: seq<nat>, tags: seq<Tag>, l: Leaf, dir: Direction)
    requires BothWays(p) && Leads(p, path, tags, l)
    ensures Used(tags, dir)
    decreases p
  {
    if p.Struct? {
      AllUsed(p.parts[path[0]], path[1..], tags[1..], l, dir);
      assert tags == [tags[0]] + tags[1..];
    }
  }

  /** The last leaf of a system state is its last field. */
  lemma LastField(p: Pattern, w: Format, path: seq<nat>, tags: seq<Tag>, n: string, format: Format) returns (j: nat)
    requires BothWays(p) && Leads(p, path, tags, State(n)) && Innermost(tags, w, format) && LastPlace(p, path, n)
    ensures var fs := Fields(p, w, Reading);
      && j < |fs| && fs[j] == Field(format, State(n))
      && forall i :: j < i < |fs| && fs[i].leaf.State? ==> fs[i].leaf.name != n
  {
    var fs := Fields(p, w, Reading);
    var paths := FieldsPlaced(p, w, Reading);
    AllUsed(p, path, tags, State(n), Reading);
    j :| 0 <= j < |paths| && paths[j] == path;
    assert PlaceOf(p, w, Reading, path, Field(format, State(n)));
    PlaceUnique(p, w, Reading, path, fs[j], Field(format, State(n)));
    forall i | j < i < |fs| && fs[i].leaf.State?
      ensures fs[i].leaf.name != n
    {
      assert PlaceOf(p, w, Reading, paths[i], fs[i]);
      assert fs[i].leaf == State(fs[i].leaf.name);
    }
  }

  /** A frame read by the pattern it was written by: it matches exactly if every number fits into its field, and then
      every system state has what its last field keeps of it, of the width and sign of the innermost type around that
      leaf; provided that every field reads back. */
  lemma FrameRoundTrip(p: Pattern, f: Frame, off: nat, w: Format, env: States, states: States)
    requires BothWays(p) && Writable(Fields(p, w, Writing)) && off + Total(Fields(p, w, Writing)) <= 8 * |f.bytes|
    requires Written(f.bytes, off, Fields(p, w, Writing), env) && AllReadBack(off, Fields(p, w, Writing), env)
    ensures LaidOut(p, w, Reading, Fields(p, w, Reading))
    ensures var fs := Fields(p, w, Reading); var r := ReadFields(f.source, off, fs, states);
      && off + Total(fs) <= 8 * |f.bytes|
      && (r.matched <==> forall i :: 0 <= i < |fs| ==> Fits(fs[i]))
      && (r.matched ==> forall path, tags, n, format ::
            (Leads(p, path, tags, State(n)) && Innermost(tags, w, format) && LastPlace(p, path, n)) ==>
              StateRead(env, r.states, n, format))
  {
    SameFields(p, w);
    FieldsLaidOut(p, w, Reading);
    var fs := Fields(p, w, Writing);
    AllHaveValues(off, fs, env);
    ReadsWhatWasWritten(f, off, fs, env, states);
    MatchesIffNumbersFit(fs, env, states);
    if Expected(fs, env, states).matched {
      forall path, tags, n, format
        | Leads(p, path, tags, State(n)) && Innermost(tags, w, format) && LastPlace(p, path, n)
        ensures StateRead(env, Expected(fs, env, states).states, n, format)
      {
        LastPlaceRead(p, w, env, states, fs, path, tags, n, format);
      }
    }
  }

  /** The state has what a field of this format keeps of it. */
  ghost predicate StateRead(env: States, states: States, n: string, format: Format) {
    && 1 <= format.width <= 64 && n in env && n in states
    && states[n] == Received(Kept(env[n], format.width), format)
  }

  lemma LastPlaceRead(p: Pattern, w: Format, env: States, states: States, fs: seq<Field>, path: seq<nat>,
                      tags: seq<Tag>, n: string, format: Format)
    requires BothWays(p) && fs == Fields(p, w, Reading) && Writable(fs)
    requires forall i :: 0 <= i < |fs| ==> fs[i].leaf.Any? || HasValue(fs[i].leaf, env)
    requires Expected(fs, env, states).matched
    requires Leads(p, path, tags, State(n)) && Innermost(tags, w, format) && LastPlace(p, path, n)
    ensures StateRead(env, Expected(fs, env, states).states, n, format)
  {
    var j := LastField(p, w, path, tags, n, format);
    StatesReadBack(fs, env, states, j);
  }
}
