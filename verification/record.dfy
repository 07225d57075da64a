/** storeRecordFields, fetchRecordFields and calculateRecordSize of src/gigabase/class.cpp.
    A record is a fixed part, described by field descriptors, followed by the characters of
    its strings and the elements of its arrays, to which the fixed part refers by offsets.
    Offsets in an element of an array count from that element. */
module Record {
  import opened Memory
  import opened Wrappers

  const VARYING := 8      // sizeof(dbVarying): a size and, OFFS bytes on, an offset
  const OFFS := 4
  const LIMIT := 0x8000_0000

  /** A field descriptor: where its fixed part lies, and its type. */
  datatype Field = Field(offs: nat, kind: Kind)

  /** Scalars of all kinds are copied as bytes. The elements of an array are described by one
      field, and lie stride bytes apart. */
  datatype Kind =
    | Scalar(size: nat)
    | Text
    | Array(elem: Field, stride: nat, alignment: nat)
    | Structure(fields: seq<Field>)

  datatype Value =
    | Bytes(bytes: seq<Byte>)
    | Str(text: Option<seq<Byte>>)     // None is a null pointer
    | Many(values: seq<Value>)         // the elements of an array, or the members of a structure

  /** DOALIGN. */
  function Align(n: int, to: nat): (r: int)
    ensures n <= r
  {
    if to == 0 || n % to == 0 then n else n + to - n % to
  }

  /** n elements. */
  function Total(n: nat, stride: nat): nat {
    if n == 0 then 0 else Total(n - 1, stride) + stride
  }

  function Span(lo: nat, n: nat): (s: set<nat>)
    ensures forall x :: x in s <==> lo <= x < lo + n
    decreases n
  {
    if n == 0 then {} else Span(lo, n - 1) + {lo + n - 1}
  }

  /** The offsets of a field's fixed part. */
  function Fixed(f: Field): set<nat>
    decreases f
  {
    match f.kind
    case Scalar(size) => Span(f.offs, size)
    case Text => Span(f.offs, VARYING)
    case Array(_, _, _) => Span(f.offs, VARYING)
    case Structure(fields) => FixedAll(fields)
  }

  function FixedAll(fields: seq<Field>): set<nat>
    decreases fields
  {
    if fields == [] then {} else FixedAll(fields[..|fields| - 1]) + Fixed(fields[|fields| - 1])
  }

  /** Fixed parts lie inside the first size bytes and do not overlap; the elements of an array
      are laid out inside their stride. */
  predicate LaidOut(f: Field, size: nat)
    decreases f
  {
    && (forall x :: x in Fixed(f) ==> x < size)
    && match f.kind
       case Scalar(n) => n > 0
       case Array(elem, stride, alignment) => alignment > 0 && LaidOut(elem, stride)
       case Structure(fields) => LaidOutAll(fields, size)
       case _ => true
  }

  predicate LaidOutAll(fields: seq<Field>, size: nat)
    decreases fields
  {
    fields != [] ==>
      var front, last := fields[..|fields| - 1], fields[|fields| - 1];
      LaidOutAll(front, size) && LaidOut(last, size) && FixedAll(front) !! Fixed(last)
  }

  /** The value has the field's type. */
  predicate Typed(f: Field, v: Value)
    decreases f
  {
    match f.kind
    case Scalar(size) => v.Bytes? && |v.bytes| == size
    case Text => v.Str? && (v.text.Some? ==> forall i :: 0 <= i < |v.text.value| ==> v.text.value[i] != 0)
    case Array(elem, _, _) =>
      v.Many? && |v.values| < LIMIT && forall i :: 0 <= i < |v.values| ==> Typed(elem, v.values[i])
    case Structure(fields) => v.Many? && TypedAll(fields, v.values)
  }

  predicate TypedAll(fields: seq<Field>, vs: seq<Value>)
    decreases fields
  {
    |fields| == |vs| &&
    (fields != [] ==> TypedAll(fields[..|fields| - 1], vs[..|vs| - 1]) && Typed(fields[|fields| - 1], vs[|vs| - 1]))
  }

  /** The characters of a string; a null pointer counts as the empty string. */
  function Chars(v: Value): seq<Byte> {
    if v.Str? && v.text.Some? then v.text.value else []
  }

  function Parts(v: Value): seq<Value> {
    if v.Many? then v.values else []
  }

  // ----- where store ends

  /** The offset behind a field's variable part, as storeRecordFields advances it. */
  function End(f: Field, v: Value, offs: int): int
    decreases f, 0
  {
    match f.kind
    case Scalar(_) => offs
    case Text => offs + |Chars(v)| + 1
    case Array(elem, stride, alignment) =>
      var total := Total(|Parts(v)|, stride);
      Align(offs, alignment) + total + EndElems(elem, stride, Parts(v), total)
    case Structure(fields) => EndAll(fields, Parts(v), offs)
  }

  /** The same for the elements of an array; the offset counts from the element that comes next. */
  function EndElems(elem: Field, stride: nat, vs: seq<Value>, offs: int): int
    decreases elem, |vs| + 1
  {
    if vs == [] then offs
    else End(elem, vs[|vs| - 1], EndElems(elem, stride, vs[..|vs| - 1], offs)) - stride
  }

  function EndAll(fields: seq<Field>, vs: seq<Value>, offs: int): int
    decreases fields, 0
  {
    if fields == [] || |vs| != |fields| then offs
    else End(fields[|fields| - 1], vs[|vs| - 1], EndAll(fields[..|fields| - 1], vs[..|vs| - 1], offs))
  }

  // ----- what calculateRecordSize predicts

  function Size(f: Field, v: Value, offs: int): int
    decreases f, 0
  {
    match f.kind
    case Scalar(_) => offs
    case Text => offs + |Chars(v)| + 1
    case Array(elem, stride, alignment) =>
      SizeElems(elem, Parts(v), Align(offs, alignment) + Total(|Parts(v)|, stride))
    case Structure(fields) => SizeAll(fields, Parts(v), offs)
  }

  function SizeElems(elem: Field, vs: seq<Value>, offs: int): int
    decreases elem, |vs| + 1
  {
    if vs == [] then offs else Size(elem, vs[|vs| - 1], SizeElems(elem, vs[..|vs| - 1], offs))
  }

  function SizeAll(fields: seq<Field>, vs: seq<Value>, offs: int): int
    decreases fields, 0
  {
    if fields == [] || |vs| != |fields| then offs
    else Size(fields[|fields| - 1], vs[|vs| - 1], SizeAll(fields[..|fields| - 1], vs[..|vs| - 1], offs))
  }

  // ----- what the bytes hold

  predicate RawAt(m: seq<Cell>, a: int, bytes: seq<Byte>) {
    0 <= a && a + |bytes| <= |m| && forall i :: a <= i < a + |bytes| ==> m[i] == Raw(bytes[i - a])
  }

  /** The integer stored at a, if one is. */
  function IntAt(m: seq<Cell>, a: int): int {
    if 0 <= a < |m| && m[a].Part? then m[a].w else 0
  }

  /** The record at base holds v in field f, with its variable part at offs, and nowhere else:
      it ends at End(f, v, offs), where the variable part of the next field begins. */
  ghost predicate Stored(m: seq<Cell>, base: int, f: Field, v: Value, offs: int)
    decreases f, 0
  {
    var at := base + f.offs;
    match f.kind
    case Scalar(size) => v.Bytes? && |v.bytes| == size && RawAt(m, at, v.bytes)
    case Text =>
      && v.Str? && Holds(m, at, |Chars(v)| + 1) && Holds(m, at + OFFS, offs)
      && RawAt(m, base + offs, Chars(v) + [0])
    case Array(elem, stride, alignment) =>
      var start := Align(offs, alignment);
      && v.Many? && Holds(m, at, |v.values|) && Holds(m, at + OFFS, start)
      && StoredElems(m, base + start, elem, stride, v.values, Total(|v.values|, stride))
    case Structure(fields) => v.Many? && StoredAll(m, base, fields, v.values, offs)
  }

  /** The elements of an array at a; offs counts from the first. */
  ghost predicate StoredElems(m: seq<Cell>, a: int, elem: Field, stride: nat, vs: seq<Value>, offs: int)
    decreases elem, |vs| + 1
  {
    vs != [] ==>
      var front := vs[..|vs| - 1];
      && StoredElems(m, a, elem, stride, front, offs)
      && Stored(m, a + Total(|front|, stride), elem, vs[|vs| - 1], EndElems(elem, stride, front, offs))
  }

  ghost predicate StoredAll(m: seq<Cell>, base: int, fields: seq<Field>, vs: seq<Value>, offs: int)
    decreases fields, 0
  {
    && |vs| == |fields|
    && (fields != [] ==>
          var front, frontVs := fields[..|fields| - 1], vs[..|vs| - 1];
          && StoredAll(m, base, front, frontVs, offs)
          && Stored(m, base, fields[|fields| - 1], vs[|vs| - 1], EndAll(front, frontVs, offs)))
  }

  /** m' has the same bytes as m in the fixed part of a record at base, and from lo to hi. */
  ghost predicate Same(m: seq<Cell>, m': seq<Cell>, base: int, fixed: set<nat>, lo: int, hi: int) {
    && |m'| == |m|
    && (forall x :: x in fixed && 0 <= base + x < |m| ==> m'[base + x] == m[base + x])
    && (forall i :: lo <= i < hi && 0 <= i < |m| ==> m'[i] == m[i])
  }

  /** A stored value depends on its fixed part and on its own variable part only. */
  lemma {:induction false} StoredKept(m: seq<Cell>, m': seq<Cell>, base: int, f: Field, v: Value, offs: int, size: nat)
    requires Stored(m, base, f, v, offs) && LaidOut(f, size)
    requires Same(m, m', base, Fixed(f), base + offs, base + End(f, v, offs))
    ensures Stored(m', base, f, v, offs)
    decreases f, 0
  {
    hide Fixed;
    match f.kind {
      case Scalar(_) => ScalarKept(m, m', base, f, v, offs);
      case Text => TextKept(m, m', base, f, v, offs);
      case Array(_, _, _) => ArrayKept(m, m', base, f, v, offs, size);
      case Structure(fields) => AllKept(m, m', base, fields, v.values, offs, size) by { FieldsFixed(f); }
    }
  }

  lemma FieldsFixed(f: Field)
    requires f.kind.Structure?
    ensures Fixed(f) == FixedAll(f.kind.fields)
  {
  }

  lemma ScalarKept(m: seq<Cell>, m': seq<Cell>, base: int, f: Field, v: Value, offs: int)
    requires Stored(m, base, f, v, offs) && f.kind.Scalar?
    requires Same(m, m', base, Fixed(f), base + offs, base + End(f, v, offs))
    ensures Stored(m', base, f, v, offs)
  {
    hide Span;
    FixedSame(m, m', base, f.offs, f.kind.size, base + offs, base + offs);
    RawKept(m, m', base + f.offs, v.bytes);
  }

  /** Agreement on a span of offsets. */
  lemma FixedSame(m: seq<Cell>, m': seq<Cell>, base: int, offs: nat, n: nat, lo: int, hi: int)
    requires Same(m, m', base, Span(offs, n), lo, hi)
    ensures forall i :: base + offs <= i < base + offs + n && 0 <= i < |m| ==> m'[i] == m[i]
  {
    forall i | base + offs <= i < base + offs + n && 0 <= i < |m|
      ensures m'[i] == m[i]
    {
      assert i - base in Span(offs, n);
    }
  }

  lemma VaryingKept(m: seq<Cell>, m': seq<Cell>, base: int, offs: nat, n: int, o: int, lo: int, hi: int)
    requires Same(m, m', base, Span(offs, VARYING), lo, hi)
    requires Holds(m, base + offs, n) && Holds(m, base + offs + OFFS, o)
    ensures Holds(m', base + offs, n) && Holds(m', base + offs + OFFS, o)
  {
    hide Span;
    FixedSame(m, m', base, offs, VARYING, lo, hi);
    WordKept(m, m', base + offs, n);
    WordKept(m, m', base + offs + OFFS, o);
  }

  lemma TextKept(m: seq<Cell>, m': seq<Cell>, base: int, f: Field, v: Value, offs: int)
    requires Stored(m, base, f, v, offs) && f.kind.Text?
    requires Same(m, m', base, Fixed(f), base + offs, base + End(f, v, offs))
    ensures Stored(m', base, f, v, offs)
  {
    hide Span;
    VaryingKept(m, m', base, f.offs, |Chars(v)| + 1, offs, base + offs, base + End(f, v, offs));
    RawKept(m, m', base + offs, Chars(v) + [0]);
  }

  lemma {:induction false} ArrayKept(m: seq<Cell>, m': seq<Cell>, base: int, f: Field, v: Value, offs: int, size: nat)
    requires Stored(m, base, f, v, offs) && LaidOut(f, size) && f.kind.Array?
    requires Same(m, m', base, Fixed(f), base + offs, base + End(f, v, offs))
    ensures Stored(m', base, f, v, offs)
    decreases f.kind.elem, |Parts(v)| + 2
  {
    hide Span, StoredElems, EndElems;
    var elem, stride, start := f.kind.elem, f.kind.stride, Align(offs, f.kind.alignment);
    var total := Total(|v.values|, stride);
    VaryingKept(m, m', base, f.offs, |v.values|, start, base + offs, base + End(f, v, offs));
    ElemsEndGrows(elem, stride, v.values, total);
    ElemsKept(m, m', base + start, elem, stride, v.values, total);
  }

  lemma RawKept(m: seq<Cell>, m': seq<Cell>, a: int, bytes: seq<Byte>)
    requires RawAt(m, a, bytes) && |m'| == |m|
    requires forall i :: a <= i < a + |bytes| && 0 <= i < |m| ==> m'[i] == m[i]
    ensures RawAt(m', a, bytes)
  {
  }

  lemma WordKept(m: seq<Cell>, m': seq<Cell>, a: int, w: int)
    requires Holds(m, a, w) && |m'| == |m|
    requires forall i :: a <= i < a + 4 && 0 <= i < |m| ==> m'[i] == m[i]
    ensures Holds(m', a, w) && IntAt(m', a) == w
  {
  }

  lemma SameInside(m: seq<Cell>, m': seq<Cell>, base: int, fixed: set<nat>, lo: int, hi: int, lo': int, hi': int)
    requires Same(m, m', base, fixed, lo, hi) && lo <= lo' && hi' <= hi
    ensures Same(m, m', base, fixed, lo', hi')
  {
  }

  /** The elements stored so far depend on their own fixed and variable parts. */
  lemma {:induction false} ElemsKept(m: seq<Cell>, m': seq<Cell>, a: int, elem: Field, stride: nat,
                                     vs: seq<Value>, offs: int)
    requires StoredElems(m, a, elem, stride, vs, offs) && LaidOut(elem, stride)
    requires Same(m, m', a, Span(0, Total(|vs|, stride)),
                  a + offs, a + Total(|vs|, stride) + EndElems(elem, stride, vs, offs))
    ensures StoredElems(m', a, elem, stride, vs, offs)
    decreases elem, |vs| + 1
  {
    hide Stored, Fixed, Span, LaidOut, Same;
    if vs != [] {
      var n := |vs| - 1;
      var at, before := a + Total(n, stride), EndElems(elem, stride, vs[..n], offs);
      var lo, hi := a + offs, at + End(elem, vs[n], before);
      ElemsEndGrows(elem, stride, vs[..n], offs);
      EndGrows(elem, vs[n], before);
      LastElemSame(m, m', a, elem, stride, n, lo, hi);
      SameInside(m, m', a, Span(0, Total(n, stride)), lo, hi, lo, at + before);
      SameInside(m, m', at, Fixed(elem), lo, hi, at + before, hi);
      ElemsKept(m, m', a, elem, stride, vs[..n], offs);
      StoredKept(m, m', at, elem, vs[n], before, stride);
    }
  }

  lemma LastElemSame(m: seq<Cell>, m': seq<Cell>, a: int, elem: Field, stride: nat, n: nat, lo: int, hi: int)
    requires Same(m, m', a, Span(0, Total(n + 1, stride)), lo, hi) && LaidOut(elem, stride)
    ensures Same(m, m', a, Span(0, Total(n, stride)), lo, hi)
    ensures Same(m, m', a + Total(n, stride), Fixed(elem), lo, hi)
  {
    forall x | x in Span(0, Total(n, stride)) && 0 <= a + x < |m|
      ensures m'[a + x] == m[a + x]
    {
      assert x in Span(0, Total(n + 1, stride));
    }
    forall x | x in Fixed(elem) && 0 <= a + Total(n, stride) + x < |m|
      ensures m'[a + Total(n, stride) + x] == m[a + Total(n, stride) + x]
    {
      assert Total(n, stride) + x in Span(0, Total(n + 1, stride));
    }
  }

  lemma {:induction false} AllKept(m: seq<Cell>, m': seq<Cell>, base: int, fields: seq<Field>, vs: seq<Value>,
                                   offs: int, size: nat)
    requires StoredAll(m, base, fields, vs, offs) && LaidOutAll(fields, size)
    requires Same(m, m', base, FixedAll(fields), base + offs, base + EndAll(fields, vs, offs))
    ensures StoredAll(m', base, fields, vs, offs)
    decreases fields, 0
  {
    hide Stored, Fixed, LaidOut, End;
    if fields != [] {
      var n := |fields| - 1;
      var before := EndAll(fields[..n], vs[..n], offs);
      AllEndGrows(fields[..n], vs[..n], offs);
      EndGrows(fields[n], vs[n], before);
      AllKept(m, m', base, fields[..n], vs[..n], offs, size);
      StoredKept(m, m', base, fields[n], vs[n], before, size);
    }
  }

  // ----- reading it back

  function ByteAt(m: seq<Cell>, i: int): Byte {
    if 0 <= i < |m| && m[i].Raw? then m[i].b else 0
  }

  /** The characters up to the terminating zero. */
  function CString(m: seq<Cell>, a: int): seq<Byte>
    decreases |m| - a
  {
    if ByteAt(m, a) == 0 then [] else [ByteAt(m, a)] + CString(m, a + 1)
  }

  function BytesAt(m: seq<Cell>, a: int, n: nat): (r: seq<Byte>)
    ensures |r| == n && forall i :: 0 <= i < n ==> r[i] == ByteAt(m, a + i)
  {
    if n == 0 then [] else BytesAt(m, a, n - 1) + [ByteAt(m, a + n - 1)]
  }

  /** What fetchRecordFields finds. */
  function Fetched(m: seq<Cell>, base: int, f: Field): Value
    decreases f, 0
  {
    var at := base + f.offs;
    match f.kind
    case Scalar(size) => Bytes(BytesAt(m, at, size))
    case Text => Str(Some(CString(m, base + IntAt(m, at + OFFS))))
    case Array(elem, stride, _) =>
      var n := IntAt(m, at);
      Many(FetchedElems(m, base + IntAt(m, at + OFFS), elem, stride, if n < 0 then 0 else n))
    case Structure(fields) => Many(FetchedAll(m, base, fields))
  }

  function FetchedElems(m: seq<Cell>, a: int, elem: Field, stride: nat, n: nat): seq<Value>
    decreases elem, n + 1
  {
    if n == 0 then [] else FetchedElems(m, a, elem, stride, n - 1) + [Fetched(m, a + Total(n - 1, stride), elem)]
  }

  function FetchedAll(m: seq<Cell>, base: int, fields: seq<Field>): seq<Value>
    decreases fields, 0
  {
    if fields == [] then []
    else FetchedAll(m, base, fields[..|fields| - 1]) + [Fetched(m, base, fields[|fields| - 1])]
  }

  /** A value as it comes back: null strings are empty. */
  function Normal(v: Value): Value {
    match v
    case Bytes(_) => v
    case Str(_) => Str(Some(Chars(v)))
    case Many(vs) => Many(seq(|vs|, i requires 0 <= i < |vs| => Normal(vs[i])))
  }

  function NormalAll(vs: seq<Value>): seq<Value> {
    seq(|vs|, i requires 0 <= i < |vs| => Normal(vs[i]))
  }

  lemma NormalAdd(vs: seq<Value>)
    requires vs != []
    ensures NormalAll(vs) == NormalAll(vs[..|vs| - 1]) + [Normal(vs[|vs| - 1])]
  {
  }

  lemma {:induction false} CStringReads(m: seq<Cell>, a: int, text: seq<Byte>)
    requires RawAt(m, a, text + [0]) && forall i :: 0 <= i < |text| ==> text[i] != 0
    ensures CString(m, a) == text
    decreases |text|
  {
    assert (text + [0])[0] == if text == [] then 0 else text[0];
    if text != [] {
      assert text + [0] == [text[0]] + (text[1..] + [0]);
      CStringReads(m, a + 1, text[1..]);
    }
  }

  /** What is stored is what is fetched. */
  lemma {:induction false} StoredFetches(m: seq<Cell>, base: int, f: Field, v: Value, offs: int)
    requires Stored(m, base, f, v, offs) && Typed(f, v)
    ensures Fetched(m, base, f) == Normal(v)
    decreases f, 0
  {
    hide RawAt, Holds, StoredElems, FetchedElems, BytesAt, CString;
    match f.kind {
      case Scalar(size) => RawReads(m, base + f.offs, v.bytes);
      case Text =>
        HoldsReads(m, base + f.offs + OFFS, offs);
        CStringReads(m, base + offs, Chars(v));
      case Array(_, _, _) => ArrayFetches(m, base, f, v, offs);
      case Structure(fields) =>
        AllFetch(m, base, fields, v.values, offs);
        assert Normal(v) == Many(NormalAll(v.values));
    }
  }

  lemma HoldsReads(m: seq<Cell>, a: int, w: int)
    requires Holds(m, a, w)
    ensures IntAt(m, a) == w
  {
    assert m[a] == Part(w, a - a);
  }

  lemma RawReads(m: seq<Cell>, a: int, bytes: seq<Byte>)
    requires RawAt(m, a, bytes)
    ensures BytesAt(m, a, |bytes|) == bytes
  {
    var n := |bytes|;
    forall i | 0 <= i < n
      ensures BytesAt(m, a, n)[i] == bytes[i]
    {
      assert m[a + i] == Raw(bytes[a + i - a]);
    }
  }

  lemma {:induction false} ArrayFetches(m: seq<Cell>, base: int, f: Field, v: Value, offs: int)
    requires Stored(m, base, f, v, offs) && Typed(f, v) && f.kind.Array?
    ensures Fetched(m, base, f) == Normal(v)
    decreases f.kind.elem, |Parts(v)| + 2
  {
    var stride := f.kind.stride;
    ElemsFetch(m, base + Align(offs, f.kind.alignment), f.kind.elem, stride, v.values, Total(|v.values|, stride));
    HoldsReads(m, base + f.offs + OFFS, Align(offs, f.kind.alignment));
    HoldsReads(m, base + f.offs, |v.values|);
    assert Normal(v) == Many(NormalAll(v.values));
  }

  lemma {:induction false} ElemsFetch(m: seq<Cell>, a: int, elem: Field, stride: nat, vs: seq<Value>, offs: int)
    requires StoredElems(m, a, elem, stride, vs, offs) && forall i :: 0 <= i < |vs| ==> Typed(elem, vs[i])
    ensures FetchedElems(m, a, elem, stride, |vs|) == NormalAll(vs)
    decreases elem, |vs| + 1
  {
    assert NormalAll([]) == [];
    hide Fetched, Stored, Typed, Normal, NormalAll, EndElems;
    if vs != [] {
      ElemsFetch(m, a, elem, stride, vs[..|vs| - 1], offs);
      var n := |vs| - 1;
      StoredFetches(m, a + Total(n, stride), elem, vs[n], EndElems(elem, stride, vs[..n], offs));
      NormalAdd(vs);
    }
  }

  lemma NothingFetched(m: seq<Cell>, base: int)
    ensures FetchedAll(m, base, []) == NormalAll([]) == []
  {
  }

  lemma {:induction false} AllFetch(m: seq<Cell>, base: int, fields: seq<Field>, vs: seq<Value>, offs: int)
    requires StoredAll(m, base, fields, vs, offs) && TypedAll(fields, vs)
    ensures FetchedAll(m, base, fields) == NormalAll(vs)
    decreases fields, 0
  {
    NothingFetched(m, base);
    hide Stored, Fetched, Typed, Normal, NormalAll, EndAll;
    if fields != [] {
      AllFetch(m, base, fields[..|fields| - 1], vs[..|vs| - 1], offs);
      var n := |fields| - 1;
      StoredFetches(m, base, fields[n], vs[n], EndAll(fields[..n], vs[..n], offs));
      NormalAdd(vs);
    }
  }

  // ----- offsets only grow

  lemma {:induction false} EndGrows(f: Field, v: Value, offs: int)
    ensures End(f, v, offs) >= offs
    decreases f, 0
  {
    match f.kind {
      case Array(elem, stride, alignment) =>
        ElemsEndGrows(elem, stride, Parts(v), Total(|Parts(v)|, stride));
      case Structure(fields) => AllEndGrows(fields, Parts(v), offs);
      case _ =>
    }
  }

  lemma {:induction false} ElemsEndGrows(elem: Field, stride: nat, vs: seq<Value>, offs: int)
    ensures EndElems(elem, stride, vs, offs) >= offs - Total(|vs|, stride)
    decreases elem, |vs| + 1
  {
    if vs != [] {
      ElemsEndGrows(elem, stride, vs[..|vs| - 1], offs);
      EndGrows(elem, vs[|vs| - 1], EndElems(elem, stride, vs[..|vs| - 1], offs));
    }
  }

  lemma {:induction false} AllEndGrows(fields: seq<Field>, vs: seq<Value>, offs: int)
    ensures EndAll(fields, vs, offs) >= offs
    decreases fields, 0
  {
    if fields != [] && |vs| == |fields| {
      AllEndGrows(fields[..|fields| - 1], vs[..|vs| - 1], offs);
      EndGrows(fields[|fields| - 1], vs[|vs| - 1], EndAll(fields[..|fields| - 1], vs[..|vs| - 1], offs));
    }
  }

  /** After i elements the store has come no further than after all of them. */
  lemma {:induction false} ElemsEndMonotone(elem: Field, stride: nat, vs: seq<Value>, offs: int, i: nat)
    requires i <= |vs|
    ensures Total(i, stride) + EndElems(elem, stride, vs[..i], offs)
            <= Total(|vs|, stride) + EndElems(elem, stride, vs, offs)
    decreases |vs|
  {
    if i < |vs| {
      var n := |vs| - 1;
      ElemsEndMonotone(elem, stride, vs[..n], offs, i);
      assert vs[..n][..i] == vs[..i];
      EndGrows(elem, vs[n], EndElems(elem, stride, vs[..n], offs));
    } else {
      assert vs[..i] == vs;
    }
  }

  lemma {:induction false} AllEndMonotone(fields: seq<Field>, vs: seq<Value>, offs: int, j: nat)
    requires j <= |fields| == |vs|
    ensures EndAll(fields[..j], vs[..j], offs) <= EndAll(fields, vs, offs)
    decreases |fields|
  {
    if j < |fields| {
      var n := |fields| - 1;
      AllEndMonotone(fields[..n], vs[..n], offs, j);
      assert fields[..n][..j] == fields[..j] && vs[..n][..j] == vs[..j];
      EndGrows(fields[n], vs[n], EndAll(fields[..n], vs[..n], offs));
    } else {
      assert fields[..j] == fields && vs[..j] == vs;
    }
  }

  /** Field j of a well laid out list. */
  lemma {:induction false} PrefixLaidOut(fields: seq<Field>, size: nat, j: nat)
    requires LaidOutAll(fields, size) && j < |fields|
    ensures LaidOutAll(fields[..j], size) && LaidOut(fields[j], size) && FixedAll(fields[..j]) !! Fixed(fields[j])
    decreases |fields|
  {
    var n := |fields| - 1;
    if j < n {
      PrefixLaidOut(fields[..n], size, j);
      assert fields[..n][..j] == fields[..j] && fields[..n][j] == fields[j];
    }
  }

  lemma {:induction false} PrefixTyped(fields: seq<Field>, vs: seq<Value>, j: nat)
    requires TypedAll(fields, vs) && j < |fields|
    ensures TypedAll(fields[..j], vs[..j]) && Typed(fields[j], vs[j])
    decreases |fields|
  {
    var n := |fields| - 1;
    if j < n {
      PrefixTyped(fields[..n], vs[..n], j);
      assert fields[..n][..j] == fields[..j] && fields[..n][j] == fields[j];
      assert vs[..n][..j] == vs[..j] && vs[..n][j] == vs[j];
    }
  }

  lemma {:induction false} FixedInside(fields: seq<Field>, size: nat)
    requires LaidOutAll(fields, size)
    ensures forall x :: x in FixedAll(fields) ==> x < size
    decreases |fields|
  {
    if fields != [] {
      FixedInside(fields[..|fields| - 1], size);
    }
  }

  // ----- storing

  /** Only the fixed part of a record at base, and lo to hi, have changed. */
  ghost predicate Confined(m: seq<Cell>, m': seq<Cell>, base: int, fixed: set<nat>, lo: int, hi: int) {
    |m'| == |m| && forall i :: 0 <= i < |m| && i - base !in fixed && !(lo <= i < hi) ==> m'[i] == m[i]
  }

  ghost predicate ChangedOnly(m: seq<Cell>, m': seq<Cell>, lo: int, hi: int) {
    |m'| == |m| && forall i :: 0 <= i < |m| && !(lo <= i < hi) ==> m'[i] == m[i]
  }

  method PutWord(dst: array<Cell>, a: int, w: int)
    requires 0 <= a && a + 4 <= dst.Length && IsInt(w)
    modifies dst
    ensures Holds(dst[..], a, w) && IntAt(dst[..], a) == w
    ensures forall i :: 0 <= i < dst.Length && !(a <= i < a + 4) ==> dst[i] == old(dst[i])
  {
    dst[a], dst[a + 1], dst[a + 2], dst[a + 3] := Part(w, 0), Part(w, 1), Part(w, 2), Part(w, 3);
  }

  /** A dbVarying. */
  method PutVarying(dst: array<Cell>, a: int, n: int, o: int)
    requires 0 <= a && a + VARYING <= dst.Length && IsInt(n) && IsInt(o)
    modifies dst
    ensures Holds(dst[..], a, n) && Holds(dst[..], a + OFFS, o)
    ensures ChangedOnly(old(dst[..]), dst[..], a, a + VARYING)
  {
    PutWord(dst, a, n);
    PutWord(dst, a + OFFS, o);
  }

  method PutBytes(dst: array<Cell>, a: int, bytes: seq<Byte>)
    requires 0 <= a && a + |bytes| <= dst.Length
    modifies dst
    ensures RawAt(dst[..], a, bytes)
    ensures forall i :: 0 <= i < dst.Length && !(a <= i < a + |bytes|) ==> dst[i] == old(dst[i])
  {
    forall i | a <= i < a + |bytes| {
      dst[i] := Raw(bytes[i - a]);
    }
  }

  /** storeRecordFields for one field; offs and the result count from base. */
  method StoreField(dst: array<Cell>, base: int, f: Field, v: Value, offs: int, ghost size: nat) returns (end: int)
    requires Typed(f, v) && LaidOut(f, size) && size <= offs
    requires 0 <= base && base + End(f, v, offs) <= dst.Length < LIMIT
    modifies dst
    ensures end == End(f, v, offs)
    ensures Stored(dst[..], base, f, v, offs)
    ensures Confined(old(dst[..]), dst[..], base, Fixed(f), base + offs, base + end)
    decreases f, 0
  {
    EndGrows(f, v, offs);
    match f.kind {
      case Scalar(_) =>
        FixedEnds(f, size);
        PutBytes(dst, base + f.offs, v.bytes);
        end := offs;
      case Text =>
        end := StoreText(dst, base, f, v, offs, size);
      case Array(_, _, _) =>
        end := StoreArray(dst, base, f, v, offs, size);
      case Structure(fields) =>
        end := StoreFields(dst, base, fields, v.values, offs, size);
    }
  }

  lemma FixedEnds(f: Field, size: nat)
    requires LaidOut(f, size)
    ensures f.kind.Scalar? ==> f.offs + f.kind.size <= size
    ensures f.kind.Text? || f.kind.Array? ==> f.offs + VARYING <= size
  {
    if f.kind.Scalar? {
      assert f.offs + f.kind.size - 1 in Fixed(f);
    }
    if f.kind.Text? || f.kind.Array? {
      assert f.offs + VARYING - 1 in Fixed(f);
    }
  }

  method StoreText(dst: array<Cell>, base: int, f: Field, v: Value, offs: int, ghost size: nat) returns (end: int)
    requires Typed(f, v) && f.kind.Text? && LaidOut(f, size) && size <= offs
    requires 0 <= base && base + End(f, v, offs) <= dst.Length < LIMIT
    modifies dst
    ensures end == End(f, v, offs)
    ensures Stored(dst[..], base, f, v, offs)
    ensures Confined(old(dst[..]), dst[..], base, Fixed(f), base + offs, base + end)
  {
    FixedEnds(f, size);
    PutWord(dst, base + f.offs + OFFS, offs);
    var str := if v.text.Some? then v.text.value else [];
    PutBytes(dst, base + offs, str + [0]);
    PutWord(dst, base + f.offs, |str| + 1);
    end := offs + (|str| + 1);
  }

  method StoreArray(dst: array<Cell>, base: int, f: Field, v: Value, offs: int, ghost size: nat) returns (end: int)
    requires Typed(f, v) && f.kind.Array? && LaidOut(f, size) && size <= offs
    requires 0 <= base && base + End(f, v, offs) <= dst.Length < LIMIT
    modifies dst
    ensures end == End(f, v, offs)
    ensures Stored(dst[..], base, f, v, offs)
    ensures Confined(old(dst[..]), dst[..], base, Fixed(f), base + offs, base + end)
    decreases f.kind.elem, |Parts(v)| + 2
  {
    hide StoredElems, EndElems, Total, Stored, RegionsElems, Packed, Confined, Holds;
    var elem, stride, n := f.kind.elem, f.kind.stride, |v.values|;
    var at := Align(offs, f.kind.alignment);
    var total := Total(n, stride);
    FixedEnds(f, size);
    ElemsEndGrows(elem, stride, v.values, total);
    ghost var m0 := dst[..];
    PutVarying(dst, base + f.offs, n, at);
    ghost var m1 := dst[..];
    var offsElem := StoreElems(dst, base + at, elem, stride, v.values);
    end := at + total + offsElem;
    ArrayDone(m0, m1, dst[..], base, f, v, offs, end);
  }

  lemma ArrayDone(m0: seq<Cell>, m1: seq<Cell>, m2: seq<Cell>, base: int, f: Field, v: Value, offs: int, end: int)
    requires f.kind.Array? && v.Many? && 0 <= base && f.offs + VARYING <= offs <= end
    requires ChangedOnly(m0, m1, base + f.offs, base + f.offs + VARYING)
    requires ChangedOnly(m1, m2, base + Align(offs, f.kind.alignment), base + end)
    requires Holds(m1, base + f.offs, |v.values|) && Holds(m1, base + f.offs + OFFS, Align(offs, f.kind.alignment))
    requires var total := Total(|v.values|, f.kind.stride);
             StoredElems(m2, base + Align(offs, f.kind.alignment), f.kind.elem, f.kind.stride, v.values, total)
    ensures Stored(m2, base, f, v, offs)
    ensures Confined(m0, m2, base, Fixed(f), base + offs, base + end)
  {
    hide StoredElems, Total;
    var at := Align(offs, f.kind.alignment);
    VaryingBehind(m1, m2, base, f.offs, |v.values|, at, base + at);
  }

  /** Words before a place are kept by changes behind it. */
  lemma VaryingBehind(m: seq<Cell>, m': seq<Cell>, base: int, offs: nat, n: int, o: int, a: int)
    requires Holds(m, base + offs, n) && Holds(m, base + offs + OFFS, o) && base + offs + VARYING <= a
    requires |m'| == |m| && forall i :: 0 <= i < a && i < |m| ==> m'[i] == m[i]
    ensures Holds(m', base + offs, n) && Holds(m', base + offs + OFFS, o) && IntAt(m', base + offs + OFFS) == o
  {
  }

  /** The loop over the elements of an array whose first element lies at a. The result counts
      from behind the last element. */
  method StoreElems(dst: array<Cell>, a: int, elem: Field, stride: nat, vs: seq<Value>) returns (offsElem: int)
    requires (forall i :: 0 <= i < |vs| ==> Typed(elem, vs[i])) && LaidOut(elem, stride)
    requires 0 <= a && a + Total(|vs|, stride) + EndElems(elem, stride, vs, Total(|vs|, stride)) <= dst.Length < LIMIT
    modifies dst
    ensures offsElem == EndElems(elem, stride, vs, Total(|vs|, stride))
    ensures StoredElems(dst[..], a, elem, stride, vs, Total(|vs|, stride))
    ensures var total := Total(|vs|, stride);
            Packed(RegionsElems(dst[..], a, elem, stride, |vs|), a + total, a + total + offsElem)
    ensures ChangedOnly(old(dst[..]), dst[..], a, a + Total(|vs|, stride) + offsElem)
    decreases elem, |vs| + 1
  {
    hide Stored, StoredElems, LaidOut, Fixed, Typed, End, EndElems, Confined, RegionsElems, Packed, InOrder;
    var total := Total(|vs|, stride);
    var i, at := 0, a;
    offsElem := total;
    NoElems(dst[..], a, elem, stride, total);
    while i < |vs|
      invariant 0 <= i <= |vs| && at == a + Total(i, stride)
      invariant offsElem == EndElems(elem, stride, vs[..i], total)
      invariant StoredElems(dst[..], a, elem, stride, vs[..i], total)
      invariant at + offsElem >= a + total
      invariant forall x :: 0 <= x < dst.Length && !(a <= x < at + offsElem) ==> dst[x] == old(dst[x])
    {
      ElemFits(dst[..], a, elem, stride, vs, i);
      ghost var m := dst[..];
      ghost var before := offsElem;
      offsElem := StoreField(dst, at, elem, vs[i], offsElem, stride);
      ElemStored(m, dst[..], a, elem, stride, vs, i, total, at + offsElem);
      ElemConfined(m, dst[..], at, elem, stride, at + before, at + offsElem);
      offsElem := offsElem - stride;
      at := at + stride;
      i := i + 1;
    }
    assert vs[..i] == vs;
    ElemsPacked(dst[..], a, elem, stride, vs, total);
  }

  lemma NoElems(m: seq<Cell>, a: int, elem: Field, stride: nat, total: nat)
    ensures StoredElems(m, a, elem, stride, [], total) && EndElems(elem, stride, [], total) == total
  {
  }

  lemma ElemConfined(m: seq<Cell>, m': seq<Cell>, at: int, elem: Field, stride: nat, lo: int, hi: int)
    requires LaidOut(elem, stride) && Confined(m, m', at, Fixed(elem), lo, hi) && at + stride <= lo <= hi
    ensures |m'| == |m| && forall x :: 0 <= x < |m| && !(at <= x < hi) ==> m'[x] == m[x]
  {
    hide Fixed;
  }

  /** Room for element i. */
  lemma ElemFits(m: seq<Cell>, a: int, elem: Field, stride: nat, vs: seq<Value>, i: nat)
    requires i < |vs|
    ensures var total := Total(|vs|, stride);
            var r := EndElems(elem, stride, vs[..i], total);
            && r >= stride && Total(i, stride) + r >= total && Total(i, stride) + stride <= total
            && Total(i, stride) + End(elem, vs[i], r) <= total + EndElems(elem, stride, vs, total)
            && EndElems(elem, stride, vs[..i + 1], total) == End(elem, vs[i], r) - stride
            && End(elem, vs[i], r) >= r
  {
    var total := Total(|vs|, stride);
    ElemsEndGrows(elem, stride, vs[..i], total);
    ElemsEndMonotone(elem, stride, vs, total, i + 1);
    assert vs[..i + 1][..i] == vs[..i] && vs[..i + 1][i] == vs[i];
    TotalGrows(i + 1, |vs|, stride);
    EndGrows(elem, vs[i], EndElems(elem, stride, vs[..i], total));
  }

  lemma {:induction false} TotalGrows(i: nat, n: nat, stride: nat)
    requires i <= n
    ensures Total(i, stride) <= Total(n, stride)
  {
    if i < n {
      TotalGrows(i, n - 1, stride);
    }
  }

  /** Element i joins those stored before it. */
  lemma ElemStored(m: seq<Cell>, m': seq<Cell>, a: int, elem: Field, stride: nat, vs: seq<Value>, i: nat,
                   offs: int, hi: int)
    requires i < |vs| && LaidOut(elem, stride) && StoredElems(m, a, elem, stride, vs[..i], offs)
    requires var at, before := a + Total(i, stride), EndElems(elem, stride, vs[..i], offs);
             && at + stride <= a + offs <= at + before
             && Stored(m', at, elem, vs[i], before)
             && Confined(m, m', at, Fixed(elem), at + before, hi)
    ensures StoredElems(m', a, elem, stride, vs[..i + 1], offs)
  {
    var at, before := a + Total(i, stride), EndElems(elem, stride, vs[..i], offs);
    EarlierSame(m, m', a, elem, stride, i, a + offs, at + before, hi);
    hide Stored, Fixed, LaidOut, Confined, Total, Span;
    ElemsKept(m, m', a, elem, stride, vs[..i], offs);
    assert vs[..i + 1][..i] == vs[..i] && vs[..i + 1][i] == vs[i];
  }

  lemma EarlierSame(m: seq<Cell>, m': seq<Cell>, a: int, elem: Field, stride: nat, i: nat, lo: int, hi: int, hi': int)
    requires LaidOut(elem, stride) && a + Total(i, stride) + stride <= lo <= hi
    requires Confined(m, m', a + Total(i, stride), Fixed(elem), hi, hi')
    ensures Same(m, m', a, Span(0, Total(i, stride)), lo, hi)
  {
  }

  /** storeRecordFields for a list of fields. */
  method StoreFields(dst: array<Cell>, base: int, fields: seq<Field>, vs: seq<Value>, offs: int, ghost size: nat)
    returns (end: int)
    requires TypedAll(fields, vs) && LaidOutAll(fields, size) && size <= offs
    requires 0 <= base && base + EndAll(fields, vs, offs) <= dst.Length < LIMIT
    modifies dst
    ensures end == EndAll(fields, vs, offs)
    ensures StoredAll(dst[..], base, fields, vs, offs)
    ensures FetchedAll(dst[..], base, fields) == NormalAll(vs)
    ensures var rs := RegionsAll(dst[..], base, fields);
            Packed(rs, base + offs, base + end) && InOrder(rs, base + offs, base + end)
    ensures Confined(old(dst[..]), dst[..], base, FixedAll(fields), base + offs, base + end)
    decreases fields, 0
  {
    ghost var m0 := dst[..];
    NoFields(m0, base, fields, vs, offs);
    hide *;
    var j := 0;
    end := offs;
    while j < |fields|
      invariant 0 <= j <= |fields|
      invariant StoredUpTo(m0, dst[..], base, fields, vs, j, offs, end)
    {
      FieldReady(m0, dst[..], base, fields, vs, j, offs, end, size);
      ghost var m := dst[..];
      end := StoreField(dst, base, fields[j], vs[j], end, size);
      FieldJoins(m0, m, dst[..], base, fields, vs, j, offs, end, size);
      j := j + 1;
    }
    AllJoined(m0, dst[..], base, fields, vs, offs, end);
  }

  /** The first j fields are stored, and nothing else has changed since m0. */
  ghost predicate StoredUpTo(m0: seq<Cell>, m: seq<Cell>, base: int, fields: seq<Field>, vs: seq<Value>, j: nat,
                             offs: int, end: int)
  {
    && j <= |fields| == |vs|
    && end == EndAll(fields[..j], vs[..j], offs) && end >= offs
    && StoredAll(m, base, fields[..j], vs[..j], offs)
    && Confined(m0, m, base, FixedAll(fields[..j]), base + offs, base + end)
  }

  /** The requirements for storing field j. */
  lemma FieldReady(m0: seq<Cell>, m: seq<Cell>, base: int, fields: seq<Field>, vs: seq<Value>, j: nat,
                   offs: int, end: int, size: nat)
    requires j < |fields| && StoredUpTo(m0, m, base, fields, vs, j, offs, end)
    requires TypedAll(fields, vs) && LaidOutAll(fields, size) && size <= offs
    ensures |vs| == |fields| && Typed(fields[j], vs[j]) && LaidOut(fields[j], size) && size <= end
    ensures End(fields[j], vs[j], end) <= EndAll(fields, vs, offs)
  {
    hide Stored, StoredAll, Fixed, FixedAll, LaidOut, Typed, End, Confined;
    PrefixLaidOut(fields, size, j);
    PrefixTyped(fields, vs, j);
    FieldFits(fields, vs, offs, j);
  }

  lemma FieldJoins(m0: seq<Cell>, m: seq<Cell>, m': seq<Cell>, base: int, fields: seq<Field>, vs: seq<Value>, j: nat,
                   offs: int, end: int, size: nat)
    requires j < |fields| && LaidOutAll(fields, size) && size <= offs && |vs| == |fields|
    requires var before := EndAll(fields[..j], vs[..j], offs);
             && StoredUpTo(m0, m, base, fields, vs, j, offs, before)
             && end == End(fields[j], vs[j], before)
             && Stored(m', base, fields[j], vs[j], before)
             && Confined(m, m', base, Fixed(fields[j]), base + before, base + end)
    ensures StoredUpTo(m0, m', base, fields, vs, j + 1, offs, end)
  {
    hide Stored, StoredAll, Fixed, FixedAll, LaidOut, LaidOutAll, End, Confined;
    var before := EndAll(fields[..j], vs[..j], offs);
    FieldFits(fields, vs, offs, j);
    FieldStored(m, m', base, fields, vs, j, offs, end, size);
    FieldConfined(m0, m, m', base, fields, j, base + offs, base + before, base + end);
  }

  lemma AllJoined(m0: seq<Cell>, m: seq<Cell>, base: int, fields: seq<Field>, vs: seq<Value>, offs: int, end: int)
    requires TypedAll(fields, vs) && StoredUpTo(m0, m, base, fields, vs, |fields|, offs, end)
    ensures end == EndAll(fields, vs, offs) && StoredAll(m, base, fields, vs, offs)
    ensures FetchedAll(m, base, fields) == NormalAll(vs)
    ensures var rs := RegionsAll(m, base, fields);
            Packed(rs, base + offs, base + end) && InOrder(rs, base + offs, base + end)
    ensures Confined(m0, m, base, FixedAll(fields), base + offs, base + end)
  {
    hide StoredAll, TypedAll, Confined, Packed, InOrder, RegionsAll, FetchedAll, NormalAll, EndAll, FixedAll;
    assert fields[..|fields|] == fields && vs[..|fields|] == vs;
    AllFetch(m, base, fields, vs, offs);
    AllPacked(m, base, fields, vs, offs);
    PackedInOrder(RegionsAll(m, base, fields), base + offs, base + end);
  }

  lemma NoFields(m: seq<Cell>, base: int, fields: seq<Field>, vs: seq<Value>, offs: int)
    requires TypedAll(fields, vs)
    ensures StoredUpTo(m, m, base, fields, vs, 0, offs, offs)
  {
  }

  lemma FieldFits(fields: seq<Field>, vs: seq<Value>, offs: int, j: nat)
    requires j < |fields| == |vs|
    ensures EndAll(fields[..j + 1], vs[..j + 1], offs) == End(fields[j], vs[j], EndAll(fields[..j], vs[..j], offs))
    ensures EndAll(fields[..j + 1], vs[..j + 1], offs) <= EndAll(fields, vs, offs)
    ensures EndAll(fields[..j + 1], vs[..j + 1], offs) >= EndAll(fields[..j], vs[..j], offs)
  {
    AllEndMonotone(fields, vs, offs, j + 1);
    EndGrows(fields[j], vs[j], EndAll(fields[..j], vs[..j], offs));
    assert fields[..j + 1][..j] == fields[..j] && fields[..j + 1][j] == fields[j];
    assert vs[..j + 1][..j] == vs[..j] && vs[..j + 1][j] == vs[j];
  }

  lemma FrontSame(m: seq<Cell>, m': seq<Cell>, base: int, fields: seq<Field>, j: nat, lo: int, mid: int, hi: int)
    requires j < |fields| && FixedAll(fields[..j]) !! Fixed(fields[j])
    requires forall x :: x in FixedAll(fields[..j]) ==> base + x < mid
    requires forall x :: x in Fixed(fields[j]) ==> base + x < lo
    requires Confined(m, m', base, Fixed(fields[j]), mid, hi)
    ensures Same(m, m', base, FixedAll(fields[..j]), lo, mid)
  {
    hide Fixed, FixedAll;
  }

  lemma FieldStored(m: seq<Cell>, m': seq<Cell>, base: int, fields: seq<Field>, vs: seq<Value>, j: nat,
                    offs: int, end: int, size: nat)
    requires j < |fields| == |vs| && LaidOutAll(fields, size) && size <= offs
    requires StoredAll(m, base, fields[..j], vs[..j], offs)
    requires var before := EndAll(fields[..j], vs[..j], offs);
             && offs <= before
             && Stored(m', base, fields[j], vs[j], before)
             && Confined(m, m', base, Fixed(fields[j]), base + before, base + end)
    ensures StoredAll(m', base, fields[..j + 1], vs[..j + 1], offs)
  {
    hide Stored, StoredAll, Fixed, FixedAll, LaidOutAll, Confined;
    var before := EndAll(fields[..j], vs[..j], offs);
    PrefixLaidOut(fields, size, j);
    FixedInside(fields[..j], size);
    FieldInside(fields[j], size);
    FrontSame(m, m', base, fields, j, base + offs, base + before, base + end);
    AllKept(m, m', base, fields[..j], vs[..j], offs, size);
    StoredAllAdd(m', base, fields, vs, j, offs);
  }

  lemma FieldInside(f: Field, size: nat)
    requires LaidOut(f, size)
    ensures forall x :: x in Fixed(f) ==> x < size
  {
  }

  lemma StoredAllAdd(m: seq<Cell>, base: int, fields: seq<Field>, vs: seq<Value>, j: nat, offs: int)
    requires j < |fields| == |vs| && StoredAll(m, base, fields[..j], vs[..j], offs)
    requires Stored(m, base, fields[j], vs[j], EndAll(fields[..j], vs[..j], offs))
    ensures StoredAll(m, base, fields[..j + 1], vs[..j + 1], offs)
  {
    hide Stored;
    PrefixParts(fields, j);
    PrefixParts(vs, j);
  }

  lemma PrefixParts<T>(s: seq<T>, j: nat)
    requires j < |s|
    ensures s[..j + 1][..j] == s[..j] && s[..j + 1][j] == s[j]
  {
  }

  lemma FieldConfined(m0: seq<Cell>, m: seq<Cell>, m': seq<Cell>, base: int, fields: seq<Field>, j: nat, lo: int,
                      mid: int, hi: int)
    requires j < |fields| && lo <= mid <= hi
    requires Confined(m0, m, base, FixedAll(fields[..j]), lo, mid) && Confined(m, m', base, Fixed(fields[j]), mid, hi)
    ensures Confined(m0, m', base, FixedAll(fields[..j + 1]), lo, hi)
  {
    assert fields[..j + 1][..j] == fields[..j] && fields[..j + 1][j] == fields[j];
    forall i | 0 <= i < |m0| && i - base !in FixedAll(fields[..j + 1]) && !(lo <= i < hi)
      ensures m'[i] == m0[i]
    {
      assert i - base !in FixedAll(fields[..j]) && i - base !in Fixed(fields[j]);
    }
  }

  // ----- variable parts do not overlap

  /** A range of bytes, and what its start is aligned to. */
  datatype Region = Region(lo: int, hi: int, alignment: nat)

  /** The variable parts that the record at base refers to, at any depth: the characters of its
      strings and the elements of its arrays, where the sizes and offsets in the bytes say. */
  function Regions(m: seq<Cell>, base: int, f: Field): seq<Region>
    decreases f, 0
  {
    var n, a := IntAt(m, base + f.offs), base + IntAt(m, base + f.offs + OFFS);
    match f.kind
    case Scalar(_) => []
    case Text => [Region(a, a + n, 1)]
    case Array(elem, stride, alignment) =>
      var count := if n < 0 then 0 else n;
      [Region(a, a + Total(count, stride), alignment)] + RegionsElems(m, a, elem, stride, count)
    case Structure(fields) => RegionsAll(m, base, fields)
  }

  function RegionsElems(m: seq<Cell>, a: int, elem: Field, stride: nat, n: nat): seq<Region>
    decreases elem, n + 1
  {
    if n == 0 then []
    else RegionsElems(m, a, elem, stride, n - 1) + Regions(m, a + Total(n - 1, stride), elem)
  }

  function RegionsAll(m: seq<Cell>, base: int, fields: seq<Field>): seq<Region>
    decreases fields, 0
  {
    if fields == [] then []
    else RegionsAll(m, base, fields[..|fields| - 1]) + Regions(m, base, fields[|fields| - 1])
  }

  /** The regions lie between lo and hi, each behind the ones before it. */
  predicate InOrder(rs: seq<Region>, lo: int, hi: int) {
    && lo <= hi
    && (forall i :: 0 <= i < |rs| ==> lo <= rs[i].lo <= rs[i].hi <= hi)
    && (forall i, j :: 0 <= i < j < |rs| ==> rs[i].hi <= rs[j].lo)
  }

  /** Where region i could begin at the earliest. */
  function Behind(rs: seq<Region>, i: nat, lo: int): int
    requires i <= |rs|
  {
    if i == 0 then lo else rs[i - 1].hi
  }

  /** The regions fill lo to hi: each begins where the one before it ends, but for what its
      alignment takes. */
  predicate Packed(rs: seq<Region>, lo: int, hi: int) {
    && hi == Behind(rs, |rs|, lo)
    && forall i :: 0 <= i < |rs| ==> FollowsOn(Behind(rs, i, lo), rs[i])
  }

  predicate FollowsOn(end: int, r: Region) {
    end <= r.lo <= r.hi && (r.lo == end || r.lo < end + r.alignment)
  }

  lemma PackedJoin(front: seq<Region>, back: seq<Region>, lo: int, mid: int, hi: int)
    requires Packed(front, lo, mid) && Packed(back, mid, hi)
    ensures Packed(front + back, lo, hi)
  {
    var rs, n := front + back, |front|;
    forall i | 0 <= i < |rs|
      ensures FollowsOn(Behind(rs, i, lo), rs[i])
    {
      if i < n {
        assert FollowsOn(Behind(front, i, lo), front[i]);
      } else {
        assert FollowsOn(Behind(back, i - n, mid), back[i - n]);
      }
    }
  }

  lemma NonePacked(at: int)
    ensures Packed([], at, at)
  {
  }

  lemma OnePacked(lo: int, r: Region)
    requires FollowsOn(lo, r)
    ensures Packed([r], lo, r.hi)
  {
  }

  lemma PackedFront(rs: seq<Region>, lo: int, hi: int) returns (mid: int)
    requires Packed(rs, lo, hi) && rs != []
    ensures var n := |rs| - 1; Packed(rs[..n], lo, mid) && mid <= rs[n].lo <= rs[n].hi == hi
  {
    var n := |rs| - 1;
    mid := Behind(rs, n, lo);
    forall i | 0 <= i < n
      ensures FollowsOn(Behind(rs[..n], i, lo), rs[..n][i])
    {
      assert FollowsOn(Behind(rs, i, lo), rs[i]);
    }
    assert FollowsOn(mid, rs[n]);
  }

  lemma NoneInOrder(lo: int, hi: int)
    requires Packed([], lo, hi)
    ensures InOrder([], lo, hi)
  {
  }

  lemma {:induction false} PackedInOrder(rs: seq<Region>, lo: int, hi: int)
    requires Packed(rs, lo, hi)
    ensures InOrder(rs, lo, hi)
    decreases |rs|
  {
    hide *;
    if rs == [] {
      NoneInOrder(lo, hi);
    } else {
      var n := |rs| - 1;
      var mid := PackedFront(rs, lo, hi);
      PackedInOrder(rs[..n], lo, mid);
      InOrderAdd(rs[..n], rs[n], lo, mid, hi);
      assert rs == rs[..n] + [rs[n]];
    }
  }

  lemma InOrderAdd(front: seq<Region>, r: Region, lo: int, mid: int, hi: int)
    requires InOrder(front, lo, mid) && mid <= r.lo <= r.hi == hi
    ensures InOrder(front + [r], lo, hi)
  {
  }

  /** The variable parts of a stored record lie one behind the other, with nothing between them
      but padding, and end where store does; so no two of them have a byte in common. */
  lemma {:induction false} PartsPacked(m: seq<Cell>, base: int, f: Field, v: Value, offs: int)
    requires Stored(m, base, f, v, offs)
    ensures Packed(Regions(m, base, f), base + offs, base + End(f, v, offs))
    decreases f, 0
  {
    match f.kind {
      case Scalar(_) =>
      case Text =>
        HoldsReads(m, base + f.offs, |Chars(v)| + 1);
        HoldsReads(m, base + f.offs + OFFS, offs);
      case Array(_, _, _) => ArrayPacked(m, base, f, v, offs);
      case Structure(fields) => AllPacked(m, base, fields, v.values, offs);
    }
  }

  lemma {:induction false} ArrayPacked(m: seq<Cell>, base: int, f: Field, v: Value, offs: int)
    requires Stored(m, base, f, v, offs) && f.kind.Array?
    ensures Packed(Regions(m, base, f), base + offs, base + End(f, v, offs))
    decreases f.kind.elem, |Parts(v)| + 2
  {
    hide StoredElems, EndElems, RegionsElems, Total, Packed;
    var elem, stride, n, start := f.kind.elem, f.kind.stride, |v.values|, Align(offs, f.kind.alignment);
    var total := Total(n, stride);
    HoldsReads(m, base + f.offs, n);
    HoldsReads(m, base + f.offs + OFFS, start);
    ElemsPacked(m, base + start, elem, stride, v.values, total);
    OnePacked(base + offs, Region(base + start, base + start + total, f.kind.alignment));
    PackedJoin([Region(base + start, base + start + total, f.kind.alignment)],
               RegionsElems(m, base + start, elem, stride, n),
                base + offs, base + start + total, base + End(f, v, offs));
  }

  lemma {:induction false} ElemsPacked(m: seq<Cell>, a: int, elem: Field, stride: nat, vs: seq<Value>, offs: int)
    requires StoredElems(m, a, elem, stride, vs, offs)
    ensures Packed(RegionsElems(m, a, elem, stride, |vs|),
                    a + offs, a + Total(|vs|, stride) + EndElems(elem, stride, vs, offs))
    decreases elem, |vs| + 1
  {
    NonePacked(a + offs);
    hide Packed, Stored, Regions, End, Behind, FollowsOn;
    if vs != [] {
      var n := |vs| - 1;
      var at, before := a + Total(n, stride), EndElems(elem, stride, vs[..n], offs);
      ElemsPacked(m, a, elem, stride, vs[..n], offs);
      PartsPacked(m, at, elem, vs[n], before);
      PackedJoin(RegionsElems(m, a, elem, stride, n), Regions(m, at, elem),
                  a + offs, at + before, at + End(elem, vs[n], before));
    }
  }

  lemma {:induction false} AllPacked(m: seq<Cell>, base: int, fields: seq<Field>, vs: seq<Value>, offs: int)
    requires StoredAll(m, base, fields, vs, offs)
    ensures Packed(RegionsAll(m, base, fields), base + offs, base + EndAll(fields, vs, offs))
    decreases fields, 0
  {
    NonePacked(base + offs);
    hide Packed, Stored, Regions, End, Behind, FollowsOn;
    if fields != [] {
      var n := |fields| - 1;
      var before := EndAll(fields[..n], vs[..n], offs);
      AllPacked(m, base, fields[..n], vs[..n], offs);
      PartsPacked(m, base, fields[n], vs[n], before);
      PackedJoin(RegionsAll(m, base, fields[..n]), Regions(m, base, fields[n]),
                  base + offs, base + before, base + EndAll(fields, vs, offs));
    }
  }

  // ----- fetching

  /** fetchRecordFields for one field. */
  method FetchField(src: array<Cell>, base: int, f: Field) returns (v: Value)
    ensures v == Fetched(src[..], base, f)
    decreases f, 0
  {
    var at := base + f.offs;
    match f.kind {
      case Scalar(size) =>
        v := Bytes(BytesAt(src[..], at, size));
      case Text =>
        var chars := FetchChars(src, base + IntAt(src[..], at + OFFS));
        v := Str(Some(chars));
      case Array(elem, stride, _) =>
        var n := IntAt(src[..], at);
        var vs := FetchElems(src, base + IntAt(src[..], at + OFFS), elem, stride, if n < 0 then 0 else n);
        v := Many(vs);
      case Structure(fields) =>
        var vs := FetchFields(src, base, fields);
        v := Many(vs);
    }
  }

  /** A string is used up to its terminating zero. */
  method FetchChars(src: array<Cell>, a: int) returns (chars: seq<Byte>)
    ensures chars == CString(src[..], a)
  {
    chars := [];
    var i := a;
    while ByteAt(src[..], i) != 0
      invariant chars + CString(src[..], i) == CString(src[..], a)
      decreases src.Length - i
    {
      chars := chars + [ByteAt(src[..], i)];
      i := i + 1;
    }
  }

  /** The loop over the elements of an array. */
  method FetchElems(src: array<Cell>, a: int, elem: Field, stride: nat, n: nat) returns (vs: seq<Value>)
    ensures vs == FetchedElems(src[..], a, elem, stride, n)
    decreases elem, n + 1
  {
    vs := [];
    var i, at := 0, a;
    while i < n
      invariant 0 <= i <= n && at == a + Total(i, stride)
      invariant vs == FetchedElems(src[..], a, elem, stride, i)
    {
      var v := FetchField(src, at, elem);
      vs := vs + [v];
      at := at + stride;
      i := i + 1;
    }
  }

  /** fetchRecordFields for a list of fields. */
  method FetchFields(src: array<Cell>, base: int, fields: seq<Field>) returns (vs: seq<Value>)
    ensures vs == FetchedAll(src[..], base, fields)
    decreases fields, 0
  {
    vs := [];
    var j := 0;
    while j < |fields|
      invariant 0 <= j <= |fields| && vs == FetchedAll(src[..], base, fields[..j])
    {
      assert fields[..j + 1][..j] == fields[..j] && fields[..j + 1][j] == fields[j];
      var v := FetchField(src, base, fields[j]);
      vs := vs + [v];
      j := j + 1;
    }
    assert fields[..j] == fields;
  }

  // ----- the predicted size

  /** Every array alignment in f divides n. */
  predicate Divides(f: Field, n: int)
    decreases f, 0
  {
    match f.kind
    case Array(elem, _, alignment) => alignment > 0 && n % alignment == 0 && Divides(elem, n)
    case Structure(fields) => DividesAll(fields, n)
    case _ => true
  }

  predicate DividesAll(fields: seq<Field>, n: int)
    decreases fields, 0
  {
    fields != [] ==> DividesAll(fields[..|fields| - 1], n) && Divides(fields[|fields| - 1], n)
  }

  /** Every alignment inside the elements of an array divides the alignment and the size of
      the elements. */
  predicate Aligned(f: Field)
    decreases f, 0
  {
    match f.kind
    case Array(elem, stride, alignment) =>
      alignment > 0 && Divides(elem, alignment) && Divides(elem, stride) && Aligned(elem)
    case Structure(fields) => AlignedAll(fields)
    case _ => true
  }

  predicate AlignedAll(fields: seq<Field>)
    decreases fields, 0
  {
    fields != [] ==> AlignedAll(fields[..|fields| - 1]) && Aligned(fields[|fields| - 1])
  }

  /** Division by m is determined by its result. */
  lemma ModUnique(x: int, m: int, q: int, r: int)
    requires m > 0 && 0 <= r < m && x == q * m + r
    ensures x % m == r
  {
    var d := q - x / m;
    assert d * m == x % m - r by {
      assert x == x / m * m + x % m;
      assert d * m == q * m - x / m * m;
    }
    if d > 0 {
      AtLeast(d, m);
    } else if d < 0 {
      AtLeast(-d, m);
    }
  }

  lemma AtLeast(d: int, m: int)
    requires d > 0 && m > 0
    ensures d * m >= m
  {
    assert d * m == (d - 1) * m + m;
    assert (d - 1) * m >= 0;
  }

  lemma ModAdd(x: int, y: int, m: int)
    requires m > 0 && x % m == 0 && y % m == 0
    ensures (x + y) % m == 0
  {
    assert x == x / m * m && y == y / m * m;
    assert x + y == (x / m + y / m) * m;
    ModUnique(x + y, m, x / m + y / m, 0);
  }

  lemma {:induction false} DividesAdd(f: Field, x: int, y: int)
    requires Divides(f, x) && Divides(f, y)
    ensures Divides(f, x + y)
    decreases f, 0
  {
    match f.kind {
      case Array(elem, _, alignment) =>
        ModAdd(x, y, alignment);
        DividesAdd(elem, x, y);
      case Structure(fields) => DividesAllAdd(fields, x, y);
      case _ =>
    }
  }

  lemma {:induction false} DividesAllAdd(fields: seq<Field>, x: int, y: int)
    requires DividesAll(fields, x) && DividesAll(fields, y)
    ensures DividesAll(fields, x + y)
    decreases fields, 0
  {
    if fields != [] {
      DividesAllAdd(fields[..|fields| - 1], x, y);
      DividesAdd(fields[|fields| - 1], x, y);
    }
  }

  lemma ModMultiple(n: int, a: int, b: int)
    requires a > 0 && b > 0 && n % a == 0 && a % b == 0
    ensures n % b == 0
  {
    assert n == n / a * a && a == a / b * b;
    assert n == n / a * (a / b) * b;
    ModUnique(n, b, n / a * (a / b), 0);
  }

  lemma {:induction false} DividesMultiple(f: Field, a: int, n: int)
    requires Divides(f, a) && a > 0 && n % a == 0
    ensures Divides(f, n)
    decreases f, 0
  {
    match f.kind {
      case Array(elem, _, alignment) =>
        ModMultiple(n, a, alignment);
        DividesMultiple(elem, a, n);
      case Structure(fields) => DividesAllMultiple(fields, a, n);
      case _ =>
    }
  }

  lemma {:induction false} DividesAllMultiple(fields: seq<Field>, a: int, n: int)
    requires DividesAll(fields, a) && a > 0 && n % a == 0
    ensures DividesAll(fields, n)
    decreases fields, 0
  {
    if fields != [] {
      DividesAllMultiple(fields[..|fields| - 1], a, n);
      DividesMultiple(fields[|fields| - 1], a, n);
    }
  }

  lemma {:induction false} TotalDivides(f: Field, n: nat, stride: nat, base: int)
    requires Divides(f, stride) && Divides(f, base)
    ensures Divides(f, base + Total(n, stride))
  {
    if n > 0 {
      TotalDivides(f, n - 1, stride, base);
      DividesAdd(f, base + Total(n - 1, stride), stride);
    }
  }

  predicate Multiple(n: int, of: nat) {
    of == 0 || n % of == 0
  }

  /** Aligning relative to a base is aligning absolutely exactly on an aligned base. */
  lemma AlignShift(base: int, n: int, to: nat)
    ensures Align(base + n, to) == base + Align(n, to) <==> Multiple(base, to)
  {
    if to > 0 {
      AlignIsMultiple(n, to);
      AlignIsMultiple(base + n, to);
      if base % to == 0 {
        assert base == base / to * to && n == n / to * to + n % to;
        assert base + n == (base / to + n / to) * to + n % to;
        ModUnique(base + n, to, base / to + n / to, n % to);
      } else if Align(base + n, to) == base + Align(n, to) {
        ModSubtract(Align(base + n, to), Align(n, to), to);
        assert false;
      }
    }
  }

  lemma ModSubtract(x: int, y: int, m: int)
    requires m > 0 && x % m == 0 && y % m == 0
    ensures (x - y) % m == 0
  {
    assert x == x / m * m && y == y / m * m;
    assert x - y == (x / m - y / m) * m;
    ModUnique(x - y, m, x / m - y / m, 0);
  }

  lemma AlignIsMultiple(n: int, to: nat)
    requires to > 0
    ensures Align(n, to) % to == 0
  {
    if n % to != 0 {
      assert n == n / to * to + n % to;
      assert n + to - n % to == (n / to + 1) * to;
      ModUnique(n + to - n % to, to, n / to + 1, 0);
    }
  }

  /** Every array in v, at any depth, belongs to a record or an element whose place in the
      whole record is a multiple of the array's alignment. */
  predicate OnBase(f: Field, v: Value, base: int, offs: int)
    decreases f, 0
  {
    match f.kind
    case Array(elem, stride, alignment) =>
      && Multiple(base, alignment)
      && OnBaseElems(elem, stride, Parts(v), base + Align(offs, alignment), Total(|Parts(v)|, stride))
    case Structure(fields) => OnBaseAll(fields, Parts(v), base, offs)
    case _ => true
  }

  predicate OnBaseElems(elem: Field, stride: nat, vs: seq<Value>, a: int, offs: int)
    decreases elem, |vs| + 1
  {
    vs != [] ==>
      var front := vs[..|vs| - 1];
      && OnBaseElems(elem, stride, front, a, offs)
      && OnBase(elem, vs[|vs| - 1], a + Total(|front|, stride), EndElems(elem, stride, front, offs))
  }

  predicate OnBaseAll(fields: seq<Field>, vs: seq<Value>, base: int, offs: int)
    decreases fields, 0
  {
    fields != [] && |vs| == |fields| ==>
      var front, frontVs := fields[..|fields| - 1], vs[..|vs| - 1];
      && OnBaseAll(front, frontVs, base, offs)
      && OnBase(fields[|fields| - 1], vs[|vs| - 1], base, EndAll(front, frontVs, offs))
  }

  /** Store, which has come to offs behind base, and the size pass, which has come to s, are at
      the same place before and behind f and before and behind everything inside f. */
  predicate Meets(f: Field, v: Value, base: int, offs: int, s: int)
    decreases f, 0
  {
    && base + offs == s && base + End(f, v, offs) == Size(f, v, s)
    && match f.kind
       case Array(elem, stride, alignment) =>
         var total := Total(|Parts(v)|, stride);
         MeetsElems(elem, stride, Parts(v), base + Align(offs, alignment), total, Align(s, alignment) + total)
       case Structure(fields) => MeetsAll(fields, Parts(v), base, offs, s)
       case _ => true
  }

  predicate MeetsElems(elem: Field, stride: nat, vs: seq<Value>, a: int, offs: int, s: int)
    decreases elem, |vs| + 1
  {
    vs != [] ==>
      var front := vs[..|vs| - 1];
      && MeetsElems(elem, stride, front, a, offs, s)
      && Meets(elem, vs[|vs| - 1], a + Total(|front|, stride), EndElems(elem, stride, front, offs),
               SizeElems(elem, front, s))
  }

  predicate MeetsAll(fields: seq<Field>, vs: seq<Value>, base: int, offs: int, s: int)
    decreases fields, 0
  {
    fields != [] && |vs| == |fields| ==>
      var front, frontVs := fields[..|fields| - 1], vs[..|vs| - 1];
      && MeetsAll(front, frontVs, base, offs, s)
      && Meets(fields[|fields| - 1], vs[|vs| - 1], base, EndAll(front, frontVs, offs), SizeAll(front, frontVs, s))
  }

  /** The prediction is right everywhere inside a value exactly when its arrays are on base. */
  lemma {:induction false} MeetsOnBase(f: Field, v: Value, base: int, offs: int)
    ensures Meets(f, v, base, offs, base + offs) <==> OnBase(f, v, base, offs)
    decreases f, 0
  {
    match f.kind {
      case Array(_, _, _) => ArrayMeetsOnBase(f, v, base, offs);
      case Structure(fields) => AllMeetOnBase(fields, Parts(v), base, offs);
      case _ =>
    }
  }

  lemma {:induction false} ArrayMeetsOnBase(f: Field, v: Value, base: int, offs: int)
    requires f.kind.Array?
    ensures Meets(f, v, base, offs, base + offs) <==> OnBase(f, v, base, offs)
    decreases f.kind.elem, |Parts(v)| + 2
  {
    assert Total(0, f.kind.stride) == 0;
    hide Multiple, Align, Total;
    var elem, stride, alignment, vs := f.kind.elem, f.kind.stride, f.kind.alignment, Parts(v);
    var at, total := Align(offs, alignment), Total(|vs|, stride);
    AlignShift(base, offs, alignment);
    if Multiple(base, alignment) {
      ElemsMeetOnBase(elem, stride, vs, base + at, total);
    } else if vs == [] {
      assert End(f, v, offs) == at && Size(f, v, base + offs) == Align(base + offs, alignment);
    } else if MeetsElems(elem, stride, vs, base + at, total, Align(base + offs, alignment) + total) {
      MeetFromStart(elem, stride, vs, base + at, total, Align(base + offs, alignment) + total);
      assert false;
    }
  }

  lemma {:induction false} MeetFromStart(elem: Field, stride: nat, vs: seq<Value>, a: int, offs: int, s: int)
    requires vs != [] && MeetsElems(elem, stride, vs, a, offs, s)
    ensures a + offs == s
    decreases |vs|
  {
    if |vs| > 1 {
      MeetFromStart(elem, stride, vs[..|vs| - 1], a, offs, s);
    }
  }

  lemma {:induction false} ElemsMeetOnBase(elem: Field, stride: nat, vs: seq<Value>, a: int, offs: int)
    ensures MeetsElems(elem, stride, vs, a, offs, a + offs) <==> OnBaseElems(elem, stride, vs, a, offs)
    ensures OnBaseElems(elem, stride, vs, a, offs) ==>
              a + Total(|vs|, stride) + EndElems(elem, stride, vs, offs) == SizeElems(elem, vs, a + offs)
    decreases elem, |vs| + 1
  {
    if vs != [] {
      var n := |vs| - 1;
      ElemsMeetOnBase(elem, stride, vs[..n], a, offs);
      MeetsOnBase(elem, vs[n], a + Total(n, stride), EndElems(elem, stride, vs[..n], offs));
    }
  }

  lemma {:induction false} AllMeetOnBase(fields: seq<Field>, vs: seq<Value>, base: int, offs: int)
    ensures MeetsAll(fields, vs, base, offs, base + offs) <==> OnBaseAll(fields, vs, base, offs)
    ensures OnBaseAll(fields, vs, base, offs) ==> base + EndAll(fields, vs, offs) == SizeAll(fields, vs, base + offs)
    decreases fields, 0
  {
    if fields != [] && |vs| == |fields| {
      var n := |fields| - 1;
      AllMeetOnBase(fields[..n], vs[..n], base, offs);
      MeetsOnBase(fields[n], vs[n], base, EndAll(fields[..n], vs[..n], offs));
    }
  }

  /** Matching alignments keep the arrays of every value on base. */
  lemma {:induction false} AlignedOnBase(f: Field, v: Value, base: int, offs: int)
    requires Aligned(f) && Divides(f, base)
    ensures OnBase(f, v, base, offs)
    decreases f, 0
  {
    match f.kind {
      case Array(_, _, _) => ArrayOnBase(f, v, base, offs);
      case Structure(fields) => AllOnBase(fields, Parts(v), base, offs);
      case _ =>
    }
  }

  lemma {:induction false} ArrayOnBase(f: Field, v: Value, base: int, offs: int)
    requires f.kind.Array? && Aligned(f) && Divides(f, base)
    ensures OnBase(f, v, base, offs)
    decreases f.kind.elem, |Parts(v)| + 2
  {
    var elem, stride, alignment := f.kind.elem, f.kind.stride, f.kind.alignment;
    var at := Align(offs, alignment);
    AlignIsMultiple(offs, alignment);
    DividesMultiple(elem, alignment, at);
    DividesAdd(elem, base, at);
    ElemsOnBase(elem, stride, Parts(v), base + at, Total(|Parts(v)|, stride));
  }

  lemma {:induction false} ElemsOnBase(elem: Field, stride: nat, vs: seq<Value>, a: int, offs: int)
    requires Aligned(elem) && Divides(elem, stride) && Divides(elem, a)
    ensures OnBaseElems(elem, stride, vs, a, offs)
    decreases elem, |vs| + 1
  {
    if vs != [] {
      var n := |vs| - 1;
      ElemsOnBase(elem, stride, vs[..n], a, offs);
      TotalDivides(elem, n, stride, a);
      AlignedOnBase(elem, vs[n], a + Total(n, stride), EndElems(elem, stride, vs[..n], offs));
    }
  }

  lemma {:induction false} AllOnBase(fields: seq<Field>, vs: seq<Value>, base: int, offs: int)
    requires AlignedAll(fields) && DividesAll(fields, base)
    ensures OnBaseAll(fields, vs, base, offs)
    decreases fields, 0
  {
    if fields != [] && |vs| == |fields| {
      var n := |fields| - 1;
      AllOnBase(fields[..n], vs[..n], base, offs);
      AlignedOnBase(fields[n], vs[n], base, EndAll(fields[..n], vs[..n], offs));
    }
  }

  /** For a record and its value: the size pass is where store is, everywhere on the way,
      exactly when the arrays of the value are on base, and then it predicts the end. */
  lemma PredictedOnBase(fields: seq<Field>, vs: seq<Value>, offs: int)
    ensures MeetsAll(fields, vs, 0, offs, offs) <==> OnBaseAll(fields, vs, 0, offs)
    ensures OnBaseAll(fields, vs, 0, offs) ==> EndAll(fields, vs, offs) == SizeAll(fields, vs, offs)
  {
    AllMeetOnBase(fields, vs, 0, offs);
  }

  /** With matching alignments calculateRecordSize predicts where storeRecordFields ends, for
      every value. */
  lemma SizePredicted(fields: seq<Field>, vs: seq<Value>, offs: int)
    requires AlignedAll(fields)
    ensures EndAll(fields, vs, offs) == SizeAll(fields, vs, offs)
  {
    ZeroDividesAll(fields);
    AllOnBase(fields, vs, 0, offs);
    PredictedOnBase(fields, vs, offs);
  }

  lemma {:induction false} ZeroDivides(f: Field)
    requires Aligned(f)
    ensures Divides(f, 0)
    decreases f, 0
  {
    match f.kind {
      case Array(elem, _, _) => ZeroDivides(elem);
      case Structure(fields) => ZeroDividesAll(fields);
      case _ =>
    }
  }

  lemma {:induction false} ZeroDividesAll(fields: seq<Field>)
    requires AlignedAll(fields)
    ensures DividesAll(fields, 0)
    decreases fields, 0
  {
    if fields != [] {
      ZeroDividesAll(fields[..|fields| - 1]);
      ZeroDivides(fields[|fields| - 1]);
    }
  }

  // ----- the types whose size is predicted

  /** n is 1, 2, 4, 8, ... */
  predicate IsPower(n: nat) {
    n == 1 || (n > 1 && n % 2 == 0 && IsPower(n / 2))
  }

  /** Alignments are powers of two, as DOALIGN demands. */
  predicate Powers(f: Field)
    decreases f, 0
  {
    match f.kind
    case Array(elem, _, alignment) => IsPower(alignment) && Powers(elem)
    case Structure(fields) => PowersAll(fields)
    case _ => true
  }

  predicate PowersAll(fields: seq<Field>)
    decreases fields, 0
  {
    fields != [] ==> PowersAll(fields[..|fields| - 1]) && Powers(fields[|fields| - 1])
  }

  lemma {:induction false} PowersDivide(a: nat, b: nat)
    requires IsPower(a) && IsPower(b) && a <= b
    ensures b % a == 0
  {
    if a > 1 {
      PowersDivide(a / 2, b / 2);
      var q := b / 2 / (a / 2);
      assert b / 2 == q * (a / 2) + b / 2 % (a / 2);
      assert b == q * a by { assert q * a == q * (a / 2) * 2; }
      ModUnique(b, a, q, 0);
    }
  }

  /** The alignments of the arrays in f itself, not inside elements, divide n. */
  predicate Fits(f: Field, n: int)
    decreases f, 0
  {
    match f.kind
    case Array(_, _, alignment) => Multiple(n, alignment)
    case Structure(fields) => FitsAll(fields, n)
    case _ => true
  }

  predicate FitsAll(fields: seq<Field>, n: int)
    decreases fields, 0
  {
    fields != [] ==> FitsAll(fields[..|fields| - 1], n) && Fits(fields[|fields| - 1], n)
  }

  lemma {:induction false} FitsDivides(f: Field, n: int)
    requires Aligned(f) && Fits(f, n)
    ensures Divides(f, n)
    decreases f, 0
  {
    match f.kind {
      case Array(elem, _, alignment) => DividesMultiple(elem, alignment, n);
      case Structure(fields) => AllFitsDivides(fields, n);
      case _ =>
    }
  }

  lemma {:induction false} AllFitsDivides(fields: seq<Field>, n: int)
    requires AlignedAll(fields) && FitsAll(fields, n)
    ensures DividesAll(fields, n)
    decreases fields, 0
  {
    if fields != [] {
      AllFitsDivides(fields[..|fields| - 1], n);
      FitsDivides(fields[|fields| - 1], n);
    }
  }

  /** A value without strings and elements. */
  function Blank(f: Field): Value
    decreases f, 0
  {
    match f.kind
    case Scalar(size) => Bytes(seq(size, _ => 0))
    case Text => Str(None)
    case Array(_, _, _) => Many([])
    case Structure(fields) => Many(Blanks(fields))
  }

  function Blanks(fields: seq<Field>): (vs: seq<Value>)
    ensures |vs| == |fields|
    decreases fields, 0
  {
    if fields == [] then [] else Blanks(fields[..|fields| - 1]) + [Blank(fields[|fields| - 1])]
  }

  lemma {:induction false} BlankTyped(f: Field)
    ensures Typed(f, Blank(f))
    decreases f, 0
  {
    if f.kind.Structure? {
      BlanksTyped(f.kind.fields);
    }
  }

  lemma {:induction false} BlanksTyped(fields: seq<Field>)
    ensures TypedAll(fields, Blanks(fields))
    decreases fields, 0
  {
    if fields != [] {
      var n := |fields| - 1;
      BlanksTyped(fields[..n]);
      BlankTyped(fields[n]);
      assert Blanks(fields)[..n] == Blanks(fields[..n]);
    }
  }

  /** Store is d ahead of the size pass in an element at base: not at all, or by base itself up
      to multiples of an alignment c that does not divide base. */
  predicate Drift(d: int, base: int, c: nat) {
    IsPower(c) && if c == 1 then d == 0 else base % c != 0 && (d - base) % c == 0
  }

  /** Once store and the size pass have parted over an element without strings and elements,
      they do not meet again before its end. */
  lemma {:induction false} BlankDrifts(f: Field, base: int, offs: int, s: int, c: nat) returns (c': nat)
    requires Powers(f) && Drift(base + offs - s, base, c)
    ensures Drift(base + End(f, Blank(f), offs) - Size(f, Blank(f), s), base, c')
    ensures c' == 1 ==> c == 1 && Fits(f, base)
    decreases f, 0
  {
    c' := c;
    match f.kind {
      case Array(_, stride, alignment) =>
        c' := AlignDrifts(alignment, base, offs, s, c);
      case Structure(fields) => c' := BlanksDrift(fields, base, offs, s, c);
      case _ =>
    }
  }

  lemma {:induction false} BlanksDrift(fields: seq<Field>, base: int, offs: int, s: int, c: nat) returns (c': nat)
    requires PowersAll(fields) && Drift(base + offs - s, base, c)
    ensures Drift(base + EndAll(fields, Blanks(fields), offs) - SizeAll(fields, Blanks(fields), s), base, c')
    ensures c' == 1 ==> c == 1 && FitsAll(fields, base)
    decreases fields, 0
  {
    hide Drift, Powers, Fits, IsPower;
    c' := c;
    if fields != [] {
      var n, vs := |fields| - 1, Blanks(fields);
      assert vs[..n] == Blanks(fields[..n]) && vs[n] == Blank(fields[n]);
      c' := BlanksDrift(fields[..n], base, offs, s, c);
      c' := BlankDrifts(fields[n], base, EndAll(fields[..n], vs[..n], offs), SizeAll(fields[..n], vs[..n], s), c');
    }
  }

  lemma AlignDrifts(to: nat, base: int, offs: int, s: int, c: nat) returns (c': nat)
    requires IsPower(to) && Drift(base + offs - s, base, c)
    ensures Drift(base + Align(offs, to) - Align(s, to), base, c')
    ensures c' == 1 ==> c == 1 && base % to == 0
  {
    assert to > 0 && c > 0;
    hide IsPower, Align;
    AlignIsMultiple(offs, to);
    AlignIsMultiple(s, to);
    if base % to != 0 {
      c' := to;
      ModSubtract(Align(offs, to), Align(s, to), to);
    } else {
      c' := c;
      if c == 1 {
        AlignShift(base, offs, to);
      } else {
        CoarserThan(to, c, base);
        var d := base + offs - s;
        ModMultiple(d - base, c, to);
        AlignShift(-(d - base), offs, to);
        ModSubtract(0, d - base, to);
      }
    }
  }

  /** Of two powers of two, one that divides a number divides one that does not. */
  lemma CoarserThan(a: nat, b: nat, n: int)
    requires IsPower(a) && IsPower(b) && n % a == 0 && n % b != 0
    ensures b % a == 0
  {
    if a <= b {
      PowersDivide(a, b);
    } else {
      PowersDivide(b, a);
      ModMultiple(n, a, b);
    }
  }

  /** An element off base is mispredicted. */
  lemma BlankMisses(elem: Field, base: int, offs: int)
    requires Powers(elem) && Aligned(elem) && !Divides(elem, base)
    ensures base + End(elem, Blank(elem), offs) != Size(elem, Blank(elem), base + offs)
  {
    var c := BlankDrifts(elem, base, offs, base + offs, 1);
    if c == 1 {
      FitsDivides(elem, base);
      assert false;
    }
    var d := base + End(elem, Blank(elem), offs) - Size(elem, Blank(elem), base + offs);
    if d == 0 {
      ModSubtract(0, d - base, c);
      assert false;
    }
  }

  /** One element is enough if the alignment of the elements is not a multiple of those inside. */
  lemma AlignmentMisses(f: Field) returns (v: Value)
    requires f.kind.Array? && Powers(f) && Aligned(f.kind.elem) && !Divides(f.kind.elem, f.kind.alignment)
    ensures Typed(f, v) && End(f, v, f.kind.alignment) != Size(f, v, f.kind.alignment)
  {
    var elem, stride, alignment := f.kind.elem, f.kind.stride, f.kind.alignment;
    var b := Blank(elem);
    v := Many([b]);
    BlankTyped(elem);
    BlankMisses(elem, alignment, stride);
    OneElement(elem, stride, b, stride);
  }

  lemma OneElement(elem: Field, stride: nat, b: Value, offs: int)
    ensures Total(1, stride) == stride && [b][..0] == []
    ensures EndElems(elem, stride, [b], offs) == End(elem, b, offs) - stride
    ensures forall s :: SizeElems(elem, [b], s) == Size(elem, b, s)
  {
  }

  /** Two are if their distance is not. */
  lemma StrideMisses(f: Field) returns (v: Value)
    requires f.kind.Array? && Powers(f) && Aligned(f.kind.elem) && !Divides(f.kind.elem, f.kind.stride)
    ensures Typed(f, v) && End(f, v, 0) != Size(f, v, 0)
  {
    var elem, stride := f.kind.elem, f.kind.stride;
    var b, total := Blank(elem), Total(2, stride);
    v := Many([b, b]);
    BlankTyped(elem);
    OneElement(elem, stride, b, total);
    assert [b, b][..1] == [b] && total == Total(1, stride) + stride;
    ZeroDivides(elem);
    AlignedOnBase(elem, b, 0, total);
    MeetsOnBase(elem, b, 0, total);
    BlankMisses(elem, stride, End(elem, b, total) - stride);
  }

  /** The size of every value of f is predicted. */
  ghost predicate Predicted(f: Field) {
    forall v: Value, offs: nat :: Typed(f, v) ==> End(f, v, offs) == Size(f, v, offs)
  }

  /** An array field whose elements have matching alignments themselves is predicted, for every
      value behind every offset, exactly when its own match too. */
  lemma ArrayPredicted(f: Field)
    requires f.kind.Array? && Powers(f) && Aligned(f.kind.elem)
    ensures Predicted(f) <==> Divides(f.kind.elem, f.kind.alignment) && Divides(f.kind.elem, f.kind.stride)
  {
    var elem, stride, alignment := f.kind.elem, f.kind.stride, f.kind.alignment;
    if !Divides(elem, alignment) {
      var v := AlignmentMisses(f);
    } else if !Divides(elem, stride) {
      var v := StrideMisses(f);
    } else {
      forall v: Value, offs: nat | Typed(f, v)
        ensures End(f, v, offs) == Size(f, v, offs)
      {
        ZeroDivides(f);
        AlignedOnBase(f, v, 0, offs);
        MeetsOnBase(f, v, 0, offs);
      }
    }
  }

  /** Every array type inside f, at any depth, is predicted as a field of a record. */
  ghost predicate PredictedInside(f: Field)
    decreases f, 0
  {
    match f.kind
    case Array(elem, _, _) => Predicted(f) && PredictedInside(elem)
    case Structure(fields) => AllPredictedInside(fields)
    case _ => true
  }

  ghost predicate AllPredictedInside(fields: seq<Field>)
    decreases fields, 0
  {
    fields != [] ==> AllPredictedInside(fields[..|fields| - 1]) && PredictedInside(fields[|fields| - 1])
  }

  /** Matching alignments are exactly what makes the prediction right for every array type. */
  lemma {:induction false} PredictedExactly(f: Field)
    requires Powers(f)
    ensures PredictedInside(f) <==> Aligned(f)
    decreases f, 0
  {
    match f.kind {
      case Array(elem, _, _) =>
        PredictedExactly(elem);
        if Aligned(elem) {
          ArrayPredicted(f);
        }
      case Structure(fields) => AllPredictedExactly(fields);
      case _ =>
    }
  }

  lemma {:induction false} AllPredictedExactly(fields: seq<Field>)
    requires PowersAll(fields)
    ensures AllPredictedInside(fields) <==> AlignedAll(fields)
    decreases fields, 0
  {
    if fields != [] {
      AllPredictedExactly(fields[..|fields| - 1]);
      PredictedExactly(fields[|fields| - 1]);
    }
  }

  const SCALAR := Field(0, Scalar(8))
  const NUMBERS := Field(8, Array(SCALAR, 8, 8))
  const NAME := Field(0, Text)
  const ROW := Field(0, Structure([NAME, NUMBERS]))
  const TABLE := Field(0, Array(ROW, 16, 4))
  const A_NUMBER := Bytes([1, 2, 3, 4, 5, 6, 7, 8])
  const A_NAME := Str(Some([65, 66, 67]))
  const A_ROW := Many([A_NAME, Many([A_NUMBER])])
  const A_TABLE := Many([A_ROW])

  /** A prediction that falls short: an array of structures aligned at 4 whose elements hold a
      string and an array of 8-byte scalars, behind 12 bytes of fixed part. */
  lemma SizeMispredicted()
    ensures LaidOut(TABLE, 12) && Powers(TABLE) && Aligned(ROW) && !Divides(ROW, 4) && !Predicted(TABLE)
    ensures Typed(TABLE, A_TABLE) && End(TABLE, A_TABLE, 12) == 44 && Size(TABLE, A_TABLE, 12) == 40
    ensures !OnBase(TABLE, A_TABLE, 0, 12)
  {
    TableIsFine();
    TableEnd();
    TableSize();
    ArrayPredicted(TABLE);
    MeetsOnBase(TABLE, A_TABLE, 0, 12);
  }

  lemma TableParts()
    ensures [NAME, NUMBERS][..1] == [NAME] && [NAME][..0] == []
    ensures [A_NAME, Many([A_NUMBER])][..1] == [A_NAME] && [A_NAME][..0] == []
    ensures [A_NUMBER][..0] == [] && [A_ROW][..0] == []
    ensures Total(1, 8) == 8 && Total(1, 16) == 16
  {
  }

  lemma TableEnd()
    ensures End(TABLE, A_TABLE, 12) == 44
  {
    TableParts();
    assert EndElems(SCALAR, 8, [A_NUMBER], 8) == 0;
    assert End(NUMBERS, Many([A_NUMBER]), 20) == 32;
    assert EndAll([NAME], [A_NAME], 16) == 20;
    assert End(ROW, A_ROW, 16) == 32;
    assert EndElems(ROW, 16, [A_ROW], 16) == 16;
  }

  lemma TableSize()
    ensures Size(TABLE, A_TABLE, 12) == 40
  {
    TableParts();
    assert SizeElems(SCALAR, [A_NUMBER], 40) == 40;
    assert Size(NUMBERS, Many([A_NUMBER]), 32) == 40;
    assert SizeAll([NAME], [A_NAME], 28) == 32;
    assert Size(ROW, A_ROW, 28) == 40;
    assert SizeElems(ROW, [A_ROW], 28) == 40;
  }

  lemma TableIsFine()
    ensures LaidOut(TABLE, 12) && Typed(TABLE, A_TABLE)
    ensures Powers(TABLE) && Aligned(ROW) && !Divides(ROW, 4)
  {
    TableLaidOut();
    TableTyped();
    TableParts();
    var members := [NAME, NUMBERS];
    assert !Divides(NUMBERS, 4) && !DividesAll(members, 4) && !Divides(ROW, 4);
    assert IsPower(4) && IsPower(8) by { assert IsPower(2) && 4 / 2 == 2 && 8 / 2 == 4; }
    assert ROW.kind == Structure(members) && NUMBERS.kind == Array(SCALAR, 8, 8) && TABLE.kind == Array(ROW, 16, 4);
    assert PowersAll([]) && Powers(NAME) && Powers(SCALAR) && Powers(NUMBERS);
    assert PowersAll([NAME]) && PowersAll(members) && Powers(ROW);
    assert AlignedAll([]) && Aligned(NAME) && Aligned(SCALAR) && Aligned(NUMBERS);
    assert AlignedAll([NAME]) && AlignedAll(members) && Aligned(ROW);
  }

  lemma TableLaidOut()
    ensures LaidOut(TABLE, 12)
  {
    TableParts();
    var members := [NAME, NUMBERS];
    assert LaidOut(SCALAR, 8) && LaidOut(NUMBERS, 16) && LaidOut(NAME, 16);
    assert FixedAll([]) == {} && LaidOutAll([], 16) && [NAME][..|[NAME]| - 1] == [];
    assert LaidOutAll([NAME], 16) && forall x :: x in FixedAll([NAME]) ==> x < 8;
    assert LaidOutAll(members, 16) && forall x :: x in FixedAll(members) ==> x < 16;
    assert LaidOut(ROW, 16);
  }

  lemma TableTyped()
    ensures Typed(TABLE, A_TABLE)
  {
    TableParts();
    assert Typed(SCALAR, A_NUMBER) && Typed(NUMBERS, Many([A_NUMBER])) && Typed(NAME, A_NAME);
    assert TypedAll([], []) && TypedAll([NAME], [A_NAME]);
    assert TypedAll([NAME, NUMBERS], A_ROW.values) by {
      assert [NAME, NUMBERS][1] == NUMBERS && A_ROW.values[1] == Many([A_NUMBER]);
    }
    assert Typed(ROW, A_ROW);
  }
}
