/** A flattening encoder for Nuxt payloads, written as the specification of the resolver: a document is
    laid out as cells that refer to each other by index, with wrappers inserted at any node. */
module NuxtFlatten {
  import opened Wrappers
  import opened NuxtResolver

  /** A JSON value with the wrappers its nodes are stored behind. `Nothing` is an `EmptyRef` cell. */
  datatype Doc = Scalar(v: Json) | ListDoc(items: seq<Doc>) | ObjDoc(fields: seq<DocField>)
               | Forward(tag: string, inner: Doc) | Hop(tag: string, inner: Doc) | Nothing(arg: Json)
  datatype DocField = DocField(key: string, val: Doc)

  /** Scalars hold no structure, and wrappers carry the tags the resolver knows. */
  ghost predicate Formed(d: Doc) {
    match d
    case Scalar(v) => !v.List? && !v.Obj?
    case ListDoc(items) => forall i | 0 <= i < |items| :: Formed(items[i])
    case ObjDoc(fields) => forall i | 0 <= i < |fields| :: Formed(fields[i].val)
    case Forward(tag, inner) => tag in {"Ref", "skipHydrate"} && Formed(inner)
    case Hop(tag, inner) => tag in {"Reactive", "ShallowReactive"} && Formed(inner)
    case Nothing(_) => true
  }

  predicate IsNumber(v: Json) { v.Num? || v.Real? }

  /** Where an index lookup stops: behind a chain of forwarding wrappers and one reactive hop (None: at an EmptyRef). */
  function Stop(d: Doc): (x: Option<Doc>)
    ensures x.Some? ==> x.value == d || x.value < d
    ensures x.Some? ==> x.value.Scalar? || x.value.ListDoc? || x.value.ObjDoc? || x.value != d
  {
    match d
    case Forward(_, inner) => Stop(inner)
    case Hop(_, inner) => Some(inner)
    case Nothing(_) => None
    case _ => Some(d)
  }

  /** Which wrapper sequences read back through an index: any chain of `Ref` and `skipHydrate`, and behind each
      reactive hop either the node itself or a `Ref`; a number only while no `Ref` has followed a hop. */
  ghost predicate Readable(d: Doc)
    decreases d, 1
  {
    match Stop(d)
    case None => true
    case Some(x) => x.Scalar? || RawReadable(x)
  }

  /** The same for a cell that is taken as it stands, behind a reactive hop. */
  ghost predicate RawReadable(x: Doc)
    decreases x, 0
  {
    match x
    case Scalar(v) => !IsNumber(v)
    case ListDoc(items) => forall k | 0 <= k < |items| :: Readable(items[k])
    case ObjDoc(fields) => forall k | 0 <= k < |fields| :: Readable(fields[k].val)
    case Forward(tag, inner) =>
      tag == "Ref" && (match Stop(inner) case None => true case Some(z) => RawReadable(z))
    case Hop(_, _) => false
    case Nothing(_) => false
  }

  /** The value the document stands for. */
  function Erase(d: Doc): Json
    decreases d, 1
  {
    match d
    case Scalar(v) => v
    case ListDoc(items) => List(EraseAll(items))
    case ObjDoc(fields) => Obj(EraseFields(fields))
    case Forward(_, inner) => Erase(inner)
    case Hop(_, inner) => Erase(inner)
    case Nothing(_) => Null
  }

  function EraseAll(items: seq<Doc>): (vs: seq<Json>)
    ensures |vs| == |items| && forall i | 0 <= i < |items| :: vs[i] == Erase(items[i])
    decreases items, 0
  {
    if items == [] then [] else [Erase(items[0])] + EraseAll(items[1..])
  }

  function EraseFields(fields: seq<DocField>): (fs: seq<Field>)
    ensures |fs| == |fields| && forall i | 0 <= i < |fields| :: fs[i] == Field(fields[i].key, Erase(fields[i].val))
    decreases fields, 0
  {
    if fields == [] then [] else [Field(fields[0].key, Erase(fields[0].val))] + EraseFields(fields[1..])
  }

  /** Cells for `d` when its root goes to index `base`. */
  function Flatten(d: Doc, base: nat): seq<Json> {
    match d
    case Scalar(v) => [v]
    case ListDoc(items) =>
      var (roots, cells) := FlattenAll(items, base + 1);
      [List(roots)] + cells
    case ObjDoc(fields) =>
      var (refs, cells) := FlattenFields(fields, base + 1);
      [Obj(refs)] + cells
    case Forward(tag, inner) => [List([Str(tag), Num(base + 1)])] + Flatten(inner, base + 1)
    case Hop(tag, inner) => [List([Str(tag), Num(base + 1)])] + Flatten(inner, base + 1)
    case Nothing(arg) => [List([Str("EmptyRef"), arg])]
  }

  function FlattenAll(items: seq<Doc>, base: nat): (seq<Json>, seq<Json>) {
    if items == [] then ([], [])
    else
      var cells := Flatten(items[0], base);
      var (roots, more) := FlattenAll(items[1..], base + |cells|);
      ([Num(base)] + roots, cells + more)
  }

  function FlattenFields(fields: seq<DocField>, base: nat): (seq<Field>, seq<Json>) {
    if fields == [] then ([], [])
    else
      var cells := Flatten(fields[0].val, base);
      var (refs, more) := FlattenFields(fields[1..], base + |cells|);
      ([Field(fields[0].key, Num(base))] + refs, cells + more)
  }

  /** Cell `i` of a payload, wherever its parts lie and however they are shared, holds document `d`. */
  ghost predicate Holds(data: seq<Json>, i: int, d: Doc)
    decreases d
  {
    && 0 <= i < |data|
    && match d
       case Scalar(v) => data[i] == v
       case ListDoc(items) =>
         && data[i].List? && |data[i].items| == |items|
         && forall k | 0 <= k < |items| :: data[i].items[k].Num? && Holds(data, data[i].items[k].n, items[k])
       case ObjDoc(fields) =>
         && data[i].Obj? && |data[i].fields| == |fields|
         && forall k | 0 <= k < |fields| ::
              data[i].fields[k].key == fields[k].key && data[i].fields[k].val.Num?
              && Holds(data, data[i].fields[k].val.n, fields[k].val)
       case Forward(tag, inner) => Wraps(data[i], tag) && Holds(data, data[i].items[1].n, inner)
       case Hop(tag, inner) => Wraps(data[i], tag) && Holds(data, data[i].items[1].n, inner)
       case Nothing(_) => Tagged(data[i], {"EmptyRef"})
  }

  ghost predicate Wraps(cell: Json, tag: string) { Tagged(cell, {tag}) && cell.items[1].Num? }

  // ---------------------------------------------------------------------------
  // Flattening stores the document
  // ---------------------------------------------------------------------------

  lemma {:induction false} FlattenHolds(data: seq<Json>, d: Doc, base: nat)
    requires base + |Flatten(d, base)| <= |data| && data[base..base + |Flatten(d, base)|] == Flatten(d, base)
    ensures Holds(data, base, d)
    decreases d, 0
  {
    var cells := Flatten(d, base);
    assert data[base] == data[base..base + |cells|][0];
    match d {
      case Scalar(_) =>
      case Nothing(_) =>
      case Forward(_, inner) =>
        assert data[base + 1..base + |cells|] == cells[1..] == Flatten(inner, base + 1);
        FlattenHolds(data, inner, base + 1);
      case Hop(_, inner) =>
        assert data[base + 1..base + |cells|] == cells[1..] == Flatten(inner, base + 1);
        FlattenHolds(data, inner, base + 1);
      case ListDoc(items) =>
        assert data[base + 1..base + |cells|] == cells[1..] == FlattenAll(items, base + 1).1;
        FlattenAllHolds(data, d, items, base + 1);
      case ObjDoc(fields) =>
        assert data[base + 1..base + |cells|] == cells[1..] == FlattenFields(fields, base + 1).1;
        FlattenFieldsHolds(data, d, fields, base + 1);
    }
  }

  lemma {:induction false} FlattenAllHolds(data: seq<Json>, whole: Doc, items: seq<Doc>, base: nat)
    requires forall k | 0 <= k < |items| :: items[k] < whole
    requires base + |FlattenAll(items, base).1| <= |data|
    requires data[base..base + |FlattenAll(items, base).1|] == FlattenAll(items, base).1
    ensures var roots := FlattenAll(items, base).0;
            |roots| == |items| && forall k | 0 <= k < |items| :: roots[k].Num? && Holds(data, roots[k].n, items[k])
    decreases whole, 0, |items|
  {
    if items != [] {
      var cells := Flatten(items[0], base);
      var (roots, more) := FlattenAll(items[1..], base + |cells|);
      var all := data[base..base + |cells + more|];
      assert data[base..base + |cells|] == all[..|cells|] == cells;
      assert data[base + |cells|..base + |cells| + |more|] == all[|cells|..] == more;
      FlattenHolds(data, items[0], base);
      FlattenAllHolds(data, whole, items[1..], base + |cells|);
    }
  }

  lemma {:induction false} FlattenFieldsHolds(data: seq<Json>, whole: Doc, fields: seq<DocField>, base: nat)
    requires forall k | 0 <= k < |fields| :: fields[k].val < whole
    requires base + |FlattenFields(fields, base).1| <= |data|
    requires data[base..base + |FlattenFields(fields, base).1|] == FlattenFields(fields, base).1
    ensures var refs := FlattenFields(fields, base).0;
            |refs| == |fields| && forall k | 0 <= k < |fields| ::
              refs[k].key == fields[k].key && refs[k].val.Num? && Holds(data, refs[k].val.n, fields[k].val)
    decreases whole, 0, |fields|
  {
    if fields != [] {
      var cells := Flatten(fields[0].val, base);
      var (refs, more) := FlattenFields(fields[1..], base + |cells|);
      var all := data[base..base + |cells + more|];
      assert data[base..base + |cells|] == all[..|cells|] == cells;
      assert data[base + |cells|..base + |cells| + |more|] == all[|cells|..] == more;
      FlattenHolds(data, fields[0].val, base);
      FlattenFieldsHolds(data, whole, fields[1..], base + |cells|);
    }
  }

  // ---------------------------------------------------------------------------
  // Resolution reads it back
  // ---------------------------------------------------------------------------

  /** Length of the forwarding chain an index lookup follows. */
  function Chain(d: Doc): nat {
    match d
    case Forward(_, inner) => 1 + Chain(inner)
    case _ => 0
  }

  /** A call depth that suffices to resolve the document. */
  function Depth(d: Doc): nat {
    match d
    case ListDoc(items) => 3 + DepthAll(items)
    case ObjDoc(fields) => 3 + DepthFields(fields)
    case Forward(_, inner) => 2 + Depth(inner)
    case Hop(_, inner) => 2 + Depth(inner)
    case _ => 3
  }

  function DepthAll(items: seq<Doc>): nat {
    if items == [] then 0 else Depth(items[0]) + DepthAll(items[1..])
  }

  function DepthFields(fields: seq<DocField>): nat {
    if fields == [] then 0 else Depth(fields[0].val) + DepthFields(fields[1..])
  }

  lemma {:induction false} StopIsShallow(d: Doc)
    requires Formed(d)
    ensures Chain(d) + 3 <= Depth(d)
    ensures Stop(d).Some? ==> Formed(Stop(d).value) && Erase(Stop(d).value) == Erase(d) && Depth(Stop(d).value) <= Depth(d)
    ensures Stop(d).None? ==> Erase(d) == Null
  {
    match d {
      case Forward(_, inner) => StopIsShallow(inner);
      case Hop(_, inner) => HopIsShallow(inner);
      case _ =>
    }
  }

  lemma {:induction false} HopIsShallow(d: Doc)
    ensures Depth(d) >= 3
  {
    match d {
      case Forward(_, inner) => HopIsShallow(inner);
      case Hop(_, inner) => HopIsShallow(inner);
      case _ =>
    }
  }

  /** Any lookup that succeeds stops where `Stop` says, and it succeeds given enough stack. */
  lemma {:induction false} LookupStops(data: seq<Json>, i: nat, d: Doc, fuel: nat) returns (j: nat)
    requires Holds(data, i, d) && Formed(d)
    ensures fuel > Chain(d) ==> Resolve(data, Num(i), fuel).Ok?
    ensures Resolve(data, Num(i), fuel).Ok? ==>
      var r := Resolve(data, Num(i), fuel).value;
      match Stop(d) case None => r == Null case Some(x) => Holds(data, j, x) && r == data[j]
    decreases d
  {
    j := i;
    match d {
      case Forward(tag, inner) =>
        if fuel > 0 { j := LookupStops(data, data[i].items[1].n, inner, fuel - 1); }
      case Hop(tag, inner) =>
        j := data[i].items[1].n;
      case _ =>
    }
  }

  lemma {:induction false} ResolveReadsBack(data: seq<Json>, i: nat, d: Doc, fuel: nat)
    requires Holds(data, i, d) && Formed(d) && Readable(d) && NoRefKey(Erase(d)) && fuel >= Depth(d)
    ensures FullyResolve(data, Num(i), fuel) == Ok(Erase(d))
    decreases d, 2
  {
    StopIsShallow(d);
    var j := LookupStops(data, i, d, fuel - 1);
    match Stop(d) {
      case None =>
      case Some(x) =>
        if !x.Scalar? { RawReadsBack(data, j, x, fuel - 1); }
    }
  }

  lemma {:induction false} RawReadsBack(data: seq<Json>, j: nat, x: Doc, fuel: nat)
    requires Holds(data, j, x) && Formed(x) && RawReadable(x) && NoRefKey(Erase(x)) && fuel + 1 >= Depth(x)
    ensures FullyResolve(data, data[j], fuel) == Ok(Erase(x))
    ensures !x.Scalar? ==> data[j].List? || data[j].Obj?
    decreases x, 1
  {
    match x {
      case Scalar(_) =>
      case ListDoc(_) => ListReadsBack(data, j, x, fuel);
      case ObjDoc(_) => ObjReadsBack(data, j, x, fuel);
      case Forward(_, _) => RefReadsBack(data, j, x, fuel);
    }
  }

  lemma {:induction false} RefReadsBack(data: seq<Json>, j: nat, x: Doc, fuel: nat)
    requires Holds(data, j, x) && x.Forward? && Formed(x) && RawReadable(x) && NoRefKey(Erase(x)) && fuel + 1 >= Depth(x)
    ensures data[j].List? && FullyResolve(data, data[j], fuel) == Ok(Erase(x))
    decreases x, 0, 0
  {
    var target := data[j].items[1];
    StopIsShallow(x.inner);
    var k := LookupStops(data, target.n, x.inner, fuel - 2);
    var r := Resolve(data, target, fuel - 2);
    assert Resolve(data, data[j], fuel - 1) == r;
    assert FullyResolve(data, data[j], fuel) == FullyResolve(data, r.value, fuel - 1);
    match Stop(x.inner) {
      case None => assert FullyResolve(data, Null, fuel - 1) == Ok(Null);
      case Some(z) => RawReadsBack(data, k, z, fuel - 1);
    }
  }

  lemma {:induction false} ListReadsBack(data: seq<Json>, j: nat, n: Doc, fuel: nat)
    requires Holds(data, j, n) && n.ListDoc? && Formed(n) && RawReadable(n) && NoRefKey(Erase(n)) && fuel + 1 >= Depth(n)
    ensures data[j].List? && FullyResolve(data, data[j], fuel) == Ok(Erase(n))
    decreases n, 0, |n.items| + 1
  {
    assert forall k | 0 <= k < |n.items| :: NoRefKey(Erase(n).items[k]);
    ReadBackAll(data, n, data[j].items, n.items, fuel - 1);
  }

  lemma {:induction false} ObjReadsBack(data: seq<Json>, j: nat, n: Doc, fuel: nat)
    requires Holds(data, j, n) && n.ObjDoc? && Formed(n) && RawReadable(n) && NoRefKey(Erase(n)) && fuel + 1 >= Depth(n)
    ensures data[j].Obj? && FullyResolve(data, data[j], fuel) == Ok(Erase(n))
    decreases n, 0, |n.fields| + 1
  {
    assert forall k | 0 <= k < |n.fields| :: NoRefKey(Erase(n).fields[k].val);
    assert forall k | 0 <= k < |n.fields| :: Erase(n).fields[k].key == data[j].fields[k].key;
    ReadBackFields(data, n, data[j].fields, n.fields, fuel - 1);
  }

  lemma {:induction false} ReadBackAll(data: seq<Json>, whole: Doc, refs: seq<Json>, items: seq<Doc>, fuel: nat)
    requires |refs| == |items| && fuel >= DepthAll(items)
    requires forall k | 0 <= k < |items| ::
               items[k] < whole && Formed(items[k]) && Readable(items[k]) && NoRefKey(Erase(items[k]))
               && refs[k].Num? && Holds(data, refs[k].n, items[k])
    ensures ResolveAll(data, refs, fuel) == Ok(EraseAll(items))
    decreases whole, 0, |items|
  {
    if items != [] {
      ResolveReadsBack(data, refs[0].n, items[0], fuel);
      ReadBackAll(data, whole, refs[1..], items[1..], fuel);
    }
  }

  lemma {:induction false} ReadBackFields(data: seq<Json>, whole: Doc, refs: seq<Field>, fields: seq<DocField>, fuel: nat)
    requires |refs| == |fields| && fuel >= DepthFields(fields)
    requires forall k | 0 <= k < |fields| ::
               fields[k].val < whole && Formed(fields[k].val) && Readable(fields[k].val) && NoRefKey(Erase(fields[k].val))
               && refs[k].key == fields[k].key && refs[k].val.Num? && Holds(data, refs[k].val.n, fields[k].val)
    ensures ResolveFields(data, refs, fuel) == Ok(EraseFields(fields))
    decreases whole, 0, |fields|
  {
    if fields != [] {
      ResolveReadsBack(data, refs[0].val.n, fields[0].val, fuel);
      ReadBackFields(data, whole, refs[1..], fields[1..], fuel);
    }
  }

  // ---------------------------------------------------------------------------
  // And nothing else reads back
  // ---------------------------------------------------------------------------

  function Size(v: Json): nat
    decreases v, 1
  {
    match v
    case List(items) => 1 + SizeAll(items)
    case Obj(fields) => 1 + SizeFields(fields)
    case _ => 1
  }

  function SizeAll(items: seq<Json>): nat
    decreases items, 0
  {
    if items == [] then 0 else Size(items[0]) + SizeAll(items[1..])
  }

  function SizeFields(fields: seq<Field>): nat
    decreases fields, 0
  {
    if fields == [] then 0 else Size(fields[0].val) + SizeFields(fields[1..])
  }

  /** Taken for an index, every number of the document leads to a null. */
  ghost predicate Trapped(data: seq<Json>, d: Doc) {
    match d
    case Scalar(v) => IsNumber(v) ==> Item(data, AsIndex(v).value) == Ok(Null)
    case ListDoc(items) => forall k | 0 <= k < |items| :: Trapped(data, items[k])
    case ObjDoc(fields) => forall k | 0 <= k < |fields| :: Trapped(data, fields[k].val)
    case Forward(_, inner) => Trapped(data, inner)
    case Hop(_, inner) => Trapped(data, inner)
    case Nothing(_) => true
  }

  lemma {:induction false} StopIsTrapped(data: seq<Json>, d: Doc)
    requires Trapped(data, d)
    ensures Stop(d).Some? ==> Trapped(data, Stop(d).value)
  {
    if d.Forward? { StopIsTrapped(data, d.inner); }
  }

  /** Whatever a lookup of the document gives is at least as large as its value, and is its value only if the
      document is readable. */
  lemma {:induction false} LookupIsNoSmaller(data: seq<Json>, i: nat, d: Doc, fuel: nat)
    requires Holds(data, i, d) && Formed(d) && Trapped(data, d) && NoRefKey(Erase(d))
    requires FullyResolve(data, Num(i), fuel).Ok?
    ensures var v := FullyResolve(data, Num(i), fuel).value; Size(v) >= Size(Erase(d)) && (v == Erase(d) ==> Readable(d))
    decreases d, 2
  {
    StopIsShallow(d);
    StopIsTrapped(data, d);
    var j := LookupStops(data, i, d, fuel - 1);
    match Stop(d) {
      case None =>
      case Some(x) =>
        if !x.Scalar? { RawIsNoSmaller(data, j, x, fuel - 1); }
    }
  }

  lemma {:induction false} RawIsNoSmaller(data: seq<Json>, j: nat, x: Doc, fuel: nat)
    requires Holds(data, j, x) && Formed(x) && Trapped(data, x) && NoRefKey(Erase(x))
    requires FullyResolve(data, data[j], fuel).Ok?
    ensures var v := FullyResolve(data, data[j], fuel).value; Size(v) >= Size(Erase(x)) && (v == Erase(x) ==> RawReadable(x))
    ensures !x.Scalar? ==> data[j].List? || data[j].Obj?
    decreases x, 1
  {
    match x {
      case Scalar(v) =>
        if IsNumber(v) { assert FullyResolve(data, data[j], fuel) == Ok(Null); }
      case ListDoc(_) => ListIsNoSmaller(data, j, x, fuel);
      case ObjDoc(_) => ObjIsNoSmaller(data, j, x, fuel);
      case Forward(tag, inner) =>
        if tag == "Ref" {
          StopIsShallow(inner);
          StopIsTrapped(data, inner);
          var k := LookupStops(data, data[j].items[1].n, inner, fuel - 2);
          assert Resolve(data, data[j], fuel - 1) == Resolve(data, Num(data[j].items[1].n), fuel - 2);
          if Stop(inner).Some? { RawIsNoSmaller(data, k, Stop(inner).value, fuel - 1); }
        } else {
          BareWrapperNeverEnds(data, data[j], fuel);
        }
      case Hop(_, inner) => SecondHopIsLarger(data, j, x, fuel);
      case Nothing(_) => BareWrapperNeverEnds(data, data[j], fuel);
    }
  }

  lemma {:induction false} SizesAdd(a: seq<Json>, b: seq<Json>)
    requires |a| == |b| && forall k | 0 <= k < |a| :: Size(a[k]) >= Size(b[k])
    ensures SizeAll(a) >= SizeAll(b)
  {
    if a != [] { SizesAdd(a[1..], b[1..]); }
  }

  lemma {:induction false} FieldSizesAdd(a: seq<Field>, b: seq<Field>)
    requires |a| == |b| && forall k | 0 <= k < |a| :: Size(a[k].val) >= Size(b[k].val)
    ensures SizeFields(a) >= SizeFields(b)
  {
    if a != [] { FieldSizesAdd(a[1..], b[1..]); }
  }

  lemma {:induction false} ListIsNoSmaller(data: seq<Json>, j: nat, x: Doc, fuel: nat)
    requires Holds(data, j, x) && x.ListDoc? && Formed(x) && Trapped(data, x) && NoRefKey(Erase(x))
    requires FullyResolve(data, data[j], fuel).Ok?
    ensures var v := FullyResolve(data, data[j], fuel).value; Size(v) >= Size(Erase(x)) && (v == Erase(x) ==> RawReadable(x))
    decreases x, 0
  {
    var refs, items := data[j].items, x.items;
    ResolveAllShape(data, refs, fuel - 1);
    var vs := ResolveAll(data, refs, fuel - 1).value;
    var want := EraseAll(items);
    forall k | 0 <= k < |items| ensures Size(vs[k]) >= Size(want[k]) && (vs[k] == want[k] ==> Readable(items[k])) {
      assert NoRefKey(Erase(x).items[k]);
      LookupIsNoSmaller(data, refs[k].n, items[k], fuel - 1);
    }
    SizesAdd(vs, want);
  }

  lemma {:induction false} ObjIsNoSmaller(data: seq<Json>, j: nat, x: Doc, fuel: nat)
    requires Holds(data, j, x) && x.ObjDoc? && Formed(x) && Trapped(data, x) && NoRefKey(Erase(x))
    requires FullyResolve(data, data[j], fuel).Ok?
    ensures var v := FullyResolve(data, data[j], fuel).value; Size(v) >= Size(Erase(x)) && (v == Erase(x) ==> RawReadable(x))
    decreases x, 0
  {
    var refs, fields := data[j].fields, x.fields;
    assert forall k | 0 <= k < |fields| :: Erase(x).fields[k].key == refs[k].key;
    ResolveFieldsShape(data, refs, fuel - 1);
    var fs := ResolveFields(data, refs, fuel - 1).value;
    var want := EraseFields(fields);
    forall k | 0 <= k < |fields|
      ensures Size(fs[k].val) >= Size(want[k].val) && (fs[k] == want[k] ==> Readable(fields[k].val))
    {
      assert NoRefKey(Erase(x).fields[k].val);
      LookupIsNoSmaller(data, refs[k].val.n, fields[k].val, fuel - 1);
    }
    FieldSizesAdd(fs, want);
  }

  /** A second hop returns its wrapper around what lies behind it. */
  lemma {:induction false} SecondHopIsLarger(data: seq<Json>, j: nat, x: Doc, fuel: nat)
    requires Holds(data, j, x) && x.Hop? && Formed(x) && Trapped(data, x) && NoRefKey(Erase(x))
    requires FullyResolve(data, data[j], fuel).Ok?
    ensures Size(FullyResolve(data, data[j], fuel).value) > Size(Erase(x))
    decreases x, 0
  {
    var items := data[j].items;
    ResolveAllShape(data, items, fuel - 1);
    var vs := ResolveAll(data, items, fuel - 1).value;
    LookupIsNoSmaller(data, items[1].n, x.inner, fuel - 1);
    assert SizeAll(vs) >= Size(vs[0]) + Size(vs[1]) by { assert vs[1..][0] == vs[1]; }
  }

  // ---------------------------------------------------------------------------
  // Round trip
  // ---------------------------------------------------------------------------

  /** A payload that holds the flattened document among other cells. */
  function Payload(before: seq<Json>, d: Doc, after: seq<Json>): seq<Json> { before + Flatten(d, |before|) + after }

  lemma PayloadHolds(before: seq<Json>, d: Doc, after: seq<Json>)
    ensures Holds(Payload(before, d, after), |before|, d)
  {
    var data, cells := Payload(before, d, after), Flatten(d, |before|);
    assert data[|before|..|before| + |cells|] == cells;
    FlattenHolds(data, d, |before|);
  }

  /** Resolving the root of the document in this payload gives its value back, at some call depth. */
  ghost predicate ReadsBack(before: seq<Json>, d: Doc, after: seq<Json>) {
    exists fuel: nat :: FullyResolve(Payload(before, d, after), Num(|before|), fuel) == Ok(Erase(d))
  }

  /** A readable document reads back in a payload, at every sufficient depth, if and only if no object in it has a
      `$ref` key; other cells before and after it make no difference. */
  lemma RoundTrip(before: seq<Json>, d: Doc, after: seq<Json>)
    requires Formed(d) && Readable(d)
    ensures ReadsBack(before, d, after) <==> NoRefKey(Erase(d))
    ensures NoRefKey(Erase(d)) ==>
      forall fuel: nat | fuel >= Depth(d) :: FullyResolve(Payload(before, d, after), Num(|before|), fuel) == Ok(Erase(d))
  {
    var data := Payload(before, d, after);
    PayloadHolds(before, d, after);
    if NoRefKey(Erase(d)) {
      forall fuel: nat | fuel >= Depth(d) ensures FullyResolve(data, Num(|before|), fuel) == Ok(Erase(d)) {
        ResolveReadsBack(data, |before|, d, fuel);
      }
      ResolveReadsBack(data, |before|, d, Depth(d));
    } else {
      RefKeysNeverReadBack(before, d, after);
    }
  }

  lemma RefKeysNeverReadBack(before: seq<Json>, d: Doc, after: seq<Json>)
    requires !NoRefKey(Erase(d))
    ensures !ReadsBack(before, d, after)
  {
    forall fuel: nat ensures FullyResolve(Payload(before, d, after), Num(|before|), fuel) != Ok(Erase(d)) {
      if FullyResolve(Payload(before, d, after), Num(|before|), fuel) == Ok(Erase(d)) {
        ResultHasNoRefKey(Payload(before, d, after), Num(|before|), fuel);
      }
    }
  }

  /** Larger than any number in the document, taken for an index from either end. */
  function Reach(d: Doc): nat
    decreases d, 1
  {
    match d
    case Scalar(v) => if IsNumber(v) then Magnitude(AsIndex(v).value) + 1 else 0
    case ListDoc(items) => ReachAll(items)
    case ObjDoc(fields) => ReachFields(fields)
    case Forward(_, inner) => Reach(inner)
    case Hop(_, inner) => Reach(inner)
    case Nothing(_) => 0
  }

  function Magnitude(n: int): nat { if n >= 0 then n else -n }

  function ReachAll(items: seq<Doc>): (n: nat)
    ensures forall k | 0 <= k < |items| :: Reach(items[k]) <= n
    decreases items, 0
  {
    if items == [] then 0 else Reach(items[0]) + ReachAll(items[1..])
  }

  function ReachFields(fields: seq<DocField>): (n: nat)
    ensures forall k | 0 <= k < |fields| :: Reach(fields[k].val) <= n
    decreases fields, 0
  {
    if fields == [] then 0 else Reach(fields[0].val) + ReachFields(fields[1..])
  }

  lemma {:induction false} NullsTrap(data: seq<Json>, n: nat, d: Doc)
    requires Reach(d) <= n <= |data|
    requires forall i | 0 <= i < n || |data| - n <= i < |data| :: data[i] == Null
    ensures Trapped(data, d)
  {
    match d {
      case Scalar(v) =>
        if IsNumber(v) { assert Item(data, AsIndex(v).value).Ok?; }
      case ListDoc(items) => forall k | 0 <= k < |items| ensures Trapped(data, items[k]) { NullsTrap(data, n, items[k]); }
      case ObjDoc(fields) =>
        forall k | 0 <= k < |fields| ensures Trapped(data, fields[k].val) { NullsTrap(data, n, fields[k].val); }
      case Forward(_, inner) => NullsTrap(data, n, inner);
      case Hop(_, inner) => NullsTrap(data, n, inner);
      case Nothing(_) =>
    }
  }

  /** An unreadable document does not read back between enough nulls. */
  lemma UnreadableDoesNotReadBack(d: Doc)
    requires Formed(d) && !Readable(d)
    ensures var nulls := seq(Reach(d), _ => Null); !ReadsBack(nulls, d, nulls)
  {
    var nulls := seq(Reach(d), _ => Null);
    var data := Payload(nulls, d, nulls);
    if !NoRefKey(Erase(d)) {
      RefKeysNeverReadBack(nulls, d, nulls);
    } else {
      PayloadHolds(nulls, d, nulls);
      NullsTrap(data, Reach(d), d);
      forall fuel: nat ensures FullyResolve(data, Num(|nulls|), fuel) != Ok(Erase(d)) {
        if FullyResolve(data, Num(|nulls|), fuel).Ok? { LookupIsNoSmaller(data, |nulls|, d, fuel); }
      }
    }
  }

  /** Exactly which documents survive flattening and resolving in every payload: those whose wrapper sequences are
      readable and in which no object has a `$ref` key. */
  lemma RoundTripIff(d: Doc)
    requires Formed(d)
    ensures (forall before, after :: ReadsBack(before, d, after)) <==> Readable(d) && NoRefKey(Erase(d))
  {
    if Readable(d) {
      forall before, after ensures ReadsBack(before, d, after) <==> NoRefKey(Erase(d)) { RoundTrip(before, d, after); }
      RoundTrip([], d, []);
    } else {
      UnreadableDoesNotReadBack(d);
    }
  }
}
