/** The Nuxt payload resolver (cms/politie_scraper.py:18-65). `fuel` is the depth of calls Python still
    allows: running out stands for RecursionError. */
module NuxtResolver {
  import opened Wrappers

  datatype Json = Null | Bool(b: bool) | Num(n: int) | Real(r: real) | Str(s: string)
                | List(items: seq<Json>) | Obj(fields: seq<Field>)
  datatype Field = Field(key: string, val: Json)

  /** `Raised` is an IndexError or TypeError. */
  datatype Failure = TooDeep | Raised
  type Outcome<+T> = Result<T, Failure>

  predicate Tagged(v: Json, tags: set<string>) {
    v.List? && |v.items| >= 2 && v.items[0].Str? && v.items[0].s in tags
  }

  predicate HasRefKey(fields: seq<Field>) { exists i :: 0 <= i < |fields| && fields[i].key == "$ref" }

  function RefValue(fields: seq<Field>): Json
    requires HasRefKey(fields)
  {
    if fields[0].key == "$ref" then fields[0].val else RefValue(fields[1..])
  }

  /** Python's `int()` on what `isinstance(_, (int, float))` lets through; a bool is an int. */
  function AsIndex(v: Json): Option<int> {
    match v
    case Num(n) => Some(n)
    case Bool(b) => Some(if b then 1 else 0)
    case Real(r) => Some(if r >= 0.0 then r.Floor else -((-r).Floor))
    case _ => None
  }

  /** `self.data[i]`, negative indices included. */
  function Item(data: seq<Json>, i: int): Outcome<Json> {
    if 0 <= i < |data| then Ok(data[i])
    else if -|data| <= i < 0 then Ok(data[|data| + i])
    else Err(Raised)
  }

  /** `self.data[v]` with an index taken from the payload as it stands. */
  function ItemAt(data: seq<Json>, v: Json): Outcome<Json> {
    if v.Num? || v.Bool? then Item(data, AsIndex(v).value) else Err(Raised)
  }

  function Resolve(data: seq<Json>, x: Json, fuel: nat): Outcome<Json>
    decreases fuel
  {
    if fuel == 0 then Err(TooDeep)
    else if AsIndex(x).Some? then
      match Item(data, AsIndex(x).value)
      case Err(e) => Err(e)
      case Ok(val) =>
        if Tagged(val, {"ShallowReactive", "Reactive"}) then ItemAt(data, val.items[1])
        else if Tagged(val, {"Ref"}) then Resolve(data, val.items[1], fuel - 1)
        else if Tagged(val, {"EmptyRef"}) then Ok(Null)
        else if Tagged(val, {"skipHydrate"}) then Resolve(data, val.items[1], fuel - 1)
        else Ok(val)
    else if Tagged(x, {"Ref"}) then Resolve(data, x.items[1], fuel - 1)
    else if Tagged(x, {"ShallowReactive", "Reactive"}) then ItemAt(data, x.items[1])
    else if x.Obj? && HasRefKey(x.fields) then
      match ItemAt(data, RefValue(x.fields))
      case Err(e) => Err(e)
      case Ok(val) => Resolve(data, val, fuel - 1)
    else Ok(x)
  }

  function FullyResolve(data: seq<Json>, x: Json, fuel: nat): Outcome<Json>
    decreases fuel, 0
  {
    if fuel == 0 then Err(TooDeep)
    else match x
      case Bool(_) => Ok(x)
      case Num(_) | Real(_) =>
        (match Resolve(data, Num(AsIndex(x).value), fuel - 1)
         case Err(e) => Err(e)
         case Ok(v) => if v.List? || v.Obj? then FullyResolve(data, v, fuel - 1) else Ok(v))
      case List(items) =>
        if Tagged(x, {"Ref", "EmptyRef", "skipHydrate"}) then Reresolve(data, Resolve(data, x, fuel - 1), fuel - 1)
        else (match ResolveAll(data, items, fuel - 1)
              case Err(e) => Err(e)
              case Ok(vs) => Ok(List(vs)))
      case Obj(fields) =>
        if HasRefKey(fields) then Reresolve(data, Resolve(data, x, fuel - 1), fuel - 1)
        else (match ResolveFields(data, fields, fuel - 1)
              case Err(e) => Err(e)
              case Ok(fs) => Ok(Obj(fs)))
      case _ => Ok(x)
  }

  function Reresolve(data: seq<Json>, r: Outcome<Json>, fuel: nat): Outcome<Json>
    decreases fuel, 1
  {
    match r
    case Err(e) => Err(e)
    case Ok(v) => FullyResolve(data, v, fuel)
  }

  function ResolveAll(data: seq<Json>, items: seq<Json>, fuel: nat): Outcome<seq<Json>>
    decreases fuel, 1 + |items|
  {
    if items == [] then Ok([])
    else match FullyResolve(data, items[0], fuel)
      case Err(e) => Err(e)
      case Ok(v) =>
        match ResolveAll(data, items[1..], fuel)
        case Err(e) => Err(e)
        case Ok(vs) => Ok([v] + vs)
  }

  function ResolveFields(data: seq<Json>, fields: seq<Field>, fuel: nat): Outcome<seq<Field>>
    decreases fuel, 1 + |fields|
  {
    if fields == [] then Ok([])
    else match FullyResolve(data, fields[0].val, fuel)
      case Err(e) => Err(e)
      case Ok(v) =>
        match ResolveFields(data, fields[1..], fuel)
        case Err(e) => Err(e)
        case Ok(fs) => Ok([Field(fields[0].key, v)] + fs)
  }

  // ---------------------------------------------------------------------------
  // Indices
  // ---------------------------------------------------------------------------

  /** A fractional index is cut off towards zero, and a bool counts as 0 or 1. */
  lemma IndexIsTruncated(v: Json)
    ensures v.Real? ==> AsIndex(v).Some? && Truncates(v.r, AsIndex(v).value)
    ensures v.Bool? ==> AsIndex(v) == AsIndex(Num(if v.b then 1 else 0))
  {
  }

  predicate Truncates(r: real, i: int) {
    if r >= 0.0 then 0 <= i && i as real <= r < i as real + 1.0
    else i <= 0 && i as real - 1.0 < r <= i as real
  }

  /** An index from -n to n - 1 is good in a list of n, and a negative one counts from the end. */
  lemma IndexWraps(data: seq<Json>, i: int)
    ensures Item(data, i) == if -|data| <= i < |data| then Ok((data + data)[|data| + i]) else Err(Raised)
  {
  }

  /** What a bad index ends in: out of range anywhere, or fractional behind a reactive wrapper. */
  lemma BadIndexRaises(data: seq<Json>, i: int, fuel: nat)
    requires fuel >= 2
    ensures !(-|data| <= i < |data|) ==> FullyResolve(data, Num(i), fuel) == Err(Raised)
    ensures 0 <= i < |data| && Tagged(data[i], {"ShallowReactive", "Reactive"}) && data[i].items[1].Real? ==>
              FullyResolve(data, Num(i), fuel) == Err(Raised)
  {
  }

  // ---------------------------------------------------------------------------
  // More stack changes nothing but RecursionError
  // ---------------------------------------------------------------------------

  lemma {:induction false} ResolveMoreFuel(data: seq<Json>, x: Json, f: nat, g: nat)
    requires f <= g && Resolve(data, x, f) != Err(TooDeep)
    ensures Resolve(data, x, g) == Resolve(data, x, f)
    decreases f
  {
    if f == 0 { return; }
    if AsIndex(x).Some? {
      var at := Item(data, AsIndex(x).value);
      if at.Ok? && Tagged(at.value, {"Ref", "skipHydrate"}) { ResolveMoreFuel(data, at.value.items[1], f - 1, g - 1); }
    } else if Tagged(x, {"Ref"}) {
      ResolveMoreFuel(data, x.items[1], f - 1, g - 1);
    } else if !Tagged(x, {"ShallowReactive", "Reactive"}) && x.Obj? && HasRefKey(x.fields) {
      var at := ItemAt(data, RefValue(x.fields));
      if at.Ok? { ResolveMoreFuel(data, at.value, f - 1, g - 1); }
    }
  }

  lemma {:induction false} MoreFuel(data: seq<Json>, x: Json, f: nat, g: nat)
    requires f <= g && FullyResolve(data, x, f) != Err(TooDeep)
    ensures FullyResolve(data, x, g) == FullyResolve(data, x, f)
    decreases f, 0
  {
    if f == 0 { return; }
    match x {
      case Num(_) | Real(_) =>
        var i := Num(AsIndex(x).value);
        ResolveMoreFuel(data, i, f - 1, g - 1);
        var r := Resolve(data, i, f - 1);
        if r.Ok? && (r.value.List? || r.value.Obj?) { MoreFuel(data, r.value, f - 1, g - 1); }
      case List(items) =>
        if Tagged(x, {"Ref", "EmptyRef", "skipHydrate"}) {
          ResolveMoreFuel(data, x, f - 1, g - 1);
          var r := Resolve(data, x, f - 1);
          if r.Ok? { MoreFuel(data, r.value, f - 1, g - 1); }
        } else {
          MoreFuelAll(data, items, f - 1, g - 1);
        }
      case Obj(fields) =>
        if HasRefKey(fields) {
          ResolveMoreFuel(data, x, f - 1, g - 1);
          var r := Resolve(data, x, f - 1);
          if r.Ok? { MoreFuel(data, r.value, f - 1, g - 1); }
        } else {
          MoreFuelFields(data, fields, f - 1, g - 1);
        }
      case _ =>
    }
  }

  lemma {:induction false} MoreFuelAll(data: seq<Json>, items: seq<Json>, f: nat, g: nat)
    requires f <= g && ResolveAll(data, items, f) != Err(TooDeep)
    ensures ResolveAll(data, items, g) == ResolveAll(data, items, f)
    decreases f, 1 + |items|
  {
    if items != [] {
      MoreFuel(data, items[0], f, g);
      if FullyResolve(data, items[0], f).Ok? { MoreFuelAll(data, items[1..], f, g); }
    }
  }

  lemma {:induction false} MoreFuelFields(data: seq<Json>, fields: seq<Field>, f: nat, g: nat)
    requires f <= g && ResolveFields(data, fields, f) != Err(TooDeep)
    ensures ResolveFields(data, fields, g) == ResolveFields(data, fields, f)
    decreases f, 1 + |fields|
  {
    if fields != [] {
      MoreFuel(data, fields[0].val, f, g);
      if FullyResolve(data, fields[0].val, f).Ok? { MoreFuelFields(data, fields[1..], f, g); }
    }
  }

  // ---------------------------------------------------------------------------
  // What no payload can produce, and what never ends
  // ---------------------------------------------------------------------------

  /** No object inside `v` has a `$ref` key. */
  ghost predicate NoRefKey(v: Json) {
    match v
    case List(items) => forall i | 0 <= i < |items| :: NoRefKey(items[i])
    case Obj(fields) => !HasRefKey(fields) && forall i | 0 <= i < |fields| :: NoRefKey(fields[i].val)
    case _ => true
  }

  /** Whatever the payload, the result never contains a `$ref` key: it is always taken for a reference. */
  lemma {:induction false} ResultHasNoRefKey(data: seq<Json>, x: Json, fuel: nat)
    requires FullyResolve(data, x, fuel).Ok?
    ensures NoRefKey(FullyResolve(data, x, fuel).value)
    decreases fuel, 0
  {
    match x {
      case Num(_) | Real(_) =>
        var r := Resolve(data, Num(AsIndex(x).value), fuel - 1);
        if r.value.List? || r.value.Obj? { ResultHasNoRefKey(data, r.value, fuel - 1); }
      case List(items) =>
        if Tagged(x, {"Ref", "EmptyRef", "skipHydrate"}) {
          ResultHasNoRefKey(data, Resolve(data, x, fuel - 1).value, fuel - 1);
        } else {
          ResultsHaveNoRefKey(data, items, fuel - 1);
        }
      case Obj(fields) =>
        if HasRefKey(fields) {
          ResultHasNoRefKey(data, Resolve(data, x, fuel - 1).value, fuel - 1);
        } else {
          FieldResultsHaveNoRefKey(data, fields, fuel - 1);
        }
      case _ =>
    }
  }

  lemma {:induction false} ResultsHaveNoRefKey(data: seq<Json>, items: seq<Json>, fuel: nat)
    requires ResolveAll(data, items, fuel).Ok?
    ensures forall i | 0 <= i < |ResolveAll(data, items, fuel).value| :: NoRefKey(ResolveAll(data, items, fuel).value[i])
    decreases fuel, 1 + |items|
  {
    if items != [] {
      ResultHasNoRefKey(data, items[0], fuel);
      ResultsHaveNoRefKey(data, items[1..], fuel);
    }
  }

  lemma {:induction false} FieldResultsHaveNoRefKey(data: seq<Json>, fields: seq<Field>, fuel: nat)
    requires ResolveFields(data, fields, fuel).Ok?
    ensures var fs := ResolveFields(data, fields, fuel).value;
            |fs| == |fields| && forall i | 0 <= i < |fs| :: fs[i].key == fields[i].key && NoRefKey(fs[i].val)
    decreases fuel, 1 + |fields|
  {
    if fields != [] {
      ResultHasNoRefKey(data, fields[0].val, fuel);
      FieldResultsHaveNoRefKey(data, fields[1..], fuel);
    }
  }

  /** `["EmptyRef", x]` or `["skipHydrate", x]` met as a list, not through an index, recurses for ever. */
  lemma {:induction false} BareWrapperNeverEnds(data: seq<Json>, x: Json, fuel: nat)
    requires Tagged(x, {"EmptyRef", "skipHydrate"})
    ensures FullyResolve(data, x, fuel) == Err(TooDeep)
  {
    if fuel > 1 {
      assert Resolve(data, x, fuel - 1) == Ok(x);
      BareWrapperNeverEnds(data, x, fuel - 1);
    }
  }

  /** Item by item. */
  lemma {:induction false} ResolveAllShape(data: seq<Json>, items: seq<Json>, fuel: nat)
    requires ResolveAll(data, items, fuel).Ok?
    ensures var vs := ResolveAll(data, items, fuel).value;
            |vs| == |items| && forall k | 0 <= k < |items| :: FullyResolve(data, items[k], fuel) == Ok(vs[k])
    decreases |items|
  {
    if items != [] { ResolveAllShape(data, items[1..], fuel); }
  }

  lemma {:induction false} ResolveFieldsShape(data: seq<Json>, fields: seq<Field>, fuel: nat)
    requires ResolveFields(data, fields, fuel).Ok?
    ensures var fs := ResolveFields(data, fields, fuel).value;
            |fs| == |fields| && forall k | 0 <= k < |fields| ::
              fs[k].key == fields[k].key && FullyResolve(data, fields[k].val, fuel) == Ok(fs[k].val)
    decreases |fields|
  {
    if fields != [] { ResolveFieldsShape(data, fields[1..], fuel); }
  }

  /** A reactive wrapper is followed for one hop only: behind a second one the wrapper itself is returned, as a list
      that begins with its tag. */
  lemma SecondHopIsNotFollowed(data: seq<Json>, i: nat, j: nat, fuel: nat)
    requires i < |data| && j < |data| && Tagged(data[i], {"ShallowReactive", "Reactive"}) && data[i].items[1] == Num(j)
    requires Tagged(data[j], {"ShallowReactive", "Reactive"}) && FullyResolve(data, Num(i), fuel).Ok?
    ensures var r := FullyResolve(data, Num(i), fuel).value;
            r.List? && |r.items| == |data[j].items| && r.items[0] == data[j].items[0]
            && FullyResolve(data, data[j].items[1], fuel - 2) == Ok(r.items[1])
  {
    assert Resolve(data, Num(i), fuel - 1) == Ok(data[j]);
    ResolveAllShape(data, data[j].items, fuel - 2);
  }

  // ---------------------------------------------------------------------------
  // Acyclic payloads
  // ---------------------------------------------------------------------------

  /** `v` is taken for the index of a cell ranked below `bound`. */
  ghost predicate Points(rank: seq<nat>, bound: nat, v: Json) {
    AsIndex(v).Some? && 0 <= AsIndex(v).value < |rank| && rank[AsIndex(v).value] < bound
  }

  /** A cell that only forwards: its target must rank lower. A float is no index for a reactive hop. */
  ghost predicate ForwardsDown(data: seq<Json>, rank: seq<nat>, i: nat)
    requires i < |data| == |rank|
  {
    && (Tagged(data[i], {"Ref", "skipHydrate", "Reactive", "ShallowReactive"}) ==> Points(rank, rank[i], data[i].items[1]))
    && (Tagged(data[i], {"Reactive", "ShallowReactive"}) ==> !data[i].items[1].Real?)
  }

  ghost predicate Ranked(data: seq<Json>, rank: seq<nat>) {
    |data| == |rank| && forall j | 0 <= j < |data| :: ForwardsDown(data, rank, j)
  }

  /** What resolving cell `i` yields. */
  ghost function Landing(data: seq<Json>, rank: seq<nat>, i: nat): Json
    requires Ranked(data, rank) && i < |data|
    decreases rank[i]
  {
    assert ForwardsDown(data, rank, i);
    if Tagged(data[i], {"ShallowReactive", "Reactive"}) then data[AsIndex(data[i].items[1]).value]
    else if Tagged(data[i], {"Ref", "skipHydrate"}) then Landing(data, rank, AsIndex(data[i].items[1]).value)
    else if Tagged(data[i], {"EmptyRef"}) then Null
    else data[i]
  }

  /** What an index lands on may be resolved once more: a number there is dereferenced again. */
  ghost predicate LandsWell(data: seq<Json>, rank: seq<nat>, i: nat)
    requires Ranked(data, rank) && i < |data|
  {
    var v := Landing(data, rank, i);
    v.Num? || v.Real? ==> Points(rank, rank[i], v)
  }

  /** `v`, met as content, only refers below `bound`. Bare `EmptyRef`/`skipHydrate` lists are out. */
  ghost predicate Sound(data: seq<Json>, rank: seq<nat>, bound: nat, v: Json)
    requires Ranked(data, rank)
    decreases v
  {
    match v
    case Num(_) => Points(rank, bound, v)
    case Real(_) => Points(rank, bound, v)
    case List(items) =>
      if Tagged(v, {"Ref"}) then Points(rank, bound, items[1]) && LandsWell(data, rank, AsIndex(items[1]).value)
      else !Tagged(v, {"EmptyRef", "skipHydrate"}) && forall i | 0 <= i < |items| :: Sound(data, rank, bound, items[i])
    case Obj(fields) =>
      if HasRefKey(fields) then
        var r := RefValue(fields);
        Points(rank, bound, r) && !r.Real? && RefTarget(data, rank, bound, data[AsIndex(r).value])
      else forall i | 0 <= i < |fields| :: Sound(data, rank, bound, fields[i].val)
    case _ => true
  }

  /** The cell a `$ref` names: a further index, or content standing there directly. */
  ghost predicate RefTarget(data: seq<Json>, rank: seq<nat>, bound: nat, v: Json)
    requires Ranked(data, rank)
  {
    if AsIndex(v).Some? then Points(rank, bound, v) && LandsWell(data, rank, AsIndex(v).value)
    else !(v.Obj? && HasRefKey(v.fields))
         && !Tagged(v, {"Ref", "EmptyRef", "skipHydrate", "Reactive", "ShallowReactive"})
  }

  /** What an index may meet: a forwarding cell, a number or other scalar, or sound content. */
  ghost predicate CellSound(data: seq<Json>, rank: seq<nat>, i: nat)
    requires Ranked(data, rank) && i < |data|
  {
    assert ForwardsDown(data, rank, i);
    var v := data[i];
    if Tagged(v, {"ShallowReactive", "Reactive"}) then
      var raw := data[AsIndex(v.items[1]).value];
      raw.List? || raw.Obj? ==> Sound(data, rank, rank[i], raw)
    else
      Tagged(v, {"Ref", "skipHydrate", "EmptyRef"}) || (v.List? || v.Obj? ==> Sound(data, rank, rank[i], v))
  }

  /** Every reference is an index in range, and following references always goes to lower ranks. */
  ghost predicate WellFormed(data: seq<Json>, rank: seq<nat>) {
    Ranked(data, rank) && forall i | 0 <= i < |data| :: CellSound(data, rank, i)
  }

  lemma {:induction false} SoundHigher(data: seq<Json>, rank: seq<nat>, low: nat, high: nat, v: Json)
    requires low <= high && Ranked(data, rank) && Sound(data, rank, low, v)
    ensures Sound(data, rank, high, v)
    decreases v
  {
    match v {
      case List(items) =>
        if !Tagged(v, {"Ref"}) {
          forall i | 0 <= i < |items| ensures Sound(data, rank, high, items[i]) { SoundHigher(data, rank, low, high, items[i]); }
        }
      case Obj(fields) =>
        if !HasRefKey(fields) {
          forall i | 0 <= i < |fields| ensures Sound(data, rank, high, fields[i].val) {
            SoundHigher(data, rank, low, high, fields[i].val);
          }
        }
      case _ =>
    }
  }

  lemma {:induction false} LandingIsSound(data: seq<Json>, rank: seq<nat>, i: nat)
    requires WellFormed(data, rank) && i < |data|
    ensures var v := Landing(data, rank, i); v.List? || v.Obj? ==> Sound(data, rank, rank[i], v)
    decreases rank[i]
  {
    assert ForwardsDown(data, rank, i) && CellSound(data, rank, i);
    if Tagged(data[i], {"Ref", "skipHydrate"}) && !Tagged(data[i], {"ShallowReactive", "Reactive"}) {
      var j := AsIndex(data[i].items[1]).value;
      LandingIsSound(data, rank, j);
      var v := Landing(data, rank, j);
      if v.List? || v.Obj? { SoundHigher(data, rank, rank[j], rank[i], v); }
    }
  }

  lemma {:induction false} ResolveLands(data: seq<Json>, rank: seq<nat>, v: Json, fuel: nat)
    requires WellFormed(data, rank) && AsIndex(v).Some? && 0 <= AsIndex(v).value < |data|
    requires fuel > rank[AsIndex(v).value]
    ensures Resolve(data, v, fuel) == Ok(Landing(data, rank, AsIndex(v).value))
    decreases rank[AsIndex(v).value]
  {
    var i := AsIndex(v).value;
    assert ForwardsDown(data, rank, i);
    if Tagged(data[i], {"Ref", "skipHydrate"}) {
      ResolveLands(data, rank, data[i].items[1], fuel - 1);
    }
  }

  /** What an index lands on is sound content, if it is resolved once more. */
  lemma LandingGoesOn(data: seq<Json>, rank: seq<nat>, i: nat)
    requires WellFormed(data, rank) && i < |data| && LandsWell(data, rank, i)
    ensures Sound(data, rank, rank[i], Landing(data, rank, i))
  {
    LandingIsSound(data, rank, i);
  }

  /** On every acyclic, well-formed payload full resolution ends with a value, given enough stack. */
  lemma {:induction false} Terminates(data: seq<Json>, rank: seq<nat>, bound: nat, v: Json) returns (fuel: nat)
    requires WellFormed(data, rank) && Sound(data, rank, bound, v)
    ensures fuel > 0 && forall f | f >= fuel :: FullyResolve(data, v, f).Ok?
    decreases bound, v, 1
  {
    match v {
      case Num(_) => fuel := IndexTerminates(data, rank, bound, v);
      case Real(_) => fuel := IndexTerminates(data, rank, bound, v);
      case List(items) =>
        if Tagged(v, {"Ref"}) {
          var n := AsIndex(items[1]).value;
          LandingGoesOn(data, rank, n);
          var inner := Terminates(data, rank, rank[n], Landing(data, rank, n));
          fuel := inner + rank[n] + 3;
          forall f | f >= fuel ensures FullyResolve(data, v, f).Ok? {
            ResolveLands(data, rank, items[1], f - 2);
            assert Resolve(data, v, f - 1) == Ok(Landing(data, rank, n));
            assert FullyResolve(data, Landing(data, rank, n), f - 1).Ok?;
          }
        } else {
          var inner := TerminatesAll(data, rank, bound, v, items);
          fuel := inner + 1;
        }
      case Obj(fields) =>
        if HasRefKey(fields) {
          fuel := RefTerminates(data, rank, bound, v);
        } else {
          var inner := TerminatesFields(data, rank, bound, v, fields);
          fuel := inner + 1;
        }
      case _ =>
        fuel := 1;
    }
  }

  lemma {:induction false} IndexTerminates(data: seq<Json>, rank: seq<nat>, bound: nat, v: Json) returns (fuel: nat)
    requires WellFormed(data, rank) && Points(rank, bound, v) && (v.Num? || v.Real?)
    ensures fuel > 0 && forall f | f >= fuel :: FullyResolve(data, v, f).Ok?
    decreases bound, v, 0
  {
    var n := AsIndex(v).value;
    var at := Landing(data, rank, n);
    LandingIsSound(data, rank, n);
    var inner := 0;
    if at.List? || at.Obj? { inner := Terminates(data, rank, rank[n], at); }
    fuel := inner + rank[n] + 2;
    forall f | f >= fuel ensures FullyResolve(data, v, f).Ok? {
      ResolveLands(data, rank, Num(n), f - 1);
    }
  }

  lemma {:induction false} RefTerminates(data: seq<Json>, rank: seq<nat>, bound: nat, v: Json) returns (fuel: nat)
    requires WellFormed(data, rank) && Sound(data, rank, bound, v) && v.Obj? && HasRefKey(v.fields)
    ensures fuel > 0 && forall f | f >= fuel :: FullyResolve(data, v, f).Ok?
    decreases bound, v, 0
  {
    var r := AsIndex(RefValue(v.fields)).value;
    var target := data[r];
    if AsIndex(target).Some? {
      var n := AsIndex(target).value;
      LandingGoesOn(data, rank, n);
      var inner := Terminates(data, rank, rank[n], Landing(data, rank, n));
      fuel := inner + rank[n] + 3;
      forall f | f >= fuel ensures FullyResolve(data, v, f).Ok? {
        ResolveLands(data, rank, target, f - 2);
        assert Resolve(data, v, f - 1) == Ok(Landing(data, rank, n));
        assert FullyResolve(data, Landing(data, rank, n), f - 1).Ok?;
      }
    } else {
      assert CellSound(data, rank, r);
      var inner := Terminates(data, rank, rank[r], target);
      fuel := inner + 3;
      forall f | f >= fuel ensures FullyResolve(data, v, f).Ok? {
        assert Resolve(data, target, f - 2) == Ok(target);
        assert Resolve(data, v, f - 1) == Ok(target);
        assert FullyResolve(data, target, f - 1).Ok?;
      }
    }
  }

  lemma {:induction false} TerminatesAll(data: seq<Json>, rank: seq<nat>, bound: nat, whole: Json, items: seq<Json>)
    returns (fuel: nat)
    requires WellFormed(data, rank) && forall i | 0 <= i < |items| :: items[i] < whole && Sound(data, rank, bound, items[i])
    ensures fuel > 0 && forall f | f >= fuel :: ResolveAll(data, items, f).Ok?
    decreases bound, whole, 0, |items|
  {
    fuel := 1;
    if items != [] {
      var first := Terminates(data, rank, bound, items[0]);
      var rest := TerminatesAll(data, rank, bound, whole, items[1..]);
      fuel := first + rest;
    }
  }

  lemma {:induction false} TerminatesFields(data: seq<Json>, rank: seq<nat>, bound: nat, whole: Json, fields: seq<Field>)
    returns (fuel: nat)
    requires WellFormed(data, rank)
    requires forall i | 0 <= i < |fields| :: fields[i].val < whole && Sound(data, rank, bound, fields[i].val)
    ensures fuel > 0 && forall f | f >= fuel :: ResolveFields(data, fields, f).Ok?
    decreases bound, whole, 0, |fields|
  {
    fuel := 1;
    if fields != [] {
      var first := Terminates(data, rank, bound, fields[0].val);
      var rest := TerminatesFields(data, rank, bound, whole, fields[1..]);
      fuel := first + rest;
    }
  }
}
