/**
 * Which enums get a derived structural equality (planEquality in
 * internal/gen/equalgen.go): the greatest set every member of which passes
 * with respect to that set, whatever order names are visited in.
 */
module Derivable {
  import opened Wrappers

  datatype Shape = Opaque | Self | SliceSelf | Wrapper | SliceWrapper | OtherEnum | SliceOther | SliceOpaque | Unfit

  /** What one enum is classified against; `structs` are all the package's. */
  datatype Env = Env(enum: string, wrappers: set<string>, enums: set<string>, derivable: set<string>, structs: Decls) {
    ghost predicate Ok() {
      wrappers <= structs.Keys
    }
  }

  /** A text mentioning a function, map or channel, also inside slices. */
  predicate BadText(t: Text) {
    t.Bad? || (t.Slice? && BadText(t.elem))
  }

  // ---------------------------------------------------- comparable structs

  /** A plain field of struct `x` is of struct `y`. */
  predicate Holds(structs: Decls, x: string, y: string) {
    x in structs && y in structs && exists i | 0 <= i < |structs[x]| :: structs[x][i].typ == Named(y)
  }

  /** A field with which == does not compile. */
  predicate Stuck(structs: Decls, x: string) {
    x in structs && exists i | 0 <= i < |structs[x]| :: BadText(structs[x][i].typ) || structs[x][i].typ.Slice?
  }

  /** Sets of structs with no such field, closed under plain struct fields. */
  ghost predicate Fit(structs: Decls, xs: set<string>) {
    && (forall x | x in xs :: !Stuck(structs, x))
    && (forall x, y | x in xs && Holds(structs, x, y) :: y in xs)
  }

  /** No struct reached through plain fields has one. */
  ghost predicate Comparable(structs: Decls, x: string) {
    exists xs :: Fit(structs, xs) && x in xs
  }

  /** `u` is the type of a field of `x`, or of a struct reached from it through `n` plain fields. */
  ghost predicate PlainlyReaches(structs: Decls, x: string, u: Text, n: nat)
    decreases n
  {
    x in structs &&
    if n == 0 then exists i :: 0 <= i < |structs[x]| && structs[x][i].typ == u
    else exists y :: Holds(structs, x, y) && PlainlyReaches(structs, y, u, n - 1)
  }

  ghost predicate OnlyComparable(structs: Decls, x: string) {
    forall u, n: nat | PlainlyReaches(structs, x, u, n) :: !BadText(u) && !u.Slice?
  }

  lemma {:induction false} FitReachesComparable(structs: Decls, xs: set<string>, x: string, u: Text, n: nat)
    requires Fit(structs, xs) && x in xs && PlainlyReaches(structs, x, u, n)
    ensures !BadText(u) && !u.Slice?
    decreases n
  {
    if n > 0 {
      var y :| Holds(structs, x, y) && PlainlyReaches(structs, y, u, n - 1);
      FitReachesComparable(structs, xs, y, u, n - 1);
    }
  }

  /** Comparable is what it says: no plain chain of structs leads to a slice or to a text that cannot be compared. */
  lemma ComparableExactly(structs: Decls, x: string)
    ensures Comparable(structs, x) <==> OnlyComparable(structs, x)
  {
    if Comparable(structs, x) {
      var xs :| Fit(structs, xs) && x in xs;
      forall u, n: nat | PlainlyReaches(structs, x, u, n) ensures !BadText(u) && !u.Slice? {
        FitReachesComparable(structs, xs, x, u, n);
      }
    }
    if OnlyComparable(structs, x) {
      var xs := set y | y in structs.Keys + {x} && OnlyComparable(structs, y);
      forall y | y in xs ensures !Stuck(structs, y) {
        OnlyNotStuck(structs, y);
      }
      forall y, z | y in xs && Holds(structs, y, z) ensures z in xs {
        OnlyBelow(structs, y, z);
      }
      assert Fit(structs, xs) && x in xs;
    }
  }

  lemma OnlyNotStuck(structs: Decls, x: string)
    requires OnlyComparable(structs, x)
    ensures !Stuck(structs, x)
  {
    if x in structs {
      forall i | 0 <= i < |structs[x]| ensures !BadText(structs[x][i].typ) && !structs[x][i].typ.Slice? {
        assert PlainlyReaches(structs, x, structs[x][i].typ, 0);
      }
    }
  }

  lemma OnlyBelow(structs: Decls, x: string, y: string)
    requires OnlyComparable(structs, x) && Holds(structs, x, y)
    ensures OnlyComparable(structs, y)
  {
    forall u, n: nat | PlainlyReaches(structs, y, u, n) ensures !BadText(u) && !u.Slice? {
      assert PlainlyReaches(structs, x, u, n + 1);
    }
  }

  /** The marks a search shares with the calls it makes. */
  class Seen {
    var names: set<string>

    constructor ()
      ensures names == {}
    {
      names := {};
    }
  }

  lemma StuckBelow(structs: Decls, x: string, y: string)
    requires Holds(structs, x, y) && !Comparable(structs, y)
    ensures !Comparable(structs, x)
  {
  }

  /** What a search that found nothing has marked since `before`. */
  ghost predicate Explored(structs: Decls, before: set<string>, after: set<string>) {
    && before <= after
    && (forall x | x in after - before :: !Stuck(structs, x))
    && (forall x, y | x in after - before && Holds(structs, x, y) :: y in after)
  }

  ghost predicate FieldsFit(structs: Decls, fields: seq<Field>, xs: set<string>) {
    forall i | 0 <= i < |fields| ::
      var t := fields[i].typ;
      !BadText(t) && !t.Slice? && (t.Named? && t.name in structs ==> t.name in xs)
  }

  method SearchStruct(structs: Decls, x: string, seen: Seen) returns (ok: bool)
    requires seen.names <= structs.Keys && x in structs
    modifies seen
    ensures seen.names <= structs.Keys
    ensures ok ==> Explored(structs, old(seen.names), seen.names) && x in seen.names
    ensures !ok ==> !Comparable(structs, x)
    decreases structs.Keys - seen.names
  {
    if x in seen.names {
      return true;
    }
    ghost var before := seen.names;
    assert x in structs.Keys - seen.names;
    seen.names := seen.names + {x};
    assert x !in structs.Keys - seen.names;
    var fields := structs[x];
    var i := 0;
    while i < |fields|
      invariant 0 <= i <= |fields| && before + {x} <= seen.names <= structs.Keys
      invariant Explored(structs, before + {x}, seen.names)
      invariant FieldsFit(structs, fields[..i], seen.names)
    {
      var t := fields[i].typ;
      if BadText(t) || t.Slice? {
        assert Stuck(structs, x);
        return false;
      }
      if t.Named? && t.name in structs {
        var ok' := SearchStruct(structs, t.name, seen);
        if !ok' {
          assert Holds(structs, x, t.name);
          StuckBelow(structs, x, t.name);
          return false;
        }
      }
      i := i + 1;
    }
    assert fields[..|fields|] == fields;
    FieldsDone(structs, x, seen.names);
    return true;
  }

  lemma FieldsDone(structs: Decls, x: string, xs: set<string>)
    requires x in structs && FieldsFit(structs, structs[x], xs)
    ensures !Stuck(structs, x)
    ensures forall y | Holds(structs, x, y) :: y in xs
  {
  }

  /** The search's answer, cycles and all, is whether no unfit field is reached. */
  method StructComparable(structs: Decls, x: string) returns (ok: bool)
    requires x in structs
    ensures ok <==> Comparable(structs, x)
  {
    var seen := new Seen();
    ok := SearchStruct(structs, x, seen);
    assert ok ==> Fit(structs, seen.names);
  }

  // -------------------------------------------------- classifying one field

  ghost function ShapeOf(t: Text, env: Env): Shape {
    if BadText(t) then Unfit
    else if t == Named(env.enum) then Self
    else if t.Slice? then
      var b := t.elem;
      if b == Named(env.enum) then SliceSelf
      else if b.Named? && b.name in env.wrappers then SliceWrapper
      else if b.Named? && b.name in env.enums then if b.name in env.derivable then SliceOther else Unfit
      else if b.Named? && b.name in env.structs && !Comparable(env.structs, b.name) then Unfit
      else if b.Slice? then Unfit
      else SliceOpaque
    else if t.name in env.wrappers then Wrapper
    else if t.name in env.enums then if t.name in env.derivable then OtherEnum else Unfit
    else if t.name in env.structs && !Comparable(env.structs, t.name) then Unfit
    else Opaque
  }

  method ClassifyEq(t: Text, env: Env) returns (shape: Shape)
    ensures shape == ShapeOf(t, env)
  {
    if BadText(t) {
      return Unfit;
    }
    if t == Named(env.enum) {
      return Self;
    }
    if t.Slice? {
      var b := t.elem;
      if b == Named(env.enum) {
        return SliceSelf;
      }
      if b.Named? && b.name in env.wrappers {
        return SliceWrapper;
      }
      if b.Named? && b.name in env.enums {
        return if b.name in env.derivable then SliceOther else Unfit;
      }
      if b.Named? && b.name in env.structs {
        var ok := StructComparable(env.structs, b.name);
        if !ok {
          return Unfit;
        }
      }
      return if b.Slice? then Unfit else SliceOpaque;
    }
    if t.name in env.wrappers {
      return Wrapper;
    }
    if t.name in env.enums {
      return if t.name in env.derivable then OtherEnum else Unfit;
    }
    if t.name in env.structs {
      var ok := StructComparable(env.structs, t.name);
      if !ok {
        return Unfit;
      }
    }
    return Opaque;
  }

  // ------------------------------------------------ descending the wrappers

  /** The field itself is fit, and its wrapper, if it has one, is in `ws`. */
  ghost predicate TypeFit(t: Text, env: Env, ws: set<string>) {
    var shape := ShapeOf(t, env);
    shape != Unfit && (shape == Wrapper || shape == SliceWrapper ==> Base(t).name in ws)
  }

  ghost predicate WrapperFit(env: Env, ws: set<string>, w: string) {
    w in env.structs && forall i | 0 <= i < |env.structs[w]| :: TypeFit(env.structs[w][i].typ, env, ws)
  }

  ghost predicate AllFit(env: Env, ws: set<string>) {
    forall w | w in ws :: WrapperFit(env, ws, w)
  }

  /** No unfit field is reached from a field of this type through wrappers. */
  ghost predicate Clean(t: Text, env: Env) {
    exists ws :: AllFit(env, ws) && TypeFit(t, env, ws)
  }

  /** An unfit field is reached in at most `n` steps into wrappers. */
  ghost predicate MeetsUnfit(t: Text, env: Env, n: nat)
    decreases n
  {
    ShapeOf(t, env) == Unfit || (n > 0 && Descends(t, env) && exists i ::
      0 <= i < |env.structs[Base(t).name]| && MeetsUnfit(env.structs[Base(t).name][i].typ, env, n - 1))
  }

  ghost predicate Descends(t: Text, env: Env) {
    (ShapeOf(t, env) == Wrapper || ShapeOf(t, env) == SliceWrapper) && Base(t).name in env.structs
  }

  lemma {:induction false} FitMeetsNone(t: Text, env: Env, ws: set<string>, n: nat)
    requires AllFit(env, ws) && TypeFit(t, env, ws)
    ensures !MeetsUnfit(t, env, n)
    decreases n
  {
    if n > 0 && Descends(t, env) {
      var w := Base(t).name;
      assert WrapperFit(env, ws, w);
      forall i | 0 <= i < |env.structs[w]| ensures !MeetsUnfit(env.structs[w][i].typ, env, n - 1) {
        FitMeetsNone(env.structs[w][i].typ, env, ws, n - 1);
      }
    }
  }

  /** Clean is what it says: no chain of wrappers leads from the field to an unfit one. */
  lemma CleanExactly(t: Text, env: Env)
    requires env.Ok()
    ensures Clean(t, env) <==> NeverMeets(t, env)
  {
    if Clean(t, env) {
      var ws :| AllFit(env, ws) && TypeFit(t, env, ws);
      forall n: nat ensures !MeetsUnfit(t, env, n) {
        FitMeetsNone(t, env, ws, n);
      }
    }
    if NeverMeets(t, env) {
      var ws := set w | w in env.structs && FreeOfUnfit(env, w);
      forall w | w in ws ensures WrapperFit(env, ws, w) {
        forall i | 0 <= i < |env.structs[w]| ensures TypeFit(env.structs[w][i].typ, env, ws) {
          CleanType(env.structs[w][i].typ, env, ws);
        }
      }
      CleanType(t, env, ws);
      assert AllFit(env, ws) && TypeFit(t, env, ws);
    }
  }

  ghost predicate FreeOfUnfit(env: Env, w: string)
    requires w in env.structs
  {
    forall i | 0 <= i < |env.structs[w]| :: NeverMeets(env.structs[w][i].typ, env)
  }

  ghost predicate NeverMeets(t: Text, env: Env) {
    forall n: nat :: !MeetsUnfit(t, env, n)
  }

  lemma CleanType(t: Text, env: Env, ws: set<string>)
    requires env.Ok() && ws == set w | w in env.structs && FreeOfUnfit(env, w)
    requires NeverMeets(t, env)
    ensures TypeFit(t, env, ws)
  {
    assert !MeetsUnfit(t, env, 0);
    if Descends(t, env) {
      var w := Base(t).name;
      forall i, n: nat | 0 <= i < |env.structs[w]| ensures !MeetsUnfit(env.structs[w][i].typ, env, n) {
        assert !MeetsUnfit(t, env, n + 1);
      }
    }
  }

  ghost predicate ExploredWrappers(env: Env, before: set<string>, after: set<string>) {
    before <= after && forall w | w in after - before :: WrapperFit(env, after, w)
  }

  lemma MoreWrappers(env: Env, ws: set<string>, more: set<string>, w: string)
    requires WrapperFit(env, ws, w) && ws <= more
    ensures WrapperFit(env, more, w)
  {
  }

  lemma ExploredFurther(env: Env, a: set<string>, b: set<string>, c: set<string>)
    requires ExploredWrappers(env, a, b) && ExploredWrappers(env, b, c)
    ensures ExploredWrappers(env, a, c)
  {
    forall w | w in c - a ensures WrapperFit(env, c, w) {
      if w in b {
        MoreWrappers(env, b, c, w);
      }
    }
  }

  lemma CleanBelow(t: Text, env: Env, w: string, i: nat)
    requires w in env.structs && i < |env.structs[w]|
    requires ShapeOf(t, env) == Wrapper || ShapeOf(t, env) == SliceWrapper
    requires Base(t) == Named(w)
    ensures Clean(t, env) ==> Clean(env.structs[w][i].typ, env)
  {
    if Clean(t, env) {
      var ws :| AllFit(env, ws) && TypeFit(t, env, ws);
      assert WrapperFit(env, ws, w);
      assert TypeFit(env.structs[w][i].typ, env, ws);
    }
  }

  method FieldsOK(t: Text, env: Env, seen: Seen) returns (ok: bool)
    requires env.Ok() && seen.names <= env.wrappers
    modifies seen
    ensures seen.names <= env.wrappers
    ensures ok ==> ExploredWrappers(env, old(seen.names), seen.names) && TypeFit(t, env, seen.names)
    ensures !ok ==> !Clean(t, env)
    decreases env.wrappers - seen.names
  {
    var shape := ClassifyEq(t, env);
    if shape == Unfit {
      return false;
    }
    if shape != Wrapper && shape != SliceWrapper {
      return true;
    }
    var w := Base(t).name;
    if w in seen.names {
      return true;
    }
    ghost var before := seen.names;
    assert w in env.wrappers - seen.names;
    seen.names := seen.names + {w};
    assert w !in env.wrappers - seen.names;
    var fields := env.structs[w];
    var i := 0;
    while i < |fields|
      invariant 0 <= i <= |fields| && before + {w} <= seen.names <= env.wrappers
      invariant ExploredWrappers(env, before + {w}, seen.names)
      invariant forall j | 0 <= j < i :: TypeFit(fields[j].typ, env, seen.names)
    {
      ghost var here := seen.names;
      var fine := FieldsOK(fields[i].typ, env, seen);
      if !fine {
        CleanBelow(t, env, w, i);
        return false;
      }
      ExploredFurther(env, before + {w}, here, seen.names);
      i := i + 1;
    }
    assert WrapperFit(env, seen.names, w);
    return true;
  }

  ghost predicate Passes(fields: seq<Text>, env: Env) {
    forall i | 0 <= i < |fields| :: Clean(fields[i], env)
  }

  method EnumEqDerivable(fields: seq<Text>, env: Env) returns (ok: bool)
    requires env.Ok()
    ensures ok <==> Passes(fields, env)
  {
    for i := 0 to |fields|
      invariant forall j | 0 <= j < i :: Clean(fields[j], env)
    {
      var seen := new Seen();
      var fine := FieldsOK(fields[i], env, seen);
      if !fine {
        return false;
      }
      assert AllFit(env, seen.names);
    }
    return true;
  }

  // ---------------------------------------------------------- the fixpoint

  /** What the package declares: every candidate enum's field types, all enums, all structs. */
  datatype Package = Package(candidates: map<string, seq<Text>>, enums: set<string>, structs: Decls)

  ghost function EnvOf(p: Package, derivable: set<string>, name: string): Env {
    Env(name, (set x | x in p.structs && Kept(p.structs, name, x)), p.enums, derivable, p.structs)
  }

  ghost predicate PassesIn(p: Package, derivable: set<string>, name: string) {
    name in p.candidates && Passes(p.candidates[name], EnvOf(p, derivable, name))
  }

  /** Every member passes when the members count as derivable. */
  ghost predicate Consistent(p: Package, derivable: set<string>) {
    forall name | name in derivable :: PassesIn(p, derivable, name)
  }

  lemma TypeFitMore(t: Text, env: Env, more: set<string>, ws: set<string>)
    requires env.derivable <= more && TypeFit(t, env, ws)
    ensures TypeFit(t, env.(derivable := more), ws)
  {
  }

  lemma CleanMore(t: Text, env: Env, more: set<string>)
    requires env.derivable <= more && Clean(t, env)
    ensures Clean(t, env.(derivable := more))
  {
    var ws :| AllFit(env, ws) && TypeFit(t, env, ws);
    var env' := env.(derivable := more);
    forall w | w in ws ensures WrapperFit(env', ws, w) {
      assert WrapperFit(env, ws, w);
      forall i | 0 <= i < |env.structs[w]| ensures TypeFit(env.structs[w][i].typ, env', ws) {
        TypeFitMore(env.structs[w][i].typ, env, more, ws);
      }
    }
    TypeFitMore(t, env, more, ws);
  }

  /** More derivable enums never make one fail. */
  lemma PassesMore(p: Package, derivable: set<string>, more: set<string>, name: string)
    requires derivable <= more && PassesIn(p, derivable, name)
    ensures PassesIn(p, more, name)
  {
    var fields := p.candidates[name];
    forall i | 0 <= i < |fields| ensures Clean(fields[i], EnvOf(p, more, name)) {
      CleanMore(fields[i], EnvOf(p, derivable, name), more);
    }
  }

  // ---------------------------------------------- what the plan promises

  /** The text names `w` plainly or as a slice's element, and `w` is a wrapper kept for the enum. */
  ghost predicate Enters(p: Package, enum: string, t: Text, w: string) {
    Base(t) == Named(w) && w != enum && w in p.structs && Kept(p.structs, enum, w)
  }

  /** A field of type `u` is reached from one of type `t` through `n` kept wrappers. */
  ghost predicate Leads(p: Package, enum: string, t: Text, u: Text, n: nat)
    decreases n
  {
    if n == 0 then u == t else
      exists w :: Enters(p, enum, t, w) && exists i ::
        0 <= i < |p.structs[w]| && Leads(p, enum, p.structs[w][i].typ, u, n - 1)
  }

  /** Equality can be derived for a field of this type when the enums in `derivable` have theirs. */
  ghost predicate FitIn(p: Package, derivable: set<string>, enum: string, u: Text) {
    && !BadText(u)
    && !(u.Slice? && u.elem.Slice?)
    && forall x | Base(u) == Named(x) && x != enum && !Enters(p, enum, u, x) ::
      if x in p.enums then x in derivable else x in p.structs ==> Comparable(p.structs, x)
  }

  ghost predicate AllReachedFit(p: Package, derivable: set<string>, enum: string)
    requires enum in p.candidates
  {
    forall i, u, n: nat | 0 <= i < |p.candidates[enum]| && Leads(p, enum, p.candidates[enum][i], u, n) ::
      FitIn(p, derivable, enum, u)
  }

  /** Whatever field a member reaches is fit with respect to the members. */
  ghost predicate Planned(p: Package, derivable: set<string>) {
    forall enum | enum in derivable :: enum in p.candidates && AllReachedFit(p, derivable, enum)
  }

  lemma EntersWrapper(p: Package, derivable: set<string>, enum: string, t: Text, w: string)
    ensures Enters(p, enum, t, w) <==> Base(t) == Named(w) && w != enum && w in EnvOf(p, derivable, enum).wrappers
  {
  }

  ghost predicate NameUnfit(env: Env, x: string) {
    && x != env.enum && x !in env.wrappers
    && if x in env.enums then x !in env.derivable else x in env.structs && !Comparable(env.structs, x)
  }

  /** What the classification says of a text, by the name in it. */
  lemma ShapeNamed(t: Text, env: Env, x: string)
    requires Base(t) == Named(x)
    ensures ShapeOf(t, env) == Wrapper || ShapeOf(t, env) == SliceWrapper <==> x != env.enum && x in env.wrappers
    ensures ShapeOf(t, env) == Unfit <==> NameUnfit(env, x)
  {
    assert !BadText(Base(t)) && !BadText(t);
  }

  lemma ShapeNameless(t: Text, env: Env)
    requires !Base(t).Named?
    ensures var shape := ShapeOf(t, env); shape == Unfit && (BadText(t) || (t.Slice? && t.elem.Slice?))
  {
  }

  lemma ShapeFit(p: Package, derivable: set<string>, enum: string, u: Text)
    ensures ShapeOf(u, EnvOf(p, derivable, enum)) != Unfit <==> FitIn(p, derivable, enum, u)
  {
    var env := EnvOf(p, derivable, enum);
    if Base(u).Named? {
      ShapeNamed(u, env, Base(u).name);
      EntersWrapper(p, derivable, enum, u, Base(u).name);
    } else {
      ShapeNameless(u, env);
    }
  }

  lemma ShapeEnters(p: Package, derivable: set<string>, enum: string, t: Text, w: string)
    ensures var env := EnvOf(p, derivable, enum);
            Enters(p, enum, t, w) <==> Descends(t, env) && Base(t) == Named(w)
  {
    var env := EnvOf(p, derivable, enum);
    EntersWrapper(p, derivable, enum, t, w);
    if Base(t) == Named(w) {
      ShapeNamed(t, env, w);
    }
  }

  lemma DescendsNamed(t: Text, env: Env)
    requires Descends(t, env)
    ensures Base(t).Named?
  {
    if !Base(t).Named? {
      ShapeNameless(t, env);
    }
  }

  lemma MeetsBelow(p: Package, derivable: set<string>, enum: string, t: Text, w: string, i: nat, n: nat)
    requires Enters(p, enum, t, w) && i < |p.structs[w]|
    requires MeetsUnfit(p.structs[w][i].typ, EnvOf(p, derivable, enum), n)
    ensures MeetsUnfit(t, EnvOf(p, derivable, enum), n + 1)
  {
    ShapeEnters(p, derivable, enum, t, w);
  }

  lemma {:induction false} LeadsMeets(p: Package, derivable: set<string>, enum: string, t: Text, u: Text, n: nat)
    requires Leads(p, enum, t, u, n) && !FitIn(p, derivable, enum, u)
    ensures MeetsUnfit(t, EnvOf(p, derivable, enum), n)
    decreases n
  {
    if n == 0 {
      ShapeFit(p, derivable, enum, t);
    } else {
      var m := n - 1;
      var w :| Enters(p, enum, t, w) && exists i ::
        0 <= i < |p.structs[w]| && Leads(p, enum, p.structs[w][i].typ, u, m);
      var i :| 0 <= i < |p.structs[w]| && Leads(p, enum, p.structs[w][i].typ, u, m);
      LeadsMeets(p, derivable, enum, p.structs[w][i].typ, u, m);
      MeetsBelow(p, derivable, enum, t, w, i, m);
    }
  }

  lemma UnfitBelow(t: Text, env: Env, n: nat) returns (w: string, i: nat)
    requires MeetsUnfit(t, env, n) && ShapeOf(t, env) != Unfit
    ensures n > 0 && Descends(t, env) && Base(t) == Named(w) && w in env.structs && i < |env.structs[w]|
    ensures MeetsUnfit(env.structs[w][i].typ, env, n - 1)
  {
    DescendsNamed(t, env);
    w := Base(t).name;
    i :| 0 <= i < |env.structs[w]| && MeetsUnfit(env.structs[w][i].typ, env, n - 1);
  }

  ghost predicate ReachesUnfit(p: Package, derivable: set<string>, enum: string, t: Text) {
    exists u, n: nat :: Leads(p, enum, t, u, n) && !FitIn(p, derivable, enum, u)
  }

  lemma UnfitFurther(p: Package, derivable: set<string>, enum: string, t: Text, w: string, i: nat)
    requires Enters(p, enum, t, w) && i < |p.structs[w]| && ReachesUnfit(p, derivable, enum, p.structs[w][i].typ)
    ensures ReachesUnfit(p, derivable, enum, t)
  {
    var u, n: nat :| Leads(p, enum, p.structs[w][i].typ, u, n) && !FitIn(p, derivable, enum, u);
    assert Leads(p, enum, t, u, n + 1);
  }

  lemma {:induction false} MeetsLeads(p: Package, derivable: set<string>, enum: string, t: Text, n: nat)
    requires MeetsUnfit(t, EnvOf(p, derivable, enum), n)
    ensures ReachesUnfit(p, derivable, enum, t)
    decreases n
  {
    var env := EnvOf(p, derivable, enum);
    if ShapeOf(t, env) == Unfit {
      ShapeFit(p, derivable, enum, t);
      assert Leads(p, enum, t, t, 0);
    } else {
      var w, i := UnfitBelow(t, env, n);
      ShapeEnters(p, derivable, enum, t, w);
      MeetsLeads(p, derivable, enum, p.structs[w][i].typ, n - 1);
      UnfitFurther(p, derivable, enum, t, w, i);
    }
  }

  lemma PassesExactly(p: Package, derivable: set<string>, enum: string)
    requires enum in p.candidates
    ensures PassesIn(p, derivable, enum) <==> AllReachedFit(p, derivable, enum)
  {
    var env, fields := EnvOf(p, derivable, enum), p.candidates[enum];
    forall i | 0 <= i < |fields| ensures Clean(fields[i], env) <==> NeverMeets(fields[i], env) {
      CleanExactly(fields[i], env);
    }
    if PassesIn(p, derivable, enum) {
      forall i, u, n: nat | 0 <= i < |fields| && Leads(p, enum, fields[i], u, n) ensures FitIn(p, derivable, enum, u) {
        if !FitIn(p, derivable, enum, u) {
          LeadsMeets(p, derivable, enum, fields[i], u, n);
          assert false;
        }
      }
    }
    if AllReachedFit(p, derivable, enum) {
      forall i, n: nat | 0 <= i < |fields| ensures !MeetsUnfit(fields[i], env, n) {
        if MeetsUnfit(fields[i], env, n) {
          MeetsLeads(p, derivable, enum, fields[i], n);
          assert false;
        }
      }
    }
  }

  /** The fixpoint's condition is the one on reached fields. */
  lemma ConsistentPlanned(p: Package, derivable: set<string>)
    ensures Consistent(p, derivable) <==> Planned(p, derivable)
  {
    forall enum | enum in derivable && enum in p.candidates
      ensures PassesIn(p, derivable, enum) <==> AllReachedFit(p, derivable, enum)
    {
      PassesExactly(p, derivable, enum);
    }
  }

  /** A candidate left out reaches, whichever consistent set is taken, a field unfit with respect to it. */
  lemma LeftOutReachesUnfit(p: Package, enum: string, derivable: set<string>)
    requires enum in p.candidates && Planned(p, derivable) && forall s | Planned(p, s) :: enum !in s
    ensures exists i, u, n: nat :: 0 <= i < |p.candidates[enum]| && Leads(p, enum, p.candidates[enum][i], u, n)
                                   && !FitIn(p, derivable, enum, u)
  {
    if AllReachedFit(p, derivable, enum) {
      var more := derivable + {enum};
      forall name | name in more ensures name in p.candidates && AllReachedFit(p, more, name) {
        FitMore(p, derivable, more, name);
      }
      assert Planned(p, more);
      assert false;
    }
  }

  lemma FitMore(p: Package, derivable: set<string>, more: set<string>, enum: string)
    requires derivable <= more && enum in p.candidates && AllReachedFit(p, derivable, enum)
    ensures AllReachedFit(p, more, enum)
  {
    forall i, u, n: nat | 0 <= i < |p.candidates[enum]| && Leads(p, enum, p.candidates[enum][i], u, n)
      ensures FitIn(p, more, enum, u)
    {
      assert FitIn(p, derivable, enum, u);
    }
  }

  /** Starts from all candidates and drops those that fail, in any order, until none does. */
  method PlanEquality(p: Package) returns (derivable: set<string>)
    ensures derivable <= p.candidates.Keys && Consistent(p, derivable) && Planned(p, derivable)
    ensures forall s | Planned(p, s) :: s <= derivable
    ensures forall name :: name in derivable <==> exists s :: Planned(p, s) && name in s
  {
    derivable := p.candidates.Keys;
    var changed := true;
    while changed
      invariant derivable <= p.candidates.Keys
      invariant forall s | Consistent(p, s) :: s <= derivable
      invariant !changed ==> Consistent(p, derivable)
      decreases |derivable|, if changed then 1 else 0
    {
      changed := false;
      ghost var before := derivable;
      var names := p.candidates.Keys;
      while names != {}
        invariant derivable <= before && names <= p.candidates.Keys
        invariant !changed ==> derivable == before
        invariant changed ==> |derivable| < |before|
        invariant forall s | Consistent(p, s) :: s <= derivable
        invariant !changed ==> forall name | name in derivable && name !in names :: PassesIn(p, derivable, name)
        decreases |names|
      {
        var name :| name in names;
        names := names - {name};
        if name in derivable {
          var ok := Check(p, derivable, name);
          if !ok {
            FailsAll(p, derivable, name);
            derivable := derivable - {name};
            changed := true;
          }
        }
      }
    }
    PlannedAll(p, derivable);
  }

  lemma PlannedAll(p: Package, derivable: set<string>)
    requires Consistent(p, derivable) && forall s | Consistent(p, s) :: s <= derivable
    ensures Planned(p, derivable) && forall s | Planned(p, s) :: s <= derivable
  {
    ConsistentPlanned(p, derivable);
    forall s | Planned(p, s) ensures s <= derivable {
      ConsistentPlanned(p, s);
    }
  }

  method Check(p: Package, derivable: set<string>, name: string) returns (ok: bool)
    requires name in p.candidates
    ensures ok <==> PassesIn(p, derivable, name)
  {
    var ws, rank := EnumWrappers(p.structs, name);
    var env := Env(name, ws, p.enums, derivable, p.structs);
    assert ws == EnvOf(p, derivable, name).wrappers;
    ok := EnumEqDerivable(p.candidates[name], env);
  }

  /** An enum that fails now is in no consistent set within. */
  lemma FailsAll(p: Package, derivable: set<string>, name: string)
    requires !PassesIn(p, derivable, name)
    ensures forall s | Consistent(p, s) && s <= derivable :: name !in s
  {
    forall s | Consistent(p, s) && s <= derivable ensures name !in s {
      if name in s {
        PassesMore(p, s, derivable, name);
        assert false;
      }
    }
  }
}
