/**
 * The structs a derived traversal of an enum descends through (enumWrappers
 * and emitChildStmts in internal/gen/traversalgen.go).
 */
module Wrappers {

  /** A field's type as written; Bad is any text mentioning a function, map or channel. */
  datatype Text = Named(name: string) | Slice(elem: Text) | Bad

  datatype Field = Field(name: string, typ: Text)

  /** The package's struct declarations. */
  type Decls = map<string, seq<Field>>

  /** The type with one slice prefix taken off. */
  function Base(t: Text): Text {
    if t.Slice? then t.elem else t
  }

  // ------------------------------------------------------------- meaning

  /** Struct `x` has a field of struct `y`, or of a slice of it. */
  predicate Edge(all: Decls, x: string, y: string) {
    x in all && exists i | 0 <= i < |all[x]| :: Base(all[x][i].typ) == Named(y)
  }

  /** Some field is of the enum or of a struct among `known`, or a slice of one. */
  predicate Feeds(all: Decls, enum: string, known: set<string>, x: string) {
    x in all && exists i | 0 <= i < |all[x]| ::
      var b := Base(all[x][i].typ); b == Named(enum) || (b.Named? && b.name in known)
  }

  ghost predicate Closed(all: Decls, enum: string, known: set<string>) {
    forall x | x in all && Feeds(all, enum, known, x) :: x in known
  }

  /** `x` reaches the enum through fields: it is in every closed set. */
  ghost predicate Reaches(all: Decls, enum: string, x: string) {
    forall known | Closed(all, enum, known) :: x in known
  }

  /** Structs that reach the enum, each with a field of another of them: a descent among them never ends. */
  ghost predicate Unending(all: Decls, enum: string, xs: set<string>) {
    && (forall x {:trigger Reaches(all, enum, x)} | x in xs :: Reaches(all, enum, x))
    && (forall x {:trigger Onward(all, xs, x)} | x in xs :: Onward(all, xs, x))
  }

  ghost predicate Onward(all: Decls, xs: set<string>, x: string) {
    exists y :: y in xs && Edge(all, x, y)
  }

  ghost predicate Endless(all: Decls, enum: string, x: string) {
    exists xs :: Unending(all, enum, xs) && x in xs
  }

  // ------------------------------------------------------ reaching the enum

  method Reach(all: Decls, enum: string) returns (reach: set<string>)
    ensures forall x :: x in reach <==> Reaches(all, enum, x)
    ensures reach <= all.Keys && Closed(all, enum, reach)
    ensures forall x | x in reach :: Feeds(all, enum, reach, x)
  {
    reach := {};
    var changed := true;
    while changed
      invariant reach <= all.Keys
      invariant forall x | x in reach :: Feeds(all, enum, reach, x)
      invariant forall known | Closed(all, enum, known) :: reach <= known
      invariant !changed ==> Closed(all, enum, reach)
      decreases |all.Keys - reach|, if changed then 1 else 0
    {
      changed := false;
      ghost var before := reach;
      var names := all.Keys;
      while names != {}
        invariant before <= reach <= all.Keys && names <= all.Keys
        invariant !changed ==> reach == before
        invariant changed ==> reach != before
        invariant forall x | x in reach :: Feeds(all, enum, reach, x)
        invariant forall known | Closed(all, enum, known) :: reach <= known
        invariant !changed ==> forall x | x in all && x !in names && Feeds(all, enum, reach, x) :: x in reach
        decreases |names|
      {
        var x :| x in names;
        names := names - {x};
        if x !in reach && Feeds(all, enum, reach, x) {
          FeedsMore(all, enum, reach, x);
          reach := reach + {x};
          changed := true;
        }
      }
      FewerLeft(all.Keys, before, reach);
    }
  }

  /** A closed set containing `reach` contains what `reach` feeds; and feeding only grows. */
  lemma FeedsMore(all: Decls, enum: string, reach: set<string>, x: string)
    requires x in all && Feeds(all, enum, reach, x)
    ensures forall known | Closed(all, enum, known) && reach <= known :: x in known
    ensures forall y | Feeds(all, enum, reach, y) :: Feeds(all, enum, reach + {x}, y)
  {
    forall known | Closed(all, enum, known) && reach <= known ensures x in known {
      assert Feeds(all, enum, known, x);
    }
  }

  lemma FewerLeft(whole: set<string>, a: set<string>, b: set<string>)
    requires a <= b <= whole
    ensures |whole - b| <= |whole - a|
    ensures a != b ==> |whole - b| < |whole - a|
  {
    assert |whole - a| == |whole - b| + |b - a| by {
      assert whole - a == (whole - b) + (b - a);
    }
  }

  // ------------------------------------------------------- the cycle filter

  /** Fields of ranked structs lead, within `reach`, to structs of lower rank. */
  ghost predicate Downward(all: Decls, reach: set<string>, rank: map<string, nat>) {
    forall x, y | x in rank && y in reach && Edge(all, x, y) :: y in rank && rank[y] < rank[x]
  }

  /** The coloured depth-first search: grey structs are on the stack, black ones finished. */
  class Search {
    const all: Decls
    const reach: set<string>
    var grey: set<string>
    var black: set<string>
    var cyclic: set<string>
    /** Finished structs off every cycle, in an order their fields go down in. */
    ghost var rank: map<string, nat>
    ghost var next: nat

    ghost predicate Valid()
      reads this
    {
      && reach <= all.Keys
      && grey <= reach && black <= reach && grey !! black && cyclic <= black
      && rank.Keys == black - cyclic
      && (forall x | x in rank :: rank[x] < next)
      && Downward(all, reach, rank)
      && (forall x | x in cyclic :: Stays(x))
    }

    /** A field leads back into the stack or to a struct known to lead to a cycle. */
    ghost predicate Stays(x: string)
      reads this
    {
      Onward(all, cyclic + grey, x)
    }

    constructor (all: Decls, reach: set<string>)
      requires reach <= all.Keys
      ensures Valid() && this.all == all && this.reach == reach && grey == {} && black == {}
    {
      this.all, this.reach := all, reach;
      grey, black, cyclic := {}, {}, {};
      rank, next := map[], 0;
    }

    ghost function Unseen(): set<string>
      reads this
    {
      reach - grey - black
    }

    /** Answers whether the struct is on the stack or leads to a cycle. */
    method Visit(x: string) returns (on: bool)
      requires Valid() && x in reach
      modifies this
      ensures Valid() && grey == old(grey) && old(black) <= black
      ensures forall y | y in old(black) :: y in cyclic <==> y in old(cyclic)
      ensures x in black + grey && (on <==> x in cyclic + grey)
      ensures cyclic != old(cyclic) ==> on
      decreases Unseen(), 0
    {
      if x in grey {
        return true;
      }
      if x in black {
        return x in cyclic;
      }
      assert x in Unseen();
      grey := grey + {x};
      assert x !in Unseen() && Unseen() <= old(Unseen());
      on := VisitFields(x);
      Finish(x, on, old(grey), old(cyclic));
    }

    method VisitFields(x: string) returns (on: bool)
      requires Valid() && x in grey
      modifies this
      ensures Valid() && grey == old(grey) && old(black) <= black
      ensures forall y | y in old(black) :: y in cyclic <==> y in old(cyclic)
      ensures if on then Stays(x) else cyclic == old(cyclic) && Finished(all[x])
      decreases Unseen(), 1
    {
      on := false;
      ghost var hit := x;
      var i := 0;
      while i < |all[x]|
        invariant 0 <= i <= |all[x]| && Valid() && grey == old(grey) && old(black) <= black
        invariant forall y | y in old(black) :: y in cyclic <==> y in old(cyclic)
        invariant on ==> hit in cyclic + grey && Edge(all, x, hit)
        invariant !on ==> cyclic == old(cyclic)
        invariant !on ==> Finished(all[x][..i])
      {
        var b := Base(all[x][i].typ);
        if b.Named? && b.name in reach {
          assert Unseen() <= old(Unseen());
          var back := Visit(b.name);
          if back {
            assert Edge(all, x, b.name);
            hit := b.name;
            on := true;
          }
        }
        i := i + 1;
      }
      assert all[x][..|all[x]|] == all[x];
    }

    /** Takes a struct off the stack, on a cycle's way or not. */
    method Finish(x: string, on: bool, ghost below: set<string>, ghost known: set<string>)
      requires Valid() && x in grey && below == grey - {x}
      requires if on then Stays(x) else cyclic == known && Finished(all[x])
      requires forall y | y in known :: Onward(all, known + below, y)
      modifies this
      ensures Valid() && grey == below && black == old(black) + {x}
      ensures cyclic == old(cyclic) + if on then {x} else {}
    {
      grey := grey - {x};
      black := black + {x};
      if on {
        cyclic := cyclic + {x};
      } else {
        rank := rank[x := next];
        next := next + 1;
      }
    }

    /** Visits every reaching struct, in any order. */
    method VisitAll()
      requires Valid() && grey == {}
      modifies this
      ensures Valid() && grey == {} && black == reach
    {
      var names := reach;
      while names != {}
        invariant Valid() && grey == {} && names <= reach && reach - names <= black
        decreases |names|
      {
        var x :| x in names;
        names := names - {x};
        var on := Visit(x);
      }
    }

    /** Every field among the reaching structs leads to one off every cycle. */
    ghost predicate Finished(fields: seq<Field>)
      reads this
    {
      forall i | 0 <= i < |fields| :: var b := Base(fields[i].typ); b.Named? && b.name in reach ==> b.name in rank
    }
  }

  /** Ranks that go down along the edges of `ws`. */
  ghost predicate Ranked(all: Decls, ws: set<string>, rank: map<string, nat>) {
    && ws <= rank.Keys
    && forall x, y | x in ws && y in ws && Edge(all, x, y) :: rank[y] < rank[x]
  }

  /** No unending descent passes a ranked struct. */
  lemma {:induction false} RankedEnds(
      all: Decls, enum: string, reach: set<string>, rank: map<string, nat>, xs: set<string>, x: string)
    requires Downward(all, reach, rank) && xs <= reach
    requires Unending(all, enum, xs) && x in xs && x in rank
    ensures false
    decreases rank[x]
  {
    assert Onward(all, xs, x);
    var y :| y in xs && Edge(all, x, y);
    RankedEnds(all, enum, reach, rank, xs, y);
  }

  lemma FilterExact(all: Decls, enum: string, reach: set<string>, cyclic: set<string>, rank: map<string, nat>)
    requires forall x :: x in reach <==> Reaches(all, enum, x)
    requires Downward(all, reach, rank) && rank.Keys == reach - cyclic && cyclic <= reach
    requires forall x | x in cyclic :: Onward(all, cyclic, x)
    ensures forall x :: x in reach - cyclic <==> Kept(all, enum, x)
  {
    assert Unending(all, enum, cyclic);
    forall x | x in rank ensures !Endless(all, enum, x) {
      if Endless(all, enum, x) {
        var xs :| Unending(all, enum, xs) && x in xs;
        RankedEnds(all, enum, reach, rank, xs, x);
      }
    }
  }

  /** Struct `x` can be kept: it reaches the enum and every descent from it ends. */
  ghost predicate Kept(all: Decls, enum: string, x: string) {
    Reaches(all, enum, x) && !Endless(all, enum, x)
  }

  /**
   * The wrappers of an enum. Names are visited in any order; the answer is the
   * same: exactly the structs that reach the enum and from which no descent
   * among such structs is unending.
   */
  method EnumWrappers(all: Decls, enum: string) returns (ws: set<string>, ghost rank: map<string, nat>)
    ensures forall x :: x in ws <==> Kept(all, enum, x)
    ensures ws <= all.Keys && Ranked(all, ws, rank)
    ensures forall x | x in ws :: Feeds(all, enum, ws, x)
  {
    var reach := Reach(all, enum);
    var search := new Search(all, reach);
    search.VisitAll();
    rank := search.rank;
    assert search.cyclic + search.grey == search.cyclic;
    FilterExact(all, enum, reach, search.cyclic, rank);
    ws := Prune(all, enum, reach, search.cyclic, rank);
  }

  /** Drops the structs leading to a cycle; the others still feed from one another. */
  method Prune(all: Decls, enum: string, reach: set<string>, cyclic: set<string>, ghost rank: map<string, nat>)
    returns (ws: set<string>)
    requires reach <= all.Keys && cyclic <= reach
    requires forall x | x in reach :: Feeds(all, enum, reach, x)
    requires forall x, y | x in reach - cyclic && y in reach && Edge(all, x, y) :: y !in cyclic
    ensures ws == reach - cyclic
    ensures forall x | x in ws :: Feeds(all, enum, ws, x)
  {
    ws := reach;
    var changed := true;
    while changed
      invariant reach - cyclic <= ws <= reach
      invariant !changed ==> ws == reach - cyclic
      decreases |ws|, if changed then 1 else 0
    {
      changed := false;
      ghost var before := ws;
      var names := ws;
      while names != {}
        invariant reach - cyclic <= ws <= before && names <= ws
        invariant !changed ==> ws == before
        invariant changed ==> |ws| < |before|
        invariant forall x | x in ws && x !in names :: x !in cyclic
        decreases |names|
      {
        var x :| x in names;
        names := names - {x};
        if x in cyclic {
          ws := ws - {x};
          changed := true;
        } else {
          StillFeeds(all, enum, reach, cyclic, ws, x);
          if !Feeds(all, enum, ws - cyclic, x) {
            ws := ws - {x};
            changed := true;
          }
        }
      }
    }
    forall x | x in ws ensures Feeds(all, enum, ws, x) {
      StillFeeds(all, enum, reach, cyclic, ws, x);
      assert ws - cyclic == ws;
    }
  }

  lemma StillFeeds(all: Decls, enum: string, reach: set<string>, cyclic: set<string>, ws: set<string>, x: string)
    requires reach - cyclic <= ws && x in reach - cyclic && Feeds(all, enum, reach, x)
    requires forall y | y in reach && Edge(all, x, y) :: y !in cyclic
    ensures Feeds(all, enum, ws - cyclic, x)
  {
    var i :| 0 <= i < |all[x]| && var b := Base(all[x][i].typ); b == Named(enum) || (b.Named? && b.name in reach);
    var b := Base(all[x][i].typ);
    if b != Named(enum) {
      assert Edge(all, x, b.name);
    }
  }

  // ------------------------------------------------------------- descent

  /** A path of field names leads from struct `x` through structs of `all` to the enum. */
  ghost predicate Leads(all: Decls, enum: string, x: string, path: seq<string>)
    decreases |path|
  {
    x in all && LeadsFrom(all, enum, all[x], path)
  }

  ghost predicate LeadsFrom(all: Decls, enum: string, fields: seq<Field>, path: seq<string>)
    decreases |path|, 0
  {
    path != [] && exists i | 0 <= i < |fields| :: LeadsBy(all, enum, fields[i], path)
  }

  ghost predicate LeadsBy(all: Decls, enum: string, f: Field, path: seq<string>)
    requires path != []
    decreases |path|, -1
  {
    f.name == path[0] &&
    if Base(f.typ) == Named(enum) then |path| == 1
    else Base(f.typ).Named? && Leads(all, enum, Base(f.typ).name, path[1..])
  }

  function Under(name: string, paths: seq<seq<string>>): (r: seq<seq<string>>)
    ensures forall p :: p in r <==> p != [] && p[0] == name && p[1..] in paths
  {
    if paths == [] then [] else
      assert forall p: seq<string> | p != [] && p[0] == name && p[1..] == paths[0] :: p == [name] + paths[0];
      [[name] + paths[0]] + Under(name, paths[1..])
  }

  /** The fields of the enum that emitted code visits below `fields`, by their paths. */
  function ChildPaths(
      all: Decls, enum: string, ws: set<string>, fields: seq<Field>, ghost rank: map<string, nat>, ghost limit: nat)
      : seq<seq<string>>
    requires ws <= all.Keys && Ranked(all, ws, rank)
    requires forall i | 0 <= i < |fields| :: Below(fields[i], ws, rank, limit)
    decreases limit, |fields|
  {
    if fields == [] then [] else
      FieldPaths(all, enum, ws, fields[0], rank, limit) + ChildPaths(all, enum, ws, fields[1..], rank, limit)
  }

  ghost predicate Below(f: Field, ws: set<string>, rank: map<string, nat>, limit: nat)
    requires ws <= rank.Keys
  {
    var b := Base(f.typ);
    b.Named? && b.name in ws ==> rank[b.name] < limit
  }

  function FieldPaths(
      all: Decls, enum: string, ws: set<string>, f: Field, ghost rank: map<string, nat>, ghost limit: nat)
      : seq<seq<string>>
    requires ws <= all.Keys && Ranked(all, ws, rank) && Below(f, ws, rank, limit)
    decreases limit, 0
  {
    var b := Base(f.typ);
    if b == Named(enum) then [[f.name]]
    else if b.Named? && b.name in ws then
      FieldsRanked(all, ws, b.name, rank);
      Under(f.name, ChildPaths(all, enum, ws, all[b.name], rank, rank[b.name]))
    else []
  }

  lemma FieldsRanked(all: Decls, ws: set<string>, x: string, rank: map<string, nat>)
    requires ws <= all.Keys && Ranked(all, ws, rank) && x in ws
    ensures forall i | 0 <= i < |all[x]| :: Below(all[x][i], ws, rank, rank[x])
  {
    forall i | 0 <= i < |all[x]| ensures Below(all[x][i], ws, rank, rank[x]) {
      var b := Base(all[x][i].typ);
      if b.Named? && b.name in ws {
        assert Edge(all, x, b.name);
      }
    }
  }

  /** Fields whose structs are kept whenever they reach the enum. */
  ghost predicate Covered(all: Decls, enum: string, fields: seq<Field>) {
    forall i | 0 <= i < |fields| :: CoveredField(all, enum, fields[i])
  }

  ghost predicate CoveredField(all: Decls, enum: string, f: Field) {
    var b := Base(f.typ);
    b.Named? && b != Named(enum) && Reaches(all, enum, b.name) ==> Kept(all, enum, b.name)
  }

  ghost predicate KeptSet(all: Decls, enum: string, ws: set<string>) {
    forall x :: x in ws <==> Kept(all, enum, x)
  }

  lemma OnwardMore(all: Decls, xs: set<string>, more: set<string>, x: string)
    requires Onward(all, xs, x) && xs <= more
    ensures Onward(all, more, x)
  {
  }

  lemma UnendingMore(all: Decls, enum: string, ys: set<string>, x: string)
    requires Unending(all, enum, ys) && Reaches(all, enum, x) && Onward(all, ys, x)
    ensures Unending(all, enum, ys + {x})
  {
    forall z | z in ys + {x} ensures Reaches(all, enum, z) && Onward(all, ys + {x}, z) {
      OnwardMore(all, ys, ys + {x}, z);
    }
  }

  lemma EndlessAbove(all: Decls, enum: string, x: string, y: string)
    requires Reaches(all, enum, x) && Edge(all, x, y) && Endless(all, enum, y)
    ensures Endless(all, enum, x)
  {
    var ys :| Unending(all, enum, ys) && y in ys;
    assert Onward(all, ys, x);
    UnendingMore(all, enum, ys, x);
  }

  /** Struct fields of a kept struct are kept: a descent through them that never ended would start above. */
  lemma KeptCovered(all: Decls, enum: string, x: string)
    requires x in all && Kept(all, enum, x)
    ensures Covered(all, enum, all[x])
  {
    forall i | 0 <= i < |all[x]| && Base(all[x][i].typ).Named? && Endless(all, enum, Base(all[x][i].typ).name)
      ensures false
    {
      var y := Base(all[x][i].typ).name;
      assert Edge(all, x, y);
      EndlessAbove(all, enum, x, y);
    }
  }

  lemma {:induction false} LeadsReaches(all: Decls, enum: string, x: string, path: seq<string>)
    requires Leads(all, enum, x, path)
    ensures Reaches(all, enum, x)
    decreases |path|
  {
    var i :| 0 <= i < |all[x]| && LeadsBy(all, enum, all[x][i], path);
    var b := Base(all[x][i].typ);
    if b != Named(enum) {
      LeadsReaches(all, enum, b.name, path[1..]);
    }
    forall known | Closed(all, enum, known) ensures x in known {
      assert Feeds(all, enum, known, x);
    }
  }

  /** A struct that reaches the enum has a path to it. */
  lemma ReachesLeads(all: Decls, enum: string, x: string)
    requires Reaches(all, enum, x)
    ensures exists path :: Leads(all, enum, x, path)
  {
    var known := set y | y in all && exists path :: Leads(all, enum, y, path);
    forall y | y in all && Feeds(all, enum, known, y) ensures y in known {
      var i :| 0 <= i < |all[y]| && var b := Base(all[y][i].typ); b == Named(enum) || (b.Named? && b.name in known);
      var f := all[y][i];
      if Base(f.typ) == Named(enum) {
        assert LeadsBy(all, enum, f, [f.name]);
        assert Leads(all, enum, y, [f.name]);
      } else {
        var rest :| Leads(all, enum, Base(f.typ).name, rest);
        var path := [f.name] + rest;
        assert path[1..] == rest;
        assert LeadsBy(all, enum, f, path);
        assert Leads(all, enum, y, path);
      }
    }
    assert Closed(all, enum, known);
  }

  /** What the first field contributes. */
  lemma LeadsFromSplit(all: Decls, enum: string, fields: seq<Field>, path: seq<string>)
    requires fields != [] && path != []
    ensures LeadsFrom(all, enum, fields, path)
        <==> LeadsBy(all, enum, fields[0], path) || LeadsFrom(all, enum, fields[1..], path)
  {
    if LeadsFrom(all, enum, fields[1..], path) {
      var i :| 0 <= i < |fields[1..]| && LeadsBy(all, enum, fields[1..][i], path);
      assert LeadsBy(all, enum, fields[i + 1], path);
    }
    if LeadsFrom(all, enum, fields, path) && !LeadsBy(all, enum, fields[0], path) {
      var i :| 0 <= i < |fields| && LeadsBy(all, enum, fields[i], path);
      assert LeadsBy(all, enum, fields[1..][i - 1], path);
    }
  }

  /** Emitted code visits exactly the enum fields below, when every struct it meets first is kept. */
  lemma {:induction false} ChildPathsExact(
      all: Decls, enum: string, ws: set<string>, fields: seq<Field>, rank: map<string, nat>, limit: nat,
      path: seq<string>)
    requires ws <= all.Keys && Ranked(all, ws, rank) && KeptSet(all, enum, ws) && Covered(all, enum, fields)
    requires forall i | 0 <= i < |fields| :: Below(fields[i], ws, rank, limit)
    ensures path in ChildPaths(all, enum, ws, fields, rank, limit) <==> LeadsFrom(all, enum, fields, path)
    decreases limit, |fields|
  {
    if fields != [] {
      assert fields[0] == fields[..1][0];
      assert Covered(all, enum, fields[1..]);
      ChildPathsExact(all, enum, ws, fields[1..], rank, limit, path);
      FieldPathsExact(all, enum, ws, fields[0], rank, limit, path);
      if path != [] {
        LeadsFromSplit(all, enum, fields, path);
      }
    }
  }

  lemma {:induction false} FieldPathsExact(
      all: Decls, enum: string, ws: set<string>, f: Field, rank: map<string, nat>, limit: nat, path: seq<string>)
    requires ws <= all.Keys && Ranked(all, ws, rank) && KeptSet(all, enum, ws) && CoveredField(all, enum, f)
    requires Below(f, ws, rank, limit)
    ensures path in FieldPaths(all, enum, ws, f, rank, limit) <==> path != [] && LeadsBy(all, enum, f, path)
    decreases limit, 0
  {
    var b := Base(f.typ);
    if b == Named(enum) {
      if path != [] && LeadsBy(all, enum, f, path) {
        assert path == [f.name];
      }
    } else if b.Named? && path != [] {
      if b.name in ws {
        FieldsRanked(all, ws, b.name, rank);
        KeptCovered(all, enum, b.name);
        ChildPathsExact(all, enum, ws, all[b.name], rank, rank[b.name], path[1..]);
      } else if Leads(all, enum, b.name, path[1..]) {
        LeadsReaches(all, enum, b.name, path[1..]);
        assert false;
      }
    }
  }

  predicate DistinctNames(fields: seq<Field>) {
    forall i, j | 0 <= i < j < |fields| :: fields[i].name != fields[j].name
  }

  /** A path visited by emitted code starts at the field it is emitted for. */
  lemma {:induction false} PathsOfField(
      all: Decls, enum: string, ws: set<string>, fields: seq<Field>, rank: map<string, nat>, limit: nat,
      path: seq<string>)
    requires ws <= all.Keys && Ranked(all, ws, rank)
    requires forall i | 0 <= i < |fields| :: Below(fields[i], ws, rank, limit)
    requires path in ChildPaths(all, enum, ws, fields, rank, limit)
    ensures path != [] && exists i | 0 <= i < |fields| ::
              fields[i].name == path[0] && path in FieldPaths(all, enum, ws, fields[i], rank, limit)
    decreases |fields|
  {
    if path in FieldPaths(all, enum, ws, fields[0], rank, limit) {
    } else {
      PathsOfField(all, enum, ws, fields[1..], rank, limit, path);
      var i :| 0 <= i < |fields[1..]| && fields[1..][i].name == path[0]
          && path in FieldPaths(all, enum, ws, fields[1..][i], rank, limit);
      assert fields[i + 1] == fields[1..][i];
    }
  }

  /** Emitted code visits exactly the enum fields below. */
  ghost predicate NothingMissed(
      all: Decls, enum: string, ws: set<string>, fields: seq<Field>, rank: map<string, nat>, limit: nat)
    requires ws <= all.Keys && Ranked(all, ws, rank)
    requires forall i | 0 <= i < |fields| :: Below(fields[i], ws, rank, limit)
  {
    forall path ::
      path in ChildPaths(all, enum, ws, fields, rank, limit) <==> LeadsFrom(all, enum, fields, path)
  }

  /** No field is missed exactly when none has a struct that reaches the enum and was dropped. */
  lemma NothingMissedExactly(
      all: Decls, enum: string, ws: set<string>, fields: seq<Field>, rank: map<string, nat>, limit: nat)
    requires ws <= all.Keys && Ranked(all, ws, rank) && KeptSet(all, enum, ws) && DistinctNames(fields)
    requires forall i | 0 <= i < |fields| :: Below(fields[i], ws, rank, limit)
    ensures NothingMissed(all, enum, ws, fields, rank, limit) <==> Covered(all, enum, fields)
  {
    if Covered(all, enum, fields) {
      forall path
        ensures path in ChildPaths(all, enum, ws, fields, rank, limit) <==> LeadsFrom(all, enum, fields, path)
      {
        ChildPathsExact(all, enum, ws, fields, rank, limit, path);
      }
    } else {
      var i :| 0 <= i < |fields| && !CoveredField(all, enum, fields[i]);
      var f := fields[i];
      ReachesLeads(all, enum, Base(f.typ).name);
      var rest :| Leads(all, enum, Base(f.typ).name, rest);
      var path := [f.name] + rest;
      assert path[1..] == rest;
      assert LeadsBy(all, enum, f, path);
      assert LeadsFrom(all, enum, fields, path);
      if path in ChildPaths(all, enum, ws, fields, rank, limit) {
        PathsOfField(all, enum, ws, fields, rank, limit, path);
        assert false;
      }
    }
  }

  ghost predicate Sample(all: Decls) {
    && all.Keys == {"A", "B"}
    && all["A"] == [Field("e", Named("E")), Field("b", Named("B"))]
    && all["B"] == [Field("e", Named("E")), Field("next", Slice(Named("B")))]
  }

  /** Not as the code's comment says: a struct on no cycle is dropped for leading to one. */
  lemma CycleNeighbourDropped(all: Decls)
    requires Sample(all)
    ensures Reaches(all, "E", "A") && !Kept(all, "E", "A")
    ensures forall x | Edge(all, x, "A") :: x !in all
  {
    assert all["A"][0].typ == Named("E") && all["A"][1].typ == Named("B");
    assert all["B"][0].typ == Named("E") && all["B"][1].typ == Slice(Named("B"));
    SampleReaches(all);
    assert Edge(all, "B", "B") && Onward(all, {"B"}, "B");
    assert Unending(all, "E", {"B"});
    assert Edge(all, "A", "B");
    EndlessAbove(all, "E", "A", "B");
  }

  lemma SampleReaches(all: Decls)
    requires "A" in all && "B" in all && |all["A"]| > 0 && |all["B"]| > 0
    requires all["A"][0].typ == Named("E") && all["B"][0].typ == Named("E")
    ensures Reaches(all, "E", "A") && Reaches(all, "E", "B")
  {
    forall known | Closed(all, "E", known) ensures "A" in known && "B" in known {
      assert Base(all["A"][0].typ) == Named("E") && Base(all["B"][0].typ) == Named("E");
      assert Feeds(all, "E", known, "A") && Feeds(all, "E", known, "B");
    }
  }
}
