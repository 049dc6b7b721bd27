/** The hierarchy of zones and its validator.

A zone names its children; its parents are the zones that name it. Every time a zone is
stored, the validator walks down from it, with one set of visited zones for the whole walk,
and throws at a zone it meets twice or at one whose parents break the rules. A validation
that throws rolls the change back. */
module Zones {
  import opened PropertyTree

  type ZoneId = nat

  /** A type read from outside may be neither of the two known ones. */
  datatype ZoneType = Physical | Logical | Unknown

  datatype Zone = Zone(kind: ZoneType, children: seq<ZoneId>)

  type Graph = map<ZoneId, Zone>

  // ---- parents and the parent rule ----

  /** The places where physical zones name `z` as a child. */
  function PhysicalParents(g: Graph, z: ZoneId): set<(ZoneId, nat)> {
    set p, i: nat | p in g && g[p].kind == Physical && i < |g[p].children| && g[p].children[i] == z :: (p, i)
  }

  /** A known type; at most one physical parent; none for a logical zone. */
  predicate RuleOk(g: Graph, z: ZoneId) {
    && z in g
    && g[z].kind != Unknown
    && (g[z].kind == Physical ==> |PhysicalParents(g, z)| <= 1)
    && (g[z].kind == Logical ==> |PhysicalParents(g, z)| == 0)
  }

  /** `p` is a physical zone whose child number `i` is `z`. */
  predicate NamesPhysically(g: Graph, p: ZoneId, i: nat, z: ZoneId) {
    p in g && g[p].kind == Physical && i < |g[p].children| && g[p].children[i] == z
  }

  /** The rule without counting: a physical zone is named by physical zones in at most one place,
      a logical one in none. */
  lemma RuleMeaning(g: Graph, z: ZoneId)
    ensures RuleOk(g, z) <==>
            && z in g && g[z].kind != Unknown
            && (g[z].kind == Physical ==>
                  forall p, i, q, j | NamesPhysically(g, p, i, z) && NamesPhysically(g, q, j, z) :: p == q && i == j)
            && (g[z].kind == Logical ==> forall p, i :: !NamesPhysically(g, p, i, z))
  {
    var s := PhysicalParents(g, z);
    forall p: ZoneId, i: nat ensures NamesPhysically(g, p, i, z) <==> (p, i) in s {}
    AtMostOne(s);
    if |s| == 0 { assert s == {}; }
    if s != {} { assert exists e :: e in s; }
  }

  lemma AtMostOne<T(!new)>(s: set<T>)
    ensures |s| <= 1 <==> forall x, y | x in s && y in s :: x == y
  {
    if x :| x in s {
      var rest := s - {x};
      assert s == rest + {x};
      if |rest| > 0 { var y :| y in rest; }
      if |s| <= 1 { assert rest == {}; }
    }
  }

  // ---- walks ----

  /** Where a walk ends that starts at `z` and takes the given child at each zone. */
  function Walk(g: Graph, z: ZoneId, path: seq<nat>): Option<ZoneId>
    decreases path
  {
    if path == [] then Some(z)
    else if z in g && path[0] < |g[z].children| then Walk(g, g[z].children[path[0]], path[1..])
    else None
  }

  ghost predicate Reaches(g: Graph, z: ZoneId, y: ZoneId) {
    exists path :: Walk(g, z, path) == Some(y)
  }

  /** No zone is reached twice from `z`: what hangs below `z` is a tree. */
  ghost predicate IsTree(g: Graph, z: ZoneId) {
    forall p, q :: Walk(g, z, p).Some? && Walk(g, z, p) == Walk(g, z, q) ==> p == q
  }

  ghost predicate RulesBelow(g: Graph, z: ZoneId) {
    forall p :: Walk(g, z, p).Some? ==> RuleOk(g, Walk(g, z, p).value)
  }

  // ---- the validator, on values ----

  /** Visits `z` and what is below it. The result is the set of zones visited so far, or an
      error for a throw. */
  function Visit(g: Graph, z: ZoneId, seen: set<ZoneId>): (r: Result<set<ZoneId>>)
    ensures r.Ok? ==> seen + {z} <= r.value
    decreases g.Keys - seen, 1, 0
  {
    if z in seen || !RuleOk(g, z) then Err
    else VisitAll(g, g[z].children, seen + {z})
  }

  function VisitAll(g: Graph, zs: seq<ZoneId>, seen: set<ZoneId>): (r: Result<set<ZoneId>>)
    ensures r.Ok? ==> seen <= r.value
    decreases g.Keys - seen, 2, |zs|
  {
    if zs == [] then Ok(seen)
    else
      var r := VisitAll(g, zs[..|zs| - 1], seen);
      if r.Err? then Err
      else
        assert g.Keys - r.value <= g.Keys - seen;
        Visit(g, zs[|zs| - 1], r.value)
  }

  // ---- what the validator accepts ----

  /** From `z`: no zone twice, none of `seen`, and the rules hold. */
  ghost predicate Clean(g: Graph, z: ZoneId, seen: set<ZoneId>) {
    && IsTree(g, z)
    && forall y :: Reaches(g, z, y) ==> y !in seen && RuleOk(g, y)
  }

  ghost predicate ReachedFrom(g: Graph, zs: seq<ZoneId>, y: ZoneId) {
    exists i :: 0 <= i < |zs| && Reaches(g, zs[i], y)
  }

  ghost predicate CleanAll(g: Graph, zs: seq<ZoneId>, seen: set<ZoneId>) {
    && (forall i | 0 <= i < |zs| :: Clean(g, zs[i], seen))
    && (forall i, j, y | 0 <= i < j < |zs| :: !(Reaches(g, zs[i], y) && Reaches(g, zs[j], y)))
  }

  lemma WalkCons(g: Graph, z: ZoneId, i: nat, p: seq<nat>)
    requires z in g && i < |g[z].children|
    ensures Walk(g, z, [i] + p) == Walk(g, g[z].children[i], p)
  {
    assert ([i] + p)[1..] == p;
  }

  lemma ReachesSelf(g: Graph, z: ZoneId)
    ensures Reaches(g, z, z)
  {
    assert Walk(g, z, []) == Some(z);
  }

  /** A zone is reached from `z` if it is `z` or reached from one of the children. */
  lemma ReachesChildren(g: Graph, z: ZoneId, y: ZoneId)
    requires z in g
    ensures Reaches(g, z, y) <==> y == z || ReachedFrom(g, g[z].children, y)
  {
    ReachesSelf(g, z);
    if Reaches(g, z, y) && y != z {
      var p :| Walk(g, z, p) == Some(y);
      assert Walk(g, g[z].children[p[0]], p[1..]) == Some(y);
    }
    if ReachedFrom(g, g[z].children, y) {
      var i :| 0 <= i < |g[z].children| && Reaches(g, g[z].children[i], y);
      var p :| Walk(g, g[z].children[i], p) == Some(y);
      WalkCons(g, z, i, p);
    }
  }

  lemma CleanChildren(g: Graph, z: ZoneId, seen: set<ZoneId>)
    requires z in g && Clean(g, z, seen)
    ensures CleanAll(g, g[z].children, seen + {z})
  {
    var zs := g[z].children;
    forall i | 0 <= i < |zs| ensures Clean(g, zs[i], seen + {z}) {
      forall p, q | Walk(g, zs[i], p).Some? && Walk(g, zs[i], p) == Walk(g, zs[i], q) ensures p == q {
        WalkCons(g, z, i, p);
        WalkCons(g, z, i, q);
        assert ([i] + p)[1..] == ([i] + q)[1..];
      }
      forall y: ZoneId | Reaches(g, zs[i], y) ensures y !in seen + {z} && RuleOk(g, y) {
        var p :| Walk(g, zs[i], p) == Some(y);
        WalkCons(g, z, i, p);
        assert Reaches(g, z, y);
        assert Walk(g, z, []) == Some(z) && [i] + p != [];
      }
    }
    forall i, j, y: ZoneId | 0 <= i < j < |zs| ensures !(Reaches(g, zs[i], y) && Reaches(g, zs[j], y)) {
      forall p, q ensures !(Walk(g, zs[i], p) == Some(y) && Walk(g, zs[j], q) == Some(y)) {
        WalkCons(g, z, i, p);
        WalkCons(g, z, j, q);
        assert ([i] + p)[0] != ([j] + q)[0];
      }
    }
  }

  lemma CleanParent(g: Graph, z: ZoneId, seen: set<ZoneId>)
    requires z in g && z !in seen && RuleOk(g, z) && CleanAll(g, g[z].children, seen + {z})
    ensures Clean(g, z, seen)
  {
    var zs := g[z].children;
    forall p, q | Walk(g, z, p).Some? && Walk(g, z, p) == Walk(g, z, q) ensures p == q {
      UniqueBelow(g, z, seen, p, q);
    }
    forall y: ZoneId | Reaches(g, z, y) ensures y !in seen && RuleOk(g, y) {
      ReachesChildren(g, z, y);
    }
  }

  lemma UniqueBelow(g: Graph, z: ZoneId, seen: set<ZoneId>, p: seq<nat>, q: seq<nat>)
    requires z in g && CleanAll(g, g[z].children, seen + {z})
    requires Walk(g, z, p).Some? && Walk(g, z, p) == Walk(g, z, q)
    ensures p == q
  {
    var zs, y := g[z].children, Walk(g, z, p).value;
    if p != [] { assert Reaches(g, zs[p[0]], y); }
    if q != [] { assert Reaches(g, zs[q[0]], y); }
    if p != [] && q != [] {
      assert p[0] == q[0];
      assert IsTree(g, zs[p[0]]);
      assert p == [p[0]] + p[1..] && q == [q[0]] + q[1..];
    }
  }

  /** Visiting one more zone after a clean list. */
  lemma CleanOneMore(g: Graph, front: seq<ZoneId>, last: ZoneId, seen: set<ZoneId>, r: set<ZoneId>)
    requires CleanAll(g, front, seen)
    requires forall y :: y in r <==> y in seen || ReachedFrom(g, front, y)
    ensures CleanAll(g, front + [last], seen) <==> Clean(g, last, r)
  {
    var zs := front + [last];
    if CleanAll(g, zs, seen) {
      assert Clean(g, zs[|front|], seen);
      forall y: ZoneId | Reaches(g, last, y) ensures y !in r && RuleOk(g, y) {
        assert Reaches(g, zs[|front|], y);
        forall i | 0 <= i < |front| ensures !Reaches(g, front[i], y) { assert zs[i] == front[i]; }
      }
    }
    if Clean(g, last, r) {
      forall i | 0 <= i < |zs| ensures Clean(g, zs[i], seen) {
        if i < |front| { assert zs[i] == front[i]; }
      }
      forall i, j, y: ZoneId | 0 <= i < j < |zs| ensures !(Reaches(g, zs[i], y) && Reaches(g, zs[j], y)) {
        assert zs[i] == front[i];
        if j < |front| {
          assert zs[j] == front[j];
        } else if Reaches(g, front[i], y) {
          assert ReachedFrom(g, front, y);
        }
      }
    }
  }

  lemma {:induction false} VisitIff(g: Graph, z: ZoneId, seen: set<ZoneId>)
    ensures var r := Visit(g, z, seen);
            && (r.Ok? <==> Clean(g, z, seen))
            && (r.Ok? ==> forall y :: y in r.value <==> y in seen || Reaches(g, z, y))
    decreases g.Keys - seen, 1, 0
  {
    ReachesSelf(g, z);
    if z !in seen && RuleOk(g, z) {
      VisitAllIff(g, g[z].children, seen + {z});
      if Clean(g, z, seen) { CleanChildren(g, z, seen); }
      if CleanAll(g, g[z].children, seen + {z}) { CleanParent(g, z, seen); }
      forall y ensures Reaches(g, z, y) <==> y == z || ReachedFrom(g, g[z].children, y) {
        ReachesChildren(g, z, y);
      }
    }
  }

  lemma {:induction false} VisitAllIff(g: Graph, zs: seq<ZoneId>, seen: set<ZoneId>)
    ensures var r := VisitAll(g, zs, seen);
            && (r.Ok? <==> CleanAll(g, zs, seen))
            && (r.Ok? ==> forall y :: y in r.value <==> y in seen || ReachedFrom(g, zs, y))
    decreases g.Keys - seen, 2, |zs|
  {
    if zs != [] {
      var front, last := zs[..|zs| - 1], zs[|zs| - 1];
      assert zs == front + [last];
      VisitAllIff(g, front, seen);
      var r := VisitAll(g, front, seen);
      assert CleanAll(g, zs, seen) ==> CleanAll(g, front, seen) by {
        assert forall i | 0 <= i < |front| :: front[i] == zs[i];
      }
      if r.Ok? {
        assert g.Keys - r.value <= g.Keys - seen;
        VisitIff(g, last, r.value);
        CleanOneMore(g, front, last, seen, r.value);
        forall y ensures ReachedFrom(g, zs, y) <==> ReachedFrom(g, front, y) || Reaches(g, last, y) {
          ReachedOneMore(g, front, last, y);
        }
      }
    }
  }

  lemma ReachedOneMore(g: Graph, front: seq<ZoneId>, last: ZoneId, y: ZoneId)
    ensures ReachedFrom(g, front + [last], y) <==> ReachedFrom(g, front, y) || Reaches(g, last, y)
  {
    var zs := front + [last];
    if i :| 0 <= i < |front| && Reaches(g, front[i], y) { assert Reaches(g, zs[i], y); }
    if Reaches(g, last, y) { assert Reaches(g, zs[|front|], y); }
  }

  /** The validator terminates on every graph, cyclic ones included, and accepts exactly when
      what is below the zone is a tree and every zone of it meets the parent rule; the visited
      set is then exactly what is reached. */
  lemma ValidatorAcceptsTrees(g: Graph, z: ZoneId)
    ensures var r := Visit(g, z, {});
            && (r.Ok? <==> IsTree(g, z) && RulesBelow(g, z))
            && (r.Ok? ==> forall y :: y in r.value <==> Reaches(g, z, y))
  {
    VisitIff(g, z, {});
    if RulesBelow(g, z) {
      forall y: ZoneId | Reaches(g, z, y) ensures RuleOk(g, y) {
        var p :| Walk(g, z, p) == Some(y);
      }
    }
    if Clean(g, z, {}) {
      forall p | Walk(g, z, p).Some? ensures RuleOk(g, Walk(g, z, p).value) {
        assert Reaches(g, z, Walk(g, z, p).value);
      }
    }
  }

  // ---- the whole graph ----

  ghost predicate Acyclic(g: Graph) {
    forall z, p | z in g && p != [] :: Walk(g, z, p) != Some(z)
  }

  /** What must hold of all zones together: children exist, there is no cycle, and the parent
      rule holds everywhere. */
  ghost predicate GlobalRules(g: Graph) {
    && (forall z, i | z in g && 0 <= i < |g[z].children| :: g[z].children[i] in g)
    && Acyclic(g)
    && (forall z | z in g :: RuleOk(g, z))
  }

  datatype Op = Persist(id: ZoneId, zone: Zone) | Update(id: ZoneId, zone: Zone) | Remove(id: ZoneId)

  /** Storing a zone, or rolling back when its validation throws. */
  function Stored(g: Graph, z: ZoneId, zone: Zone): Graph {
    if Visit(g[z := zone], z, {}).Ok? then g[z := zone] else g
  }

  predicate Referenced(g: Graph, z: ZoneId) {
    exists p, i | p in g && 0 <= i < |g[p].children| :: p != z && g[p].children[i] == z
  }

  /** A new zone gets an unused id; an update needs an existing zone; a zone that another one
      still names cannot be removed. */
  function Apply(g: Graph, op: Op): Graph {
    match op
    case Persist(id, zone) => if id in g then g else Stored(g, id, zone)
    case Update(id, zone) => if id in g then Stored(g, id, zone) else g
    case Remove(id) => if id in g && !Referenced(g, id) then g - {id} else g
  }

  /** What each change does: a zone is stored exactly if it is new or already there, as asked for,
      and what is then below it is a tree that meets the parent rule; a zone is removed exactly if
      it is there and no other names it; nothing else changes, and anything refused changes nothing. */
  lemma ApplyMeaning(g: Graph, op: Op)
    ensures op.Persist? || op.Update? ==>
              var g' := g[op.id := op.zone];
              Apply(g, op) ==
              if (op.Update? <==> op.id in g) && IsTree(g', op.id) && RulesBelow(g', op.id) then g' else g
    ensures op.Remove? ==>
              Apply(g, op) ==
              if op.id in g
                && forall p, i | p in g && p != op.id && 0 <= i < |g[p].children| :: g[p].children[i] != op.id
              then map y | y in g && y != op.id :: g[y] else g
  {
    match op {
      case Persist(id, zone) => ValidatorAcceptsTrees(g[id := zone], id);
      case Update(id, zone) => ValidatorAcceptsTrees(g[id := zone], id);
      case Remove(id) => assert g - {id} == map y | y in g && y != id :: g[y];
    }
  }

  function ApplyAll(g: Graph, ops: seq<Op>): Graph {
    if ops == [] then g else Apply(ApplyAll(g, ops[..|ops| - 1]), ops[|ops| - 1])
  }

  lemma {:induction false} WalkConcat(g: Graph, z: ZoneId, p: seq<nat>, q: seq<nat>)
    requires Walk(g, z, p).Some?
    ensures Walk(g, z, p + q) == Walk(g, Walk(g, z, p).value, q)
    decreases p
  {
    if p == [] {
      assert p + q == q;
    } else {
      assert (p + q)[1..] == p[1..] + q;
      WalkConcat(g, g[z].children[p[0]], p[1..], q);
    }
  }

  lemma {:induction false} WalkPrefix(g: Graph, z: ZoneId, p: seq<nat>, k: nat)
    requires k <= |p| && Walk(g, z, p).Some?
    ensures Walk(g, z, p[..k]).Some? && Walk(g, Walk(g, z, p[..k]).value, p[k..]) == Walk(g, z, p)
    decreases p
  {
    if k == 0 {
      assert p[0..] == p;
    } else {
      assert p[..k][1..] == p[1..][..k - 1] && p[k..] == p[1..][k - 1..];
      WalkPrefix(g, g[z].children[p[0]], p[1..], k - 1);
    }
  }

  /** A walk that stays away from `z` is the same before and after `z` is stored. */
  lemma {:induction false} SameWalk(g: Graph, z: ZoneId, zone: Zone, a: ZoneId, p: seq<nat>)
    requires forall k | 0 <= k <= |p| :: Walk(g[z := zone], a, p[..k]) != Some(z)
    ensures Walk(g, a, p) == Walk(g[z := zone], a, p)
    decreases p
  {
    var g' := g[z := zone];
    assert Walk(g', a, p[..0]) == Some(a);
    if p != [] && a in g && p[0] < |g[a].children| {
      var c := g[a].children[p[0]];
      forall k | 0 <= k <= |p[1..]| ensures Walk(g', c, p[1..][..k]) != Some(z) {
        assert p[..k + 1][1..] == p[1..][..k];
        assert Walk(g', a, p[..k + 1]) == Walk(g', c, p[1..][..k]);
      }
      SameWalk(g, z, zone, c, p[1..]);
    }
  }

  /** A new cycle would pass through the stored zone, so the walk down from it meets it again. */
  lemma StoreKeepsAcyclic(g: Graph, z: ZoneId, zone: Zone)
    requires Acyclic(g) && IsTree(g[z := zone], z)
    ensures Acyclic(g[z := zone])
  {
    var g' := g[z := zone];
    forall a, p: seq<nat> | a in g' && p != [] ensures Walk(g', a, p) != Some(a) {
      if Walk(g', a, p).Some? {
        if k :| 0 <= k <= |p| && Walk(g', a, p[..k]) == Some(z) {
          WalkPrefix(g', a, p, k);
          WalkConcat(g', z, p[k..], p[..k]);
          assert Walk(g', z, []) == Some(z) && |p[k..] + p[..k]| == |p|;
        } else {
          assert p[..0] == [] && a != z;
          SameWalk(g, z, zone, a, p);
        }
      }
    }
  }

  /** A zone that is not below the stored one gains no parent. */
  lemma StoreKeepsRule(g: Graph, z: ZoneId, zone: Zone, y: ZoneId)
    requires y in g && RuleOk(g, y) && !Reaches(g[z := zone], z, y)
    ensures RuleOk(g[z := zone], y)
  {
    var g' := g[z := zone];
    ReachesSelf(g', z);
    forall i | 0 <= i < |zone.children| ensures zone.children[i] != y {
      ReachesSelf(g', zone.children[i]);
      ReachesChildren(g', z, zone.children[i]);
    }
    assert PhysicalParents(g', y) <= PhysicalParents(g, y);
    SubsetSize(PhysicalParents(g', y), PhysicalParents(g, y));
  }

  lemma {:induction false} SubsetSize<T>(a: set<T>, b: set<T>)
    requires a <= b
    ensures |a| <= |b|
    decreases a
  {
    if x :| x in a {
      SubsetSize(a - {x}, b - {x});
    }
  }

  lemma StoreKeepsGlobalRules(g: Graph, z: ZoneId, zone: Zone)
    requires GlobalRules(g)
    ensures GlobalRules(Stored(g, z, zone))
  {
    var g' := g[z := zone];
    VisitIff(g', z, {});
    if Clean(g', z, {}) {
      StoreKeepsAcyclic(g, z, zone);
      forall y | y in g' ensures RuleOk(g', y) {
        ReachesSelf(g', z);
        if !Reaches(g', z, y) { StoreKeepsRule(g, z, zone, y); }
      }
      forall y, i | y in g' && 0 <= i < |g'[y].children| ensures g'[y].children[i] in g' {
        if y == z {
          ReachesSelf(g', g'[z].children[i]);
          ReachesChildren(g', z, g'[z].children[i]);
        }
      }
    }
  }

  lemma {:induction false} RemoveKeepsWalks(g: Graph, z: ZoneId, a: ZoneId, p: seq<nat>)
    requires Walk(g - {z}, a, p).Some?
    ensures Walk(g, a, p) == Walk(g - {z}, a, p)
    decreases p
  {
    if p != [] {
      RemoveKeepsWalks(g, z, g[a].children[p[0]], p[1..]);
    }
  }

  lemma RemoveKeepsGlobalRules(g: Graph, z: ZoneId)
    requires GlobalRules(g) && !Referenced(g, z)
    ensures GlobalRules(g - {z})
  {
    var g' := g - {z};
    forall a, p: seq<nat> | a in g' && p != [] ensures Walk(g', a, p) != Some(a) {
      if Walk(g', a, p).Some? { RemoveKeepsWalks(g, z, a, p); }
    }
    forall y | y in g' ensures RuleOk(g', y) {
      assert PhysicalParents(g', y) <= PhysicalParents(g, y);
      SubsetSize(PhysicalParents(g', y), PhysicalParents(g, y));
    }
  }

  /** Although each validation looks only below the zone that is stored, every run of
      creations, updates and removals keeps the whole graph free of cycles, no logical zone
      has a physical parent and no physical zone has more than one. */
  lemma {:induction false} EveryRunKeepsGlobalRules(ops: seq<Op>)
    ensures GlobalRules(ApplyAll(map[], ops))
  {
    if ops != [] {
      var g, op := ApplyAll(map[], ops[..|ops| - 1]), ops[|ops| - 1];
      EveryRunKeepsGlobalRules(ops[..|ops| - 1]);
      match op {
        case Persist(id, zone) => StoreKeepsGlobalRules(g, id, zone);
        case Update(id, zone) => StoreKeepsGlobalRules(g, id, zone);
        case Remove(id) => if !Referenced(g, id) { RemoveKeepsGlobalRules(g, id); }
      }
    }
  }

  /** Zones of which each is a child of the one before. */
  predicate Chain(g: Graph, zs: seq<ZoneId>) {
    forall i | 0 <= i < |zs| - 1 :: zs[i] in g && zs[i + 1] in g[zs[i]].children
  }

  lemma {:induction false} ChainIsWalk(g: Graph, zs: seq<ZoneId>) returns (p: seq<nat>)
    requires zs != [] && Chain(g, zs)
    ensures |p| == |zs| - 1 && Walk(g, zs[0], p) == Some(zs[|zs| - 1])
  {
    if |zs| == 1 {
      p := [];
    } else {
      var rest := zs[1..];
      assert forall i | 0 <= i < |rest| :: rest[i] == zs[i + 1];
      var q := ChainIsWalk(g, rest);
      var i :| 0 <= i < |g[zs[0]].children| && g[zs[0]].children[i] == zs[1];
      p := [i] + q;
      WalkCons(g, zs[0], i, q);
    }
  }

  /** The rules as they are documented, after every run: no chain of children leads back to where
      it started, no logical zone is named by a physical one, and a physical zone is named by
      physical ones in at most one place. */
  lemma EveryRunIsSound(ops: seq<Op>)
    ensures var g := ApplyAll(map[], ops);
            && (forall zs | |zs| >= 2 && Chain(g, zs) :: zs[0] != zs[|zs| - 1])
            && (forall z, p, i | z in g && NamesPhysically(g, p, i, z) :: g[z].kind == Physical)
            && (forall z, p, i, q, j | z in g && NamesPhysically(g, p, i, z) && NamesPhysically(g, q, j, z) ::
                  p == q && i == j)
            && (forall z, i | z in g && 0 <= i < |g[z].children| :: g[z].children[i] in g)
  {
    var g := ApplyAll(map[], ops);
    EveryRunKeepsGlobalRules(ops);
    forall zs | |zs| >= 2 && Chain(g, zs) ensures zs[0] != zs[|zs| - 1] {
      var p := ChainIsWalk(g, zs);
      assert zs[0] in g;
    }
    forall z | z in g
      ensures g[z].kind != Unknown
      ensures g[z].kind == Logical ==> forall p, i :: !NamesPhysically(g, p, i, z)
      ensures g[z].kind == Physical ==>
                forall p, i, q, j | NamesPhysically(g, p, i, z) && NamesPhysically(g, q, j, z) :: p == q && i == j
    {
      RuleMeaning(g, z);
    }
  }

  /** In a graph that keeps all the rules, storing a zone again unchanged is accepted exactly
      when no zone below it is shared: the shared set of visited zones takes two ways to one
      zone for a cycle. */
  lemma UnchangedAcceptedIffTree(g: Graph, z: ZoneId)
    requires GlobalRules(g) && z in g
    ensures Visit(g, z, {}).Ok? <==> IsTree(g, z)
  {
    ValidatorAcceptsTrees(g, z);
    forall p | Walk(g, z, p).Some? ensures RuleOk(g, Walk(g, z, p).value) {
      WalkStaysIn(g, z, p);
    }
  }

  lemma {:induction false} WalkStaysIn(g: Graph, z: ZoneId, p: seq<nat>)
    requires GlobalRules(g) && z in g && Walk(g, z, p).Some?
    ensures Walk(g, z, p).value in g
    decreases p
  {
    if p != [] { WalkStaysIn(g, g[z].children[p[0]], p[1..]); }
  }

  /** A logical zone with the given children. */
  function Plain(children: seq<ZoneId>): Zone {
    Zone(Logical, children)
  }

  ghost predicate ReachedByChanges(g: Graph) {
    exists ops :: ApplyAll(map[], ops) == g
  }

  /** Each of these is the one before with one more change stored. */
  const FIRST: Graph := map[1 := Plain([])]
  const SECOND: Graph := map[1 := Plain([]), 2 := Plain([1])]
  const THIRD: Graph := map[1 := Plain([]), 2 := Plain([1]), 3 := Plain([])]
  const FOURTH: Graph := map[1 := Plain([]), 2 := Plain([1]), 3 := Plain([]), 4 := Plain([3, 2])]
  const SHARED: Graph := map[1 := Plain([]), 2 := Plain([1]), 3 := Plain([1]), 4 := Plain([3, 2])]

  /** Being a tree below is not kept: zone 4 names 3 and 2 and is accepted, then 3 is made to
      name 1, which 2 names already. That is accepted too, since the walk starts at 3, but from
      then on zone 4 is refused as it stands, although a zone may have several logical parents. */
  lemma SharedZoneBlocksItsAncestors()
    ensures ReachedByChanges(FOURTH) && Visit(FOURTH, 4, {}).Ok?
    ensures ReachedByChanges(SHARED) && GlobalRules(SHARED) && Visit(SHARED, 4, {}).Err?
  {
    SharedRun();
    var ops :| ApplyAll(map[], ops) == SHARED;
    EveryRunKeepsGlobalRules(ops);
    UnchangedAcceptedIffTree(SHARED, 4);
    assert Walk(SHARED, 4, [0, 0]) == Some(1) by {
      assert [0, 0][1..] == [0] && [0][1..] == [];
    }
    assert Walk(SHARED, 4, [1, 0]) == Some(1) by {
      assert [1, 0][1..] == [0] && [0][1..] == [];
    }
    assert [0, 0][0] != [1, 0][0];
  }

  lemma SharedRun()
    ensures ReachedByChanges(FOURTH) && Visit(FOURTH, 4, {}).Ok? && ReachedByChanges(SHARED)
  {
    assert ApplyAll(map[], []) == map[];
    StoreLeaf(map[], 1, FIRST);
    StoreChain(FIRST, 2, SECOND);
    StoreLeaf(SECOND, 3, THIRD);
    StorePair(THIRD, FOURTH);
    SharedStep();
  }

  lemma SharedStep()
    requires ReachedByChanges(FOURTH)
    ensures ReachedByChanges(SHARED)
  {
    StoreChain(FOURTH, 3, SHARED);
  }

  lemma StoreLeaf(g: Graph, z: ZoneId, g': Graph)
    requires ReachedByChanges(g) && AllLogical(g) && g' == g[z := Plain([])]
    ensures ReachedByChanges(g')
  {
    LeafAccepted(g', z);
    StoreStep(g, z, Plain([]), g');
  }

  lemma StoreChain(g: Graph, z: ZoneId, g': Graph)
    requires ReachedByChanges(g) && AllLogical(g) && g' == g[z := Plain([1])]
    requires z != 1 && 1 in g && g[1].children == []
    ensures ReachedByChanges(g')
  {
    ChainAccepted(g', z);
    StoreStep(g, z, Plain([1]), g');
  }

  lemma StorePair(g: Graph, g': Graph)
    requires ReachedByChanges(g)
    requires g == map[1 := Plain([]), 2 := Plain([1]), 3 := Plain([])] && g' == g[4 := Plain([3, 2])]
    ensures ReachedByChanges(g') && Visit(g', 4, {}).Ok?
  {
    PairAccepted(g');
    StoreStep(g, 4, Plain([3, 2]), g');
  }

  lemma StoreStep(g: Graph, z: ZoneId, zone: Zone, g': Graph)
    requires ReachedByChanges(g) && g' == g[z := zone] && Visit(g', z, {}).Ok?
    ensures ReachedByChanges(g')
  {
    var ops :| ApplyAll(map[], ops) == g;
    var op := if z in g then Update(z, zone) else Persist(z, zone);
    assert (ops + [op])[..|ops|] == ops;
    assert ApplyAll(map[], ops + [op]) == g';
  }

  ghost predicate AllLogical(g: Graph) {
    forall z | z in g :: g[z].kind == Logical
  }

  lemma LogicalRule(g: Graph, z: ZoneId)
    requires AllLogical(g) && z in g
    ensures RuleOk(g, z)
  {
    assert PhysicalParents(g, z) == {};
  }

  lemma LeafAccepted(g: Graph, z: ZoneId, seen: set<ZoneId> := {})
    requires AllLogical(g) && z in g && g[z].children == [] && z !in seen
    ensures Visit(g, z, seen) == Ok(seen + {z})
  {
    LogicalRule(g, z);
  }

  lemma ChainAccepted(g: Graph, z: ZoneId, seen: set<ZoneId> := {})
    requires AllLogical(g) && z in g && 1 in g && g[z].children == [1] && g[1].children == []
    requires z !in seen && 1 !in seen && z != 1
    ensures Visit(g, z, seen) == Ok(seen + {z} + {1})
  {
    LogicalRule(g, z);
    LeafAccepted(g, 1, seen + {z});
    assert [1][..0] == [];
    assert VisitAll(g, [1], seen + {z}) == Visit(g, 1, seen + {z});
  }

  lemma PairAccepted(g: Graph)
    requires g == map[1 := Plain([]), 2 := Plain([1]), 3 := Plain([]), 4 := Plain([3, 2])]
    ensures Visit(g, 4, {}).Ok?
  {
    LogicalRule(g, 4);
    LeafAccepted(g, 3, {4});
    ChainAccepted(g, 2, {4} + {3});
    assert [3, 2][..1] == [3] && [3][..0] == [];
    assert VisitAll(g, [3], {4}) == Visit(g, 3, {4});
    assert VisitAll(g, [3, 2], {4}) == Visit(g, 2, {4} + {3});
    assert {} + {4} == {4};
  }

  // ---- the code ----

  function Parents(g: Graph, z: ZoneId): set<(ZoneId, nat)> {
    set p, i: nat | p in g && i < |g[p].children| && g[p].children[i] == z :: (p, i)
  }

  method CountPhysicalParents(g: Graph, z: ZoneId) returns (count: nat)
    ensures count == |PhysicalParents(g, z)|
  {
    var parents := Parents(g, z);
    count := 0;
    ghost var done := {};
    while parents != {}
      invariant parents <= Parents(g, z)
      invariant done == PhysicalParents(g, z) - parents && count == |done|
    {
      var e :| e in parents;
      parents := parents - {e};
      if g[e.0].kind == Physical {
        count := count + 1;
        done := done + {e};
      }
    }
  }

  /** `zoneIds` is the set of visited zones; a throw is `ok == false`. */
  method Validate(g: Graph, z: ZoneId, zoneIds: set<ZoneId>) returns (ok: bool, visited: set<ZoneId>)
    ensures ok <==> Visit(g, z, zoneIds).Ok?
    ensures ok ==> visited == Visit(g, z, zoneIds).value
    decreases g.Keys - zoneIds
  {
    visited := zoneIds;
    if z in visited { return false, visited; }
    visited := visited + {z};
    if z !in g || g[z].kind == Unknown { return false, visited; }
    var count := CountPhysicalParents(g, z);
    if g[z].kind == Physical && count > 1 { return false, visited; }
    if g[z].kind == Logical && count != 0 { return false, visited; }
    var zs := g[z].children;
    for i := 0 to |zs|
      invariant VisitAll(g, zs[..i], zoneIds + {z}) == Ok(visited)
      invariant zoneIds + {z} <= visited
    {
      assert zs[..i + 1][..i] == zs[..i];
      assert g.Keys - visited < g.Keys - zoneIds by { assert z in g.Keys - zoneIds; }
      ok, visited := Validate(g, zs[i], visited);
      if !ok {
        VisitAllErr(g, zs, i + 1, zoneIds + {z});
        return;
      }
    }
    assert zs[..|zs|] == zs;
    ok := true;
  }

  lemma {:induction false} VisitAllErr(g: Graph, zs: seq<ZoneId>, i: nat, seen: set<ZoneId>)
    requires i <= |zs| && VisitAll(g, zs[..i], seen).Err?
    ensures VisitAll(g, zs, seen).Err?
    decreases |zs| - i
  {
    if i == |zs| {
      assert zs[..i] == zs;
    } else {
      assert zs[..i + 1][..i] == zs[..i];
      VisitAllErr(g, zs, i + 1, seen);
    }
  }

  /** The stored zones; a change that is not valid leaves them as they were. */
  class ZoneStore {
    var zones: Graph

    constructor ()
      ensures zones == map[] && GlobalRules(zones)
    {
      zones := map[];
    }

    method Store(z: ZoneId, zone: Zone) returns (ok: bool)
      requires GlobalRules(zones)
      modifies this
      ensures GlobalRules(zones) && zones == Stored(old(zones), z, zone)
      ensures zones == if ok then old(zones)[z := zone] else old(zones)
      ensures ok <==> IsTree(old(zones)[z := zone], z) && RulesBelow(old(zones)[z := zone], z)
    {
      var before := zones;
      StoreKeepsGlobalRules(zones, z, zone);
      zones := zones[z := zone];
      ValidatorAcceptsTrees(zones, z);
      var visited;
      ok, visited := Validate(zones, z, {});
      if !ok {
        zones := before;
      }
    }
  }
}
