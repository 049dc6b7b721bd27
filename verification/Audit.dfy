/** Audit entries. An entry may have a parent; the parent lists its children. Storing an entry
also stores its parent, and so on upwards. */
module Audit {
  import opened PropertyTree

  class AuditEntry {
    const id: nat
    var parent: AuditEntry?
    var children: seq<AuditEntry>
    var author: Option<nat>
    var duration: nat
    var finalized: bool
    var stored: nat          // how often the database row was written
    ghost var rank: nat      // higher than the parent's

    constructor (id: nat)
      ensures this.id == id && parent == null && children == [] && author == None
      ensures duration == 0 && !finalized && stored == 0
    {
      this.id, parent, children, author := id, null, [], None;
      duration, finalized, stored := 0, false, 0;
    }
  }

  /** Links mirror each other, and each child is listed once. */
  ghost predicate Mirrored(S: set<AuditEntry>)
    reads S`parent, S`children
  {
    && (forall e | e in S && e.parent != null :: e.parent in S && e in e.parent.children)
    && (forall e, i | e in S && 0 <= i < |e.children| :: e.children[i] in S && e.children[i].parent == e)
    && (forall e, i, j | e in S && 0 <= i < j < |e.children| :: e.children[i] != e.children[j])
  }

  /** Mirrored links, and ranks that rise from parent to child, so that the way up ends. */
  ghost predicate Forest(S: set<AuditEntry>)
    reads S`parent, S`children, S`rank
  {
    Mirrored(S) && forall e | e in S && e.parent != null :: e.parent.rank < e.rank
  }

  // ---- the way up ----

  ghost function LinksOf(S: set<AuditEntry>): map<AuditEntry, AuditEntry>
    reads S`parent
  {
    map e | e in S && e.parent != null :: e.parent
  }

  /** The entry `n` links above `e`, if the way up is that long. */
  function Climb(up: map<AuditEntry, AuditEntry>, e: AuditEntry, n: nat): Option<AuditEntry> {
    if n == 0 then Some(e) else if e in up then Climb(up, up[e], n - 1) else None
  }

  ghost predicate Ends(up: map<AuditEntry, AuditEntry>, e: AuditEntry) {
    exists n: nat :: Climb(up, e, n) == None
  }

  /** The update cascade ends, wherever it starts. */
  ghost predicate EveryClimbEnds(S: set<AuditEntry>)
    reads S`parent
  {
    forall e | e in S :: Ends(LinksOf(S), e)
  }

  lemma {:induction false} ForestClimbEnds(S: set<AuditEntry>, e: AuditEntry)
    requires Forest(S) && e in S
    ensures Ends(LinksOf(S), e)
    decreases e.rank
  {
    if e.parent == null {
      assert Climb(LinksOf(S), e, 1) == None;
    } else {
      ForestClimbEnds(S, e.parent);
      var n: nat :| Climb(LinksOf(S), e.parent, n) == None;
      assert Climb(LinksOf(S), e, n + 1) == None;
    }
  }

  lemma ForestClimbsEnd(S: set<AuditEntry>)
    requires Forest(S)
    ensures EveryClimbEnds(S)
  {
    forall e | e in S ensures Ends(LinksOf(S), e) { ForestClimbEnds(S, e); }
  }

  /** The entries above `e`, nearest first. */
  ghost function Ancestors(S: set<AuditEntry>, e: AuditEntry): (a: seq<AuditEntry>)
    requires Forest(S) && e in S
    ensures forall x | x in a :: x in S && x.rank < e.rank
    reads S`parent, S`children, S`rank
    decreases e.rank
  {
    if e.parent == null then [] else [e.parent as AuditEntry] + Ancestors(S, e.parent)
  }

  /** The entries above are those one meets on climbing, all of them and in order. */
  lemma {:induction false} AncestorsAreClimbs(S: set<AuditEntry>, e: AuditEntry, i: nat)
    requires Forest(S) && e in S && i <= |Ancestors(S, e)|
    ensures Climb(LinksOf(S), e, i + 1) == if i < |Ancestors(S, e)| then Some(Ancestors(S, e)[i]) else None
    decreases e.rank
  {
    if e.parent != null {
      if i == 0 {
        assert Climb(LinksOf(S), e.parent, 0) == Some(e.parent as AuditEntry);
      } else {
        AncestorsAreClimbs(S, e.parent, i - 1);
      }
    }
  }

  /** No entry is above itself, and none is met twice on the way up. */
  lemma {:induction false} AncestorsDistinct(S: set<AuditEntry>, e: AuditEntry)
    requires Forest(S) && e in S
    ensures e !in Ancestors(S, e)
    ensures forall i, j | 0 <= i < j < |Ancestors(S, e)| :: Ancestors(S, e)[i] != Ancestors(S, e)[j]
    decreases e.rank
  {
    if e.parent != null {
      AncestorsDistinct(S, e.parent);
    }
  }

  /** Writes the row of `e`; the callback then writes the parent's row, and so on: each entry
      above is written exactly once, no other is. */
  method Store(e: AuditEntry, ghost S: set<AuditEntry>)
    requires Forest(S) && e in S
    modifies S`stored
    ensures Forest(S) && Ancestors(S, e) == old(Ancestors(S, e))
    ensures forall x | x in S :: x.stored == old(x.stored) + if x == e || x in Ancestors(S, e) then 1 else 0
    decreases e.rank
  {
    AncestorsDistinct(S, e);
    e.stored := e.stored + 1;
    if e.parent != null {
      Store(e.parent, S);
    }
  }

  /** `e` is `x` or above it. */
  ghost predicate Below(S: set<AuditEntry>, e: AuditEntry, x: AuditEntry)
    requires Forest(S) && x in S
    reads S`parent, S`children, S`rank
  {
    x == e || e in Ancestors(S, x)
  }

  /** Sets both links, whatever was there before, and inherits the author. The result is again
      mirrored and free of endless climbs exactly if the entry had no parent and the new parent
      is not itself below the entry. */
  method SetParent(e: AuditEntry, parent: AuditEntry, ghost S: set<AuditEntry>)
    requires Forest(S) && e in S && parent in S
    modifies e`parent, e`author, parent`children, S`rank
    ensures e.parent == parent && parent.children == old(parent.children) + [e]
    ensures LinksOf(S) == old(LinksOf(S))[e := parent]
    ensures e.author == if old(e.author) == None then parent.author else old(e.author)
    ensures Mirrored(S) && EveryClimbEnds(S) <==> old(e.parent == null && !Below(S, e, parent))
    ensures old(e.parent == null && !Below(S, e, parent)) ==> Forest(S)
    ensures old(Below(S, e, parent)) ==> !Ends(LinksOf(S), e)
  {
    ghost var fits := e.parent == null && !Below(S, e, parent);
    Prepare(e, parent, S);
    Link(e, parent, S);
    if fits { ForestClimbsEnd(S); }
    if e.author == None {
      e.author := parent.author;
    }
  }

  /** Ranks that suit the new link, if there are any. */
  ghost method Prepare(e: AuditEntry, parent: AuditEntry, S: set<AuditEntry>)
    requires Forest(S) && e in S && parent in S
    modifies S`rank
    ensures Forest(S)
    ensures e.parent == null && !old(Below(S, e, parent)) ==> parent.rank < e.rank
    ensures old(Below(S, e, parent)) ==> !Ends(LinksOf(S)[e := parent], e)
  {
    if Below(S, e, parent) {
      CircleIsEndless(S, e, parent);
    } else if e.parent == null {
      LiftBelow(e, parent, S);
    }
  }

  /** Both links as the code sets them, with no look at what was there. */
  method Link(e: AuditEntry, parent: AuditEntry, ghost S: set<AuditEntry>)
    requires Mirrored(S) && e in S && parent in S
    modifies e`parent, parent`children
    ensures e.parent == parent && parent.children == old(parent.children) + [e]
    ensures LinksOf(S) == old(LinksOf(S))[e := parent]
    ensures Mirrored(S) <==> old(e.parent) == null
  {
    ghost var n, p := |parent.children|, e.parent;
    parent.children := parent.children + [e];
    PointUp(e, parent, S);
    if p == null {
      forall x, i | x in S && 0 <= i < |x.children| ensures x.children[i] in S && x.children[i].parent == x {
        if x != parent || i < n { assert x.children[i] == old(x.children)[i]; }
      }
      forall x, i, j | x in S && 0 <= i < j < |x.children| ensures x.children[i] != x.children[j] {
        assert x.children[i] == old(x.children)[i];
        if x != parent || j < n { assert x.children[j] == old(x.children)[j]; }
      }
      forall x | x in S && x.parent != null ensures x.parent in S && x in x.parent.children {
        if x != e && x.parent == parent { assert x in old(parent.children); }
      }
    } else {
      // the old parent keeps the entry among its children, or lists it twice
      var k :| 0 <= k < |old(p.children)| && old(p.children)[k] == e;
      assert p.children[k] == e;
      if p == parent { assert parent.children[k] == parent.children[n]; }
    }
  }

  method PointUp(e: AuditEntry, parent: AuditEntry, ghost S: set<AuditEntry>)
    requires e in S
    modifies e`parent
    ensures e.parent == parent && LinksOf(S) == old(LinksOf(S))[e := parent]
  {
    e.parent := parent;
  }

  /** Ranks `e` and what is below it above `parent`. */
  ghost method LiftBelow(e: AuditEntry, parent: AuditEntry, S: set<AuditEntry>)
    requires Forest(S) && e in S && parent in S && e.parent == null && !Below(S, e, parent)
    modifies S`rank
    ensures Forest(S) && parent.rank < e.rank
  {
    var moved := set x | x in S && Below(S, e, x);
    var lift := parent.rank + 1;
    assert forall x | x in S && x.parent != null :: x.parent in moved <==> x in moved;
    forall x | x in S {
      x.rank := if x in moved then x.rank + lift else x.rank;
    }
  }

  /** If the new parent is below the entry, the new link closes a circle: from anywhere below
      the entry, and however far one climbs, there is always another entry above. */
  lemma {:induction false} ParentBelowMakesCircle(S: set<AuditEntry>, e: AuditEntry, parent: AuditEntry,
                                                  x: AuditEntry, n: nat)
    requires Forest(S) && e in S && parent in S && x in S
    requires Below(S, e, parent) && Below(S, e, x)
    ensures Climb(LinksOf(S)[e := parent], x, n).Some?
    decreases n
  {
    if n > 0 {
      ParentBelowMakesCircle(S, e, parent, if x == e then parent else x.parent, n - 1);
    }
  }

  lemma CircleIsEndless(S: set<AuditEntry>, e: AuditEntry, parent: AuditEntry)
    requires Forest(S) && e in S && parent in S && Below(S, e, parent)
    ensures !Ends(LinksOf(S)[e := parent], e)
  {
    var up := LinksOf(S)[e := parent];
    forall n: nat ensures Climb(up, e, n).Some? {
      ParentBelowMakesCircle(S, e, parent, e, n);
    }
  }

  /** `children` without `e`. */
  function Without(children: seq<AuditEntry>, e: AuditEntry): (r: seq<AuditEntry>)
    ensures forall x | x in r :: x in children && x != e
    ensures forall x | x in children && x != e :: x in r
    ensures |r| <= |children|
  {
    if children == [] then []
    else
      assert children == [children[0]] + children[1..];
      if children[0] == e then Without(children[1..], e) else [children[0]] + Without(children[1..], e)
  }

  /** The others stay in order. */
  lemma {:induction false} WithoutParts(a: seq<AuditEntry>, b: seq<AuditEntry>, e: AuditEntry)
    ensures Without(a + b, e) == Without(a, e) + Without(b, e)
  {
    if a == [] {
      assert a + b == b;
    } else {
      assert (a + b)[1..] == a[1..] + b;
      WithoutParts(a[1..], b, e);
    }
  }

  lemma {:induction false} WithoutDistinct(children: seq<AuditEntry>, e: AuditEntry)
    requires forall i, j | 0 <= i < j < |children| :: children[i] != children[j]
    ensures forall i, j | 0 <= i < j < |Without(children, e)| :: Without(children, e)[i] != Without(children, e)[j]
  {
    if children != [] {
      var rest := children[1..];
      assert forall i | 0 <= i < |rest| :: rest[i] == children[i + 1];
      WithoutDistinct(rest, e);
      assert children[0] !in rest;
    }
  }

  method RemoveParent(e: AuditEntry, ghost S: set<AuditEntry>)
    requires Forest(S) && e in S
    modifies e`parent, if e.parent == null then {} else {e.parent}`children
    ensures Forest(S) && e.parent == null
    ensures old(e.parent) != null ==> old(e.parent).children == Without(old(e.parent.children), e)
  {
    var p := e.parent;
    if p == null { return; }
    WithoutDistinct(p.children, e);
    p.children := Without(p.children, e);
    e.parent := null;
    forall x, i | x in S && 0 <= i < |x.children| ensures x.children[i] in S && x.children[i].parent == x {
      var c := x.children[i];
      assert c in x.children && c in old(x.children);
      var k :| 0 <= k < |old(x.children)| && old(x.children)[k] == c;
    }
  }

  /** Adds the elapsed time and stores the entry, but only the first time. */
  method Finalize(e: AuditEntry, elapsed: nat, ghost S: set<AuditEntry>)
    requires Forest(S) && e in S
    modifies e`finalized, e`duration, S`stored
    ensures Forest(S) && e.finalized
    ensures e.duration == old(e.duration) + if old(e.finalized) then 0 else elapsed
    ensures forall x | x in S :: x.stored == old(x.stored) +
              if !old(e.finalized) && (x == e || x in old(Ancestors(S, e))) then 1 else 0
  {
    if e.finalized { return; }
    e.finalized := true;
    e.duration := e.duration + elapsed;
    Store(e, S);
  }

  lemma {:induction false} ChildlessIsNotAbove(S: set<AuditEntry>, e: AuditEntry, x: AuditEntry)
    requires Forest(S) && e in S && x in S && e.children == []
    ensures e !in Ancestors(S, x)
    decreases x.rank
  {
    if x.parent != null {
      ChildlessIsNotAbove(S, e, x.parent);
    }
  }

  /** A childless entry can be put under any other. */
  method SetParentOfNew(e: AuditEntry, parent: AuditEntry, ghost S: set<AuditEntry>)
    requires Forest(S) && e in S && parent in S && e != parent && e.parent == null && e.children == []
    modifies e`parent, e`author, parent`children, S`rank
    ensures Forest(S) && e.parent == parent && parent.children == old(parent.children) + [e]
  {
    ChildlessIsNotAbove(S, e, parent);
    SetParent(e, parent, S);
  }

  lemma ForestGrows(S: set<AuditEntry>, e: AuditEntry)
    requires Forest(S) && e !in S && e.parent == null && e.children == []
    ensures Forest(S + {e})
  {
  }

  // ---- every run ----

  datatype Op = CreateRoot | CreateUnder(parent: nat) | Detach(id: nat) | Finish(id: nat, elapsed: nat)

  class AuditTrail {
    var entries: map<nat, AuditEntry>
    var nextId: nat
    ghost var all: set<AuditEntry>
    ghost var firstElapsed: map<nat, nat>   // what the first finalisation of each entry added

    ghost predicate Valid()
      reads this, all
    {
      && Forest(all)
      && (forall k | k in entries :: entries[k] in all && entries[k].id == k < nextId)
      && (forall e | e in all :: e.id in entries && entries[e.id] == e)
      && (forall k | k in firstElapsed :: k in entries)
      && (forall e | e in all ::
            && (e.finalized <==> e.id in firstElapsed)
            && e.duration == if e.id in firstElapsed then firstElapsed[e.id] else 0)
    }

    constructor ()
      ensures Valid() && entries == map[] && all == {} && firstElapsed == map[]
    {
      entries, nextId, all, firstElapsed := map[], 0, {}, map[];
    }

    /** What the event factories do: persist the entry, then give it its parent and store it. */
    method Create(parent: AuditEntry?) returns (e: AuditEntry)
      requires Valid() && (parent != null ==> parent in all)
      modifies this, all
      ensures Valid() && fresh(e) && all == old(all) + {e} && e.parent == parent && e.id == old(nextId)
      ensures firstElapsed == old(firstElapsed)
      ensures parent != null ==> parent.children == old(parent.children) + [e]
      ensures e.stored == if parent == null then 1 else 2
      ensures forall x | x in old(all) :: x.stored == old(x.stored) + if x in Ancestors(all, e) then 1 else 0
    {
      e := new AuditEntry(nextId);
      e.stored := 1;
      AddNew(e);
      if parent != null {
        Attach(e, parent);
      }
    }

    /** Gives a new entry its parent, then stores it and everything above it. */
    method Attach(e: AuditEntry, parent: AuditEntry)
      requires Valid() && e in all && parent in all && e != parent && e.parent == null && e.children == []
      modifies all
      ensures Valid() && e.parent == parent && parent.children == old(parent.children) + [e]
      ensures forall x | x in all :: x.stored == old(x.stored) + if x == e || x in Ancestors(all, e) then 1 else 0
    {
      SetParentOfNew(e, parent, all);
      Store(e, all);
    }

    method AddNew(e: AuditEntry)
      requires Valid() && e !in all && e.id == nextId && e.parent == null && e.children == []
      requires !e.finalized && e.duration == 0
      modifies this
      ensures Valid() && all == old(all) + {e} && firstElapsed == old(firstElapsed)
    {
      ForestGrows(all, e);
      entries := entries[nextId := e];
      nextId := nextId + 1;
      all := all + {e};
    }

    method FinalizeEntry(e: AuditEntry, elapsed: nat)
      requires Valid() && e in all
      modifies this`firstElapsed, all
      ensures Valid() && e.finalized && all == old(all)
      ensures firstElapsed ==
              if e.id in old(firstElapsed) then old(firstElapsed) else old(firstElapsed)[e.id := elapsed]
    {
      if !e.finalized {
        firstElapsed := firstElapsed[e.id := elapsed];
      }
      Finalize(e, elapsed, all);
    }

    /** Any run of creations, detachments and finalisations keeps the links mirrored and free
        of circles, and what an entry's duration holds is what its first finalisation added. */
    method RunAll(ops: seq<Op>)
      requires Valid()
      modifies this, all
      ensures Valid() && old(all) <= all
      ensures forall k | k in old(firstElapsed) :: k in firstElapsed && firstElapsed[k] == old(firstElapsed)[k]
    {
      for i := 0 to |ops|
        invariant Valid() && old(all) <= all && fresh(all - old(all))
        invariant forall k | k in old(firstElapsed) :: k in firstElapsed && firstElapsed[k] == old(firstElapsed)[k]
      {
        match ops[i] {
          case CreateRoot =>
            var e := Create(null);
          case CreateUnder(id) =>
            if id in entries { var e := Create(entries[id]); }
          case Detach(id) =>
            if id in entries { RemoveParent(entries[id], all); }
          case Finish(id, elapsed) =>
            if id in entries { FinalizeEntry(entries[id], elapsed); }
        }
      }
    }
  }
}
