/** The part of a property tree that the configuration code relies on.

A tree holds a text and an ordered list of named subtrees; names may repeat. Looking up a
name finds its first occurrence, putting replaces the first occurrence or appends, adding
always appends, and erasing removes every occurrence. Names are single path components. */
module PropertyTree {

  datatype Option<+T> = None | Some(value: T)

  datatype Result<+T> = Ok(value: T) | Err

  type uint64 = n: nat | n < 0x1_0000_0000_0000_0000

  datatype Tree = Tree(data: string, children: seq<(string, Tree)>)

  const EMPTY: Tree := Tree("", [])

  function Leaf(data: string): Tree {
    Tree(data, [])
  }

  // ---- lists of named subtrees ----

  function Find(cs: seq<(string, Tree)>, name: string): Option<Tree> {
    if cs == [] then None
    else if cs[0].0 == name then Some(cs[0].1)
    else Find(cs[1..], name)
  }

  function PutIn(cs: seq<(string, Tree)>, name: string, sub: Tree): seq<(string, Tree)> {
    if cs == [] then [(name, sub)]
    else if cs[0].0 == name then [(name, sub)] + cs[1..]
    else [cs[0]] + PutIn(cs[1..], name, sub)
  }

  function EraseIn(cs: seq<(string, Tree)>, name: string): seq<(string, Tree)> {
    if cs == [] then []
    else if cs[0].0 == name then EraseIn(cs[1..], name)
    else [cs[0]] + EraseIn(cs[1..], name)
  }

  function CountIn(cs: seq<(string, Tree)>, name: string): nat {
    if cs == [] then 0
    else (if cs[0].0 == name then 1 else 0) + CountIn(cs[1..], name)
  }

  ghost predicate DistinctNames(cs: seq<(string, Tree)>) {
    forall i, j | 0 <= i < j < |cs| :: cs[i].0 != cs[j].0
  }

  // ---- trees ----

  function Get(t: Tree, name: string): Option<Tree> {
    Find(t.children, name)
  }

  /** The text of the first subtree called `name`. */
  function GetData(t: Tree, name: string): Option<string> {
    var c := Get(t, name);
    if c.Some? then Some(c.value.data) else None
  }

  function Put(t: Tree, name: string, sub: Tree): Tree {
    t.(children := PutIn(t.children, name, sub))
  }

  /** Changes the text of the first subtree called `name` and keeps what is below it, or
      appends a leaf. */
  function PutData(t: Tree, name: string, data: string): Tree {
    var c := Get(t, name);
    Put(t, name, if c.Some? then c.value.(data := data) else Leaf(data))
  }

  function Add(t: Tree, name: string, sub: Tree): Tree {
    t.(children := t.children + [(name, sub)])
  }

  function Erase(t: Tree, name: string): Tree {
    t.(children := EraseIn(t.children, name))
  }

  function Count(t: Tree, name: string): nat {
    CountIn(t.children, name)
  }

  // ---- laws ----

  lemma {:induction false} FindPutIn(cs: seq<(string, Tree)>, name: string, sub: Tree, other: string)
    ensures Find(PutIn(cs, name, sub), other) == if other == name then Some(sub) else Find(cs, other)
  {
    if cs != [] && cs[0].0 != name {
      FindPutIn(cs[1..], name, sub, other);
    } else if cs != [] {
      assert ([(name, sub)] + cs[1..])[1..] == cs[1..];
    }
  }

  lemma {:induction false} FindAppend(cs: seq<(string, Tree)>, ds: seq<(string, Tree)>, name: string)
    ensures Find(cs + ds, name) == if Find(cs, name).Some? then Find(cs, name) else Find(ds, name)
  {
    if cs == [] {
      assert cs + ds == ds;
    } else {
      assert (cs + ds)[1..] == cs[1..] + ds;
      FindAppend(cs[1..], ds, name);
    }
  }

  lemma {:induction false} FindEraseIn(cs: seq<(string, Tree)>, name: string, other: string)
    ensures Find(EraseIn(cs, name), other) == if other == name then None else Find(cs, other)
  {
    if cs != [] {
      FindEraseIn(cs[1..], name, other);
    }
  }

  /** Putting a subtree changes nothing exactly when it is already the one that is found. */
  lemma {:induction false} PutInSame(cs: seq<(string, Tree)>, name: string, sub: Tree)
    ensures PutIn(cs, name, sub) == cs <==> Find(cs, name) == Some(sub)
  {
    if cs != [] {
      var rest := cs[1..];
      assert cs == [cs[0]] + rest;
      if cs[0].0 != name {
        PutInSame(rest, name, sub);
        assert PutIn(cs, name, sub)[1..] == PutIn(rest, name, sub);
      } else {
        assert PutIn(cs, name, sub)[0] == (name, sub);
      }
    }
  }

  lemma {:induction false} CountPutIn(cs: seq<(string, Tree)>, name: string, sub: Tree, other: string)
    ensures CountIn(PutIn(cs, name, sub), other)
         == CountIn(cs, other) + if other == name && Find(cs, name).None? then 1 else 0
  {
    if cs != [] && cs[0].0 != name {
      CountPutIn(cs[1..], name, sub, other);
    } else if cs != [] {
      assert ([(name, sub)] + cs[1..])[1..] == cs[1..];
    }
  }

  lemma {:induction false} CountAppend(cs: seq<(string, Tree)>, ds: seq<(string, Tree)>, name: string)
    ensures CountIn(cs + ds, name) == CountIn(cs, name) + CountIn(ds, name)
  {
    if cs == [] {
      assert cs + ds == ds;
    } else {
      assert (cs + ds)[1..] == cs[1..] + ds;
      CountAppend(cs[1..], ds, name);
    }
  }

  /** A name is found exactly when it occurs. */
  lemma {:induction false} CountFind(cs: seq<(string, Tree)>, name: string)
    ensures CountIn(cs, name) == 0 <==> Find(cs, name).None?
    ensures Find(cs, name).None? <==> forall i | 0 <= i < |cs| :: cs[i].0 != name
  {
    if cs != [] {
      CountFind(cs[1..], name);
      if Find(cs, name).None? {
        forall i | 0 <= i < |cs| ensures cs[i].0 != name {
          if i > 0 { assert cs[i] == cs[1..][i - 1]; }
        }
      }
    }
  }

  /** What is found is the first subtree listed under the name, repeated names included. */
  lemma {:induction false} FindIsFirst(cs: seq<(string, Tree)>, name: string, i: nat)
    requires i < |cs| && cs[i].0 == name && forall j | 0 <= j < i :: cs[j].0 != name
    ensures Find(cs, name) == Some(cs[i].1)
  {
    if i > 0 {
      assert cs[1..][i - 1] == cs[i];
      FindIsFirst(cs[1..], name, i - 1);
    }
  }

  lemma FindNext(name: string, sub: Tree, rest: seq<(string, Tree)>, n: string)
    ensures Find([(name, sub)] + rest, n) == if name == n then Some(sub) else Find(rest, n)
    ensures CountIn([(name, sub)] + rest, n) == (if name == n then 1 else 0) + CountIn(rest, n)
  {
    assert ([(name, sub)] + rest)[1..] == rest;
  }

  /** With distinct names, what is found under a name is the subtree listed with it. */
  lemma {:induction false} FindDistinct(cs: seq<(string, Tree)>, i: nat)
    requires DistinctNames(cs) && i < |cs|
    ensures Find(cs, cs[i].0) == Some(cs[i].1)
  {
    if i > 0 {
      assert cs[1..][i - 1] == cs[i];
      FindDistinct(cs[1..], i - 1);
    }
  }

  /** Erasing a name keeps the other subtrees, in order and without repeats. */
  lemma {:induction false} EraseInKeeps(cs: seq<(string, Tree)>, name: string)
    ensures forall i | 0 <= i < |EraseIn(cs, name)| ::
              EraseIn(cs, name)[i] in cs && EraseIn(cs, name)[i].0 != name
    ensures DistinctNames(cs) ==> DistinctNames(EraseIn(cs, name))
  {
    if cs != [] {
      var rest := cs[1..];
      EraseInKeeps(rest, name);
      var e := EraseIn(rest, name);
      if DistinctNames(cs) {
        assert DistinctNames(rest) by {
          forall i, j | 0 <= i < j < |rest| ensures rest[i].0 != rest[j].0 {
            assert rest[i] == cs[i + 1] && rest[j] == cs[j + 1];
          }
        }
        forall i, j | 0 <= i < j < |EraseIn(cs, name)|
          ensures EraseIn(cs, name)[i].0 != EraseIn(cs, name)[j].0
        {
          if cs[0].0 != name && i == 0 {
            assert EraseIn(cs, name)[j] == e[j - 1];
            var k :| 0 <= k < |rest| && rest[k] == e[j - 1];
            assert cs[k + 1] == rest[k];
          }
        }
      }
    }
  }
}
