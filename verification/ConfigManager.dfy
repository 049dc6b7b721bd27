/** The configuration of one unit: the kernel tree, one tree per module, and the version
number that stands for the whole. */
module Configuration {
  import opened PropertyTree

  datatype Config = Config(kernel: Tree, modules: map<string, Tree>, version: uint64, instanceName: string)

  const GENERAL_TAGS: seq<string> :=
    ["remote", "plugin_directories", "log", "network", "autosave", "sync_dest", "no_import", "instance_name"]

  /** The tags that are never exported. */
  const PRIVATE_TAGS: set<string> := {"no_import", "instance_name"}

  function ParseBool(s: string): Option<bool> {
    if s == "1" || s == "true" then Some(true)
    else if s == "0" || s == "false" then Some(false)
    else None
  }

  function Decimal(n: nat): string {
    if n < 10 then [('0' as int + n) as char] else Decimal(n / 10) + [('0' as int + n % 10) as char]
  }

  /** What reads as a truth value. */
  lemma ParseBoolMeaning(s: string)
    ensures ParseBool(s) == Some(true) <==> s == "1" || s == "true"
    ensures ParseBool(s) == Some(false) <==> s == "0" || s == "false"
  {
    assert "1"[0] == '1' && "0"[0] == '0' && "true"[0] == 't' && "false"[0] == 'f';
  }

  /** The tags a general configuration may hold, and those that stay at home. */
  lemma TagNames(n: string)
    ensures n in GENERAL_TAGS <==>
            || n == "remote" || n == "plugin_directories" || n == "log" || n == "network"
            || n == "autosave" || n == "sync_dest" || n == "no_import" || n == "instance_name"
    ensures n in PRIVATE_TAGS <==> n == "no_import" || n == "instance_name"
  {
  }

  // ---- what a unit exports ----

  /** The general tags of `tags` that the kernel tree holds, each with its subtree. */
  function Pick(kernel: Tree, tags: seq<string>): seq<(string, Tree)> {
    if tags == [] then []
    else
      var tag := tags[|tags| - 1];
      var before := Pick(kernel, tags[..|tags| - 1]);
      var c := Get(kernel, tag);
      if c.Some? then before + [(tag, c.value)] else before
  }

  function GeneralConfig(c: Config): Tree {
    Tree("", Pick(c.kernel, GENERAL_TAGS) + [("version", Leaf(Decimal(c.version)))])
  }

  /** The names whose flag is set, leaving out `skip`; a flag that is not a truth value is an error. */
  function Flags(cs: seq<(string, Tree)>, skip: set<string>): Result<seq<string>> {
    if cs == [] then Ok([])
    else
      var last := cs[|cs| - 1];
      var before := Flags(cs[..|cs| - 1], skip);
      if before.Err? || last.0 in skip then before
      else match ParseBool(last.1.data)
        case None => Err
        case Some(b) => if b then Ok(before.value + [last.0]) else before
  }

  function Restrict(cs: seq<(string, Tree)>, names: seq<string>): seq<(string, Tree)> {
    if cs == [] then []
    else
      var last := cs[|cs| - 1];
      var before := Restrict(cs[..|cs| - 1], names);
      if last.0 in names then before + [last] else before
  }

  function Export(c: Config): Result<Tree> {
    var general := GeneralConfig(c);
    match Get(c.kernel, "sync_source")
    case None => Ok(Erase(Erase(general, "no_import"), "instance_name"))
    case Some(source) =>
      match Flags(source.children, PRIVATE_TAGS)
      case Err => Err
      case Ok(names) => Ok(Tree("", Restrict(general.children, names)))
  }

  // ---- taking over an exported tree ----

  /** Puts every subtree of `cs` whose name is among `names`. */
  function PutNamed(kernel: Tree, cs: seq<(string, Tree)>, names: seq<string>): Tree {
    if cs == [] then kernel
    else
      var last := cs[|cs| - 1];
      var before := PutNamed(kernel, cs[..|cs| - 1], names);
      if last.0 in names then Put(before, last.0, last.1) else before
  }

  /** Takes over everything, then puts the local tags back. */
  function Adopt(kernel: Tree, instanceName: string, incoming: Tree, file: string): Tree {
    var noImport := Get(kernel, "no_import");
    var restored := if noImport.Some? then Put(incoming, "no_import", noImport.value) else incoming;
    PutData(Add(restored, "kernel-cfg", Leaf(file)), "instance_name", instanceName)
  }

  function SetKernel(kernel: Tree, instanceName: string, incoming: Tree): Result<Tree> {
    match GetData(kernel, "kernel-cfg")
    case None => Err
    case Some(file) =>
      match Get(kernel, "sync_dest")
      case None => Ok(Adopt(kernel, instanceName, incoming, file))
      case Some(dest) =>
        match Flags(dest.children, {})
        case Err => Err
        case Ok(names) => Ok(PutNamed(kernel, incoming.children, names))
  }

  /** A refused tree leaves the kernel configuration as it was. */
  function Applied(kernel: Tree, instanceName: string, incoming: Tree): Tree {
    var r := SetKernel(kernel, instanceName, incoming);
    if r.Ok? then r.value else kernel
  }

  // ---- modules that are not imported ----

  function Names(cs: seq<(string, Tree)>): seq<string> {
    seq(|cs|, i requires 0 <= i < |cs| => cs[i].0)
  }

  function NonImportable(c: Config): seq<string> {
    var t := Get(c.kernel, "no_import");
    if t.Some? then Names(t.value.children) else []
  }

  predicate Importable(c: Config, name: string) {
    name !in NonImportable(c)
  }

  /** No child of the `no_import` tag has this name. */
  predicate Imports(kernel: Tree, name: string) {
    var t := Get(kernel, "no_import");
    t.Some? ==> forall i | 0 <= i < |t.value.children| :: t.value.children[i].0 != name
  }

  /** A module is imported exactly if no child of the `no_import` tag has its name. */
  lemma ImportableIff(c: Config, name: string)
    ensures var t := Get(c.kernel, "no_import");
            Importable(c, name) <==>
            t.None? || forall i | 0 <= i < |t.value.children| :: t.value.children[i].0 != name
    ensures Importable(c, name) == Imports(c.kernel, name)
  {
    var t := Get(c.kernel, "no_import");
    if t.Some? {
      var cs := t.value.children;
      assert forall i | 0 <= i < |cs| :: Names(cs)[i] == cs[i].0;
    }
  }

  // ---- what the exporter guarantees ----

  /** What every exported tree satisfies: no tag twice, and none of the tags that belong to
      the receiving unit. */
  ghost predicate Public(t: Tree) {
    && DistinctNames(t.children)
    && forall i | 0 <= i < |t.children| :: t.children[i].0 !in PRIVATE_TAGS && t.children[i].0 != "kernel-cfg"
  }

  lemma {:induction false} PickFacts(kernel: Tree, tags: seq<string>)
    requires forall i, j | 0 <= i < j < |tags| :: tags[i] != tags[j]
    ensures DistinctNames(Pick(kernel, tags))
    ensures forall i | 0 <= i < |Pick(kernel, tags)| :: Pick(kernel, tags)[i].0 in tags
    ensures forall n :: Find(Pick(kernel, tags), n) == if n in tags then Get(kernel, n) else None
  {
    if tags != [] {
      var front, tag := tags[..|tags| - 1], tags[|tags| - 1];
      PickFacts(kernel, front);
      assert tags == front + [tag];
      forall n ensures Find(Pick(kernel, tags), n) == if n in tags then Get(kernel, n) else None {
        FindAppend(Pick(kernel, front), Pick(kernel, tags)[|Pick(kernel, front)|..], n);
        assert Pick(kernel, tags) == Pick(kernel, front) + Pick(kernel, tags)[|Pick(kernel, front)|..];
      }
    }
  }

  lemma {:induction false} RestrictFacts(cs: seq<(string, Tree)>, names: seq<string>)
    ensures forall i | 0 <= i < |Restrict(cs, names)| ::
              Restrict(cs, names)[i] in cs && Restrict(cs, names)[i].0 in names
    ensures DistinctNames(cs) ==> DistinctNames(Restrict(cs, names))
  {
    if cs != [] {
      var front, last := cs[..|cs| - 1], cs[|cs| - 1];
      RestrictFacts(front, names);
      assert cs == front + [last];
      var r := Restrict(front, names);
      if DistinctNames(cs) {
        assert DistinctNames(front);
        forall i | 0 <= i < |r| ensures r[i].0 != last.0 {
          var k :| 0 <= k < |front| && front[k] == r[i];
          assert cs[k] == front[k];
        }
      }
    }
  }

  lemma {:induction false} RestrictFind(cs: seq<(string, Tree)>, names: seq<string>, n: string)
    ensures Find(Restrict(cs, names), n) == if n in names then Find(cs, n) else None
  {
    if cs != [] {
      var front, last := cs[..|cs| - 1], cs[|cs| - 1];
      RestrictFind(front, names, n);
      assert cs == front + [last];
      FindAppend(front, [last], n);
      FindAppend(Restrict(front, names), [last], n);
    }
  }

  ghost predicate Flagged(cs: seq<(string, Tree)>, n: string) {
    exists i :: 0 <= i < |cs| && cs[i].0 == n && ParseBool(cs[i].1.data) == Some(true)
  }

  ghost predicate Readable(cs: seq<(string, Tree)>, skip: set<string>) {
    forall i | 0 <= i < |cs| :: cs[i].0 in skip || ParseBool(cs[i].1.data).Some?
  }

  /** The flags can be collected exactly when each that counts is a truth value, and then give
      exactly the names for which one is set. */
  lemma {:induction false} FlagsMeaning(cs: seq<(string, Tree)>, skip: set<string>)
    ensures Flags(cs, skip).Ok? <==> Readable(cs, skip)
    ensures Flags(cs, skip).Ok? ==> forall n :: n in Flags(cs, skip).value <==> n !in skip && Flagged(cs, n)
  {
    if cs != [] {
      var front, last := cs[..|cs| - 1], cs[|cs| - 1];
      assert cs == front + [last];
      FlagsMeaning(front, skip);
      forall n ensures Flagged(cs, n) <==> Flagged(front, n) || (last.0 == n && ParseBool(last.1.data) == Some(true)) {
        if Flagged(front, n) {
          var i :| 0 <= i < |front| && front[i].0 == n && ParseBool(front[i].1.data) == Some(true);
          assert cs[i] == front[i];
        }
        if last.0 == n && ParseBool(last.1.data) == Some(true) { assert cs[|cs| - 1] == last; }
      }
      assert Readable(cs, skip) <==> Readable(front, skip) && (last.0 in skip || ParseBool(last.1.data).Some?) by {
        assert forall i | 0 <= i < |front| :: cs[i] == front[i];
      }
    }
  }

  lemma GeneralFacts(c: Config)
    ensures General(GeneralConfig(c))
    ensures forall n :: Get(GeneralConfig(c), n) ==
              if n == "version" then Some(Leaf(Decimal(c.version)))
              else if n in GENERAL_TAGS then Get(c.kernel, n) else None
  {
    PickFacts(c.kernel, GENERAL_TAGS);
    forall n ensures Get(GeneralConfig(c), n) ==
        if n == "version" then Some(Leaf(Decimal(c.version)))
        else if n in GENERAL_TAGS then Get(c.kernel, n) else None {
      FindAppend(Pick(c.kernel, GENERAL_TAGS), [("version", Leaf(Decimal(c.version)))], n);
    }
  }

  /** The tags a unit is willing to export. */
  ghost predicate Exports(c: Config, n: string) {
    var source := Get(c.kernel, "sync_source");
    n !in PRIVATE_TAGS && (source.None? || Flagged(source.value.children, n))
  }

  /** An export holds exactly the general tags the unit is willing to export, each as the unit
      has it. Whatever the configuration says, it never holds `no_import`, `instance_name` or
      `kernel-cfg`, nor any tag twice. It fails exactly for a `sync_source` that is not readable. */
  lemma ExportIsPublic(c: Config)
    ensures var source := Get(c.kernel, "sync_source");
            Export(c).Ok? <==> source.None? || Readable(source.value.children, PRIVATE_TAGS)
    ensures Export(c).Ok? ==>
              && Public(Export(c).value)
              && forall n :: Get(Export(c).value, n) == if Exports(c, n) then Get(GeneralConfig(c), n) else None
  {
    GeneralFacts(c);
    if Get(c.kernel, "sync_source").None? {
      EraseIsPublic(GeneralConfig(c));
    } else {
      var source := Get(c.kernel, "sync_source").value;
      FlagsMeaning(source.children, PRIVATE_TAGS);
      if Export(c).Ok? {
        RestrictIsPublic(GeneralConfig(c), Flags(source.children, PRIVATE_TAGS).value);
      }
    }
  }

  /** Nothing but the tags of a general configuration, each once. */
  ghost predicate General(t: Tree) {
    && DistinctNames(t.children)
    && forall i | 0 <= i < |t.children| :: t.children[i].0 == "version" || t.children[i].0 in GENERAL_TAGS
  }

  lemma EraseIsPublic(general: Tree)
    requires General(general)
    ensures var e := Erase(Erase(general, "no_import"), "instance_name");
            && Public(e)
            && forall n :: Get(e, n) == if n in PRIVATE_TAGS then None else Get(general, n)
  {
    var once := EraseIn(general.children, "no_import");
    var e := Erase(Erase(general, "no_import"), "instance_name");
    EraseInKeeps(general.children, "no_import");
    EraseInKeeps(once, "instance_name");
    forall n ensures Get(e, n) == if n in PRIVATE_TAGS then None else Get(general, n) {
      FindEraseIn(general.children, "no_import", n);
      FindEraseIn(once, "instance_name", n);
    }
  }

  lemma RestrictIsPublic(general: Tree, names: seq<string>)
    requires General(general) && forall n | n in names :: n !in PRIVATE_TAGS
    ensures var e := Tree("", Restrict(general.children, names));
            && Public(e)
            && forall n :: Get(e, n) == if n in names then Get(general, n) else None
  {
    RestrictFacts(general.children, names);
    forall n ensures Find(Restrict(general.children, names), n) == if n in names then Get(general, n) else None {
      RestrictFind(general.children, names, n);
    }
  }

  // ---- what taking over a public tree keeps ----

  /** A public tree holds none of the receiving unit's own tags. */
  lemma PublicHides(t: Tree)
    requires Public(t)
    ensures Get(t, "no_import") == Get(t, "instance_name") == Get(t, "kernel-cfg") == None
    ensures Count(t, "kernel-cfg") == 0
  {
    CountFind(t.children, "no_import");
    CountFind(t.children, "instance_name");
    CountFind(t.children, "kernel-cfg");
  }

  lemma {:induction false} PutNamedGet(kernel: Tree, cs: seq<(string, Tree)>, names: seq<string>, n: string)
    requires DistinctNames(cs)
    ensures Get(PutNamed(kernel, cs, names), n)
         == if n in names && Find(cs, n).Some? then Find(cs, n) else Get(kernel, n)
  {
    if cs != [] {
      var front, last := cs[..|cs| - 1], cs[|cs| - 1];
      PutNamedGet(kernel, front, names, n);
      assert cs == front + [last];
      FindAppend(front, [last], n);
      CountFind(front, last.0);
      if last.0 in names {
        FindPutIn(PutNamed(kernel, front, names).children, last.0, last.1, n);
      }
    }
  }

  lemma {:induction false} PutNamedCount(kernel: Tree, cs: seq<(string, Tree)>, names: seq<string>, n: string)
    requires forall i | 0 <= i < |cs| :: cs[i].0 != n
    ensures Count(PutNamed(kernel, cs, names), n) == Count(kernel, n)
  {
    if cs != [] {
      var front, last := cs[..|cs| - 1], cs[|cs| - 1];
      PutNamedCount(kernel, front, names, n);
      if last.0 in names {
        CountPutIn(PutNamed(kernel, front, names).children, last.0, last.1, n);
      }
    }
  }

  /** Lookups in an adopted tree: the adopted subtrees, then the local tags. */
  lemma AdoptGet(kernel: Tree, instanceName: string, incoming: Tree, file: string)
    requires Public(incoming)
    ensures var k := Adopt(kernel, instanceName, incoming, file);
            && Get(k, "no_import") == Get(kernel, "no_import")
            && Get(k, "kernel-cfg") == Some(Leaf(file)) && Count(k, "kernel-cfg") == 1
            && Get(k, "instance_name") == Some(Leaf(instanceName))
            && forall n :: n !in PRIVATE_TAGS && n != "kernel-cfg" ==> Get(k, n) == Get(incoming, n)
  {
    PublicHides(incoming);
    var noImport := Get(kernel, "no_import");
    var restored := if noImport.Some? then Put(incoming, "no_import", noImport.value) else incoming;
    var added := Add(restored, "kernel-cfg", Leaf(file));
    var k := Adopt(kernel, instanceName, incoming, file);
    forall n ensures Get(restored, n) == if n == "no_import" then noImport else Get(incoming, n) {
      if noImport.Some? { FindPutIn(incoming.children, "no_import", noImport.value, n); }
    }
    forall n ensures Get(added, n) == if n == "kernel-cfg" then Some(Leaf(file)) else Get(restored, n) {
      FindAppend(restored.children, [("kernel-cfg", Leaf(file))], n);
    }
    forall n ensures Get(k, n) == if n == "instance_name" then Some(Leaf(instanceName)) else Get(added, n) {
      FindPutIn(added.children, "instance_name", Leaf(instanceName), n);
    }
    if noImport.Some? { CountPutIn(incoming.children, "no_import", noImport.value, "kernel-cfg"); }
    CountAppend(restored.children, [("kernel-cfg", Leaf(file))], "kernel-cfg");
    assert [("kernel-cfg", Leaf(file))][1..] == [];
    CountPutIn(added.children, "instance_name", Leaf(instanceName), "kernel-cfg");
  }

  /** What a tag should be after an exported tree was taken over. With a `sync_dest`, exactly
      the tags flagged there that were sent are replaced. Without one, everything is replaced by
      what was sent, except for the unit's own tags. */
  ghost function ExpectedTag(k: Tree, instanceName: string, incoming: Tree, n: string): Option<Tree> {
    var dest := Get(k, "sync_dest");
    if dest.Some? then
      if Flagged(dest.value.children, n) && Get(incoming, n).Some? then Get(incoming, n) else Get(k, n)
    else if n == "no_import" then Get(k, n)
    else if n == "kernel-cfg" then (if Get(k, n).Some? then Some(Leaf(Get(k, n).value.data)) else None)
    else if n == "instance_name" then Some(Leaf(instanceName))
    else Get(incoming, n)
  }

  lemma KernelLookup(k: Tree, instanceName: string, incoming: Tree, n: string)
    requires Public(incoming)
    ensures var k', dest := SetKernel(k, instanceName, incoming), Get(k, "sync_dest");
            && (k'.Ok? <==> Get(k, "kernel-cfg").Some? && (dest.None? || Readable(dest.value.children, {})))
            && (k'.Ok? ==> Get(k'.value, n) == ExpectedTag(k, instanceName, incoming, n))
  {
    var dest := Get(k, "sync_dest");
    if Get(k, "kernel-cfg").Some? {
      if dest.None? {
        AdoptGet(k, instanceName, incoming, GetData(k, "kernel-cfg").value);
      } else {
        FlagsMeaning(dest.value.children, {});
        if Flags(dest.value.children, {}).Ok? {
          PutNamedGet(k, incoming.children, Flags(dest.value.children, {}).value, n);
        }
      }
    }
  }

  /** The tags a unit keeps for itself read the same in both trees. */
  ghost predicate SameIdentity(k: Tree, k': Tree) {
    && GetData(k', "kernel-cfg") == GetData(k, "kernel-cfg")
    && GetData(k', "instance_name") == GetData(k, "instance_name")
    && Get(k', "no_import") == Get(k, "no_import")
  }

  /** Where the configuration file is named once and the instance name is the one read at
      construction. */
  ghost predicate WellNamed(k: Tree, instanceName: string) {
    Count(k, "kernel-cfg") == 1 && GetData(k, "instance_name") == Some(instanceName)
  }

  /** Taking over an exported tree never touches the unit's own tags, and the file name stays
      listed exactly once. */
  lemma IdentityKept(k: Tree, instanceName: string, incoming: Tree)
    requires Public(incoming) && WellNamed(k, instanceName)
    ensures var k' := Applied(k, instanceName, incoming); SameIdentity(k, k') && WellNamed(k', instanceName)
  {
    if SetKernel(k, instanceName, incoming).Ok? {
      if Get(k, "sync_dest").None? {
        AdoptGet(k, instanceName, incoming, GetData(k, "kernel-cfg").value);
      } else {
        PublicHides(incoming);
        var names := Flags(Get(k, "sync_dest").value.children, {}).value;
        PutNamedGet(k, incoming.children, names, "kernel-cfg");
        PutNamedGet(k, incoming.children, names, "instance_name");
        PutNamedGet(k, incoming.children, names, "no_import");
        PutNamedCount(k, incoming.children, names, "kernel-cfg");
      }
    }
  }

  // ---- taking over the same tree again ----

  /** Nothing of `cs` would change `kernel`: every named subtree is already the one found. */
  predicate Agrees(kernel: Tree, cs: seq<(string, Tree)>, names: seq<string>) {
    forall i | 0 <= i < |cs| :: cs[i].0 in names ==> Get(kernel, cs[i].0) == Some(cs[i].1)
  }

  lemma {:induction false} PutNamedSame(kernel: Tree, cs: seq<(string, Tree)>, names: seq<string>)
    requires DistinctNames(cs)
    ensures PutNamed(kernel, cs, names) == kernel <==> Agrees(kernel, cs, names)
  {
    if PutNamed(kernel, cs, names) == kernel {
      forall i | 0 <= i < |cs| && cs[i].0 in names ensures Get(kernel, cs[i].0) == Some(cs[i].1) {
        PutNamedGet(kernel, cs, names, cs[i].0);
        FindDistinct(cs, i);
      }
    }
    if Agrees(kernel, cs, names) && cs != [] {
      var front, last := cs[..|cs| - 1], cs[|cs| - 1];
      assert forall i | 0 <= i < |front| :: front[i] == cs[i];
      PutNamedSame(kernel, front, names);
      PutInSame(kernel.children, last.0, last.1);
    }
  }

  /** Puts of one tree agree with a later look at the same tree. */
  lemma PutNamedAgrees(kernel: Tree, cs: seq<(string, Tree)>, names: seq<string>, later: seq<string>)
    requires DistinctNames(cs)
    ensures Agrees(PutNamed(kernel, cs, names), cs, later)
       <==> forall i | 0 <= i < |cs| :: cs[i].0 in later ==> cs[i].0 in names || Get(kernel, cs[i].0) == Some(cs[i].1)
  {
    forall i | 0 <= i < |cs|
      ensures Get(PutNamed(kernel, cs, names), cs[i].0)
           == if cs[i].0 in names then Some(cs[i].1) else Get(kernel, cs[i].0)
    {
      PutNamedGet(kernel, cs, names, cs[i].0);
      FindDistinct(cs, i);
    }
  }

  /** When one application is enough. The only way to need a second is that the local
      `sync_dest` lets itself be replaced, and the replacement lets in a tag that the first
      round left out and that differs. */
  predicate SettlesInOne(k: Tree, incoming: Tree) {
    var dest, next := Get(k, "sync_dest"), Get(incoming, "sync_dest");
    Get(k, "kernel-cfg").Some? && dest.Some? && next.Some? ==>
      var names, later := Flags(dest.value.children, {}), Flags(next.value.children, {});
      names.Ok? && "sync_dest" in names.value && later.Ok? ==>
        forall i | 0 <= i < |incoming.children| :: incoming.children[i].0 in later.value ==>
          incoming.children[i].0 in names.value || Get(k, incoming.children[i].0) == Some(incoming.children[i].1)
  }

  /** Without a local `sync_dest`, one application settles. */
  lemma AdoptSettles(k: Tree, instanceName: string, incoming: Tree)
    requires Public(incoming) && Get(k, "kernel-cfg").Some? && Get(k, "sync_dest").None?
    ensures var k1 := Applied(k, instanceName, incoming); Applied(k1, instanceName, incoming) == k1
  {
    var k1 := Applied(k, instanceName, incoming);
    AdoptGet(k, instanceName, incoming, GetData(k, "kernel-cfg").value);
    var dest := Get(k1, "sync_dest");
    if dest.Some? && Flags(dest.value.children, {}).Ok? {
      var names := Flags(dest.value.children, {}).value;
      forall i | 0 <= i < |incoming.children| ensures Get(k1, incoming.children[i].0) == Some(incoming.children[i].1) {
        FindDistinct(incoming.children, i);
      }
      PutNamedSame(k1, incoming.children, names);
    }
  }

  /** With a local `sync_dest` whose flags are readable: one application settles exactly under
      the stated condition, and two always do. */
  lemma PutNamedSettles(k: Tree, instanceName: string, incoming: Tree)
    requires Public(incoming) && Get(k, "kernel-cfg").Some? && Get(k, "sync_dest").Some?
    requires Flags(Get(k, "sync_dest").value.children, {}).Ok?
    ensures var k1 := Applied(k, instanceName, incoming);
            var k2 := Applied(k1, instanceName, incoming);
            && (k2 == k1 <==> SettlesInOne(k, incoming))
            && Applied(k2, instanceName, incoming) == k2
  {
    PublicHides(incoming);
    var cs, names := incoming.children, Flags(Get(k, "sync_dest").value.children, {}).value;
    var k1 := Applied(k, instanceName, incoming);
    PutNamedGet(k, cs, names, "kernel-cfg");
    PutNamedGet(k, cs, names, "sync_dest");
    var later := Flags(Get(k1, "sync_dest").value.children, {});
    if later.Ok? {
      PutNamedSame(k1, cs, later.value);
      PutNamedAgrees(k, cs, names, later.value);
      var k2 := Applied(k1, instanceName, incoming);
      PutNamedGet(k1, cs, later.value, "kernel-cfg");
      PutNamedGet(k1, cs, later.value, "sync_dest");
      PutNamedSame(k2, cs, later.value);
      PutNamedAgrees(k1, cs, later.value, later.value);
    }
  }

  /** Taking over the same exported tree again changes nothing more after two rounds, and
      after one exactly when `SettlesInOne` holds beforehand. */
  lemma FixedPoint(k: Tree, instanceName: string, incoming: Tree)
    requires Public(incoming)
    ensures var k1 := Applied(k, instanceName, incoming);
            var k2 := Applied(k1, instanceName, incoming);
            && (k2 == k1 <==> SettlesInOne(k, incoming))
            && Applied(k2, instanceName, incoming) == k2
  {
    if Get(k, "kernel-cfg").Some? {
      var dest := Get(k, "sync_dest");
      if dest.None? {
        AdoptSettles(k, instanceName, incoming);
      } else if Flags(dest.value.children, {}).Ok? {
        PutNamedSettles(k, instanceName, incoming);
      }
    }
  }

  lemma OneFlag(name: string)
    ensures Flags([(name, Leaf("true"))], {}) == Ok([name])
  {
    var cs := [(name, Leaf("true"))];
    assert cs[..0] == [] && Flags(cs[..0], {}) == Ok([]);
    assert [] + [name] == [name];
  }

  /** The local unit lets in nothing but `sync_dest`; the remote one sends a `sync_dest` that lets
      `log` in, and a `log` that the local unit does not have. */
  lemma SecondRoundChanges(k: Tree, instanceName: string, c: Config, dest: Tree, next: Tree)
    requires Get(k, "kernel-cfg").Some? && Get(k, "sync_dest") == Some(dest) && Get(k, "log").None?
    requires Flags(dest.children, {}) == Ok(["sync_dest"]) && Flags(next.children, {}) == Ok(["log"])
    requires Export(c).Ok? && Exports(c, "log") && Exports(c, "sync_dest")
    requires Get(c.kernel, "log").Some? && Get(c.kernel, "sync_dest") == Some(next)
    ensures var e := Export(c).value;
            Applied(Applied(k, instanceName, e), instanceName, e) != Applied(k, instanceName, e)
  {
    var e := Export(c).value;
    ExportIsPublic(c);
    GeneralFacts(c);
    assert "log" in GENERAL_TAGS && "sync_dest" in GENERAL_TAGS;
    assert Get(e, "log").Some? && Get(e, "sync_dest") == Some(next);
    CountFind(e.children, "log");
    var i :| 0 <= i < |e.children| && e.children[i].0 == "log";
    assert "log" !in ["sync_dest"] && "log" in ["log"];
    FixedPoint(k, instanceName, e);
  }

  const YES: Tree := Leaf("true")

  /** A unit whose kernel tree holds its own tags, then `rest`. */
  function UnitTree(file: string, name: string, rest: seq<(string, Tree)>): Tree {
    Tree("", [("kernel-cfg", Leaf(file))] + ([("instance_name", Leaf(name))] + rest))
  }

  lemma UnitTreeGet(file: string, name: string, rest: seq<(string, Tree)>, n: string)
    ensures Get(UnitTree(file, name, rest), n) ==
            if n == "kernel-cfg" then Some(Leaf(file))
            else if n == "instance_name" then Some(Leaf(name)) else Find(rest, n)
    ensures Find(rest, "kernel-cfg").None? ==> WellNamed(UnitTree(file, name, rest), name)
  {
    var tail := [("instance_name", Leaf(name))] + rest;
    FindNext("kernel-cfg", Leaf(file), tail, n);
    FindNext("instance_name", Leaf(name), rest, n);
    FindNext("kernel-cfg", Leaf(file), tail, "instance_name");
    FindNext("instance_name", Leaf(name), rest, "instance_name");
    FindNext("kernel-cfg", Leaf(file), tail, "kernel-cfg");
    FindNext("instance_name", Leaf(name), rest, "kernel-cfg");
    CountFind(rest, "kernel-cfg");
  }

  function NarrowUnit(): Tree {
    UnitTree("f", "unit", [("sync_dest", Tree("", [("sync_dest", YES)]))])
  }

  function SourceTree(): Tree {
    Tree("", [("log", YES), ("sync_dest", YES)])
  }

  function WideUnit(): Config {
    var dest := Tree("", [("log", YES)]);
    Config(UnitTree("g", "other", [("log", Leaf("x")), ("sync_dest", dest), ("sync_source", SourceTree())]),
           map[], 1, "other")
  }

  /** Two rounds can be needed between two properly configured units. */
  lemma TwoRoundsNeeded()
    ensures exists k: Tree, c: Config ::
              && WellNamed(k, "unit") && WellNamed(c.kernel, c.instanceName) && Export(c).Ok?
              && var e := Export(c).value; Applied(Applied(k, "unit", e), "unit", e) != Applied(k, "unit", e)
  {
    NarrowUnitFacts();
    WideUnitFacts();
    OneFlag("sync_dest");
    OneFlag("log");
    SecondRoundChanges(NarrowUnit(), "unit", WideUnit(), Tree("", [("sync_dest", YES)]), Tree("", [("log", YES)]));
  }

  lemma NarrowUnitFacts()
    ensures var k := NarrowUnit();
            && WellNamed(k, "unit") && Get(k, "kernel-cfg").Some? && Get(k, "log").None?
            && Get(k, "sync_dest") == Some(Tree("", [("sync_dest", YES)]))
  {
    var dest := Tree("", [("sync_dest", YES)]);
    var rest := [("sync_dest", dest)];
    assert rest == [("sync_dest", dest)] + [];
    FindNext("sync_dest", dest, [], "sync_dest");
    FindNext("sync_dest", dest, [], "log");
    FindNext("sync_dest", dest, [], "kernel-cfg");
    UnitTreeGet("f", "unit", rest, "kernel-cfg");
    UnitTreeGet("f", "unit", rest, "log");
    UnitTreeGet("f", "unit", rest, "sync_dest");
  }

  lemma WideRest(rest: seq<(string, Tree)>, dest: Tree, source: Tree, n: string)
    requires rest == [("log", Leaf("x")), ("sync_dest", dest), ("sync_source", source)]
    ensures Find(rest, n) ==
            if n == "log" then Some(Leaf("x")) else if n == "sync_dest" then Some(dest)
            else if n == "sync_source" then Some(source) else None
  {
    assert rest == [("log", Leaf("x"))] + ([("sync_dest", dest)] + ([("sync_source", source)] + []));
    FindNext("log", Leaf("x"), [("sync_dest", dest)] + ([("sync_source", source)] + []), n);
    FindNext("sync_dest", dest, [("sync_source", source)] + [], n);
    FindNext("sync_source", source, [], n);
  }

  lemma WideUnitFacts()
    ensures var c := WideUnit();
            && WellNamed(c.kernel, c.instanceName) && Export(c).Ok?
            && Exports(c, "log") && Exports(c, "sync_dest")
            && Get(c.kernel, "log").Some? && Get(c.kernel, "sync_dest") == Some(Tree("", [("log", YES)]))
  {
    var dest, source := Tree("", [("log", YES)]), SourceTree();
    var rest := [("log", Leaf("x")), ("sync_dest", dest), ("sync_source", source)];
    WideRest(rest, dest, source, "kernel-cfg");
    WideRest(rest, dest, source, "log");
    WideRest(rest, dest, source, "sync_dest");
    WideRest(rest, dest, source, "sync_source");
    UnitTreeGet("g", "other", rest, "log");
    UnitTreeGet("g", "other", rest, "sync_dest");
    UnitTreeGet("g", "other", rest, "sync_source");
    SourceFlags();
    ExportIsPublic(WideUnit());
  }

  lemma SourceFlags()
    ensures var cs := SourceTree().children;
            Readable(cs, PRIVATE_TAGS) && Flagged(cs, "log") && Flagged(cs, "sync_dest")
  {
    var cs := SourceTree().children;
    assert ParseBool(cs[0].1.data) == ParseBool(cs[1].1.data) == Some(true);
    assert cs[0].0 == "log" && cs[1].0 == "sync_dest";
  }

  // ---- the object that holds it ----

  class ConfigManager {
    var kernelConfig: Tree
    var modulesConfigs: map<string, Tree>
    var version: uint64
    const instanceName: string

    ghost function View(): Config
      reads this
    {
      Config(kernelConfig, modulesConfigs, version, instanceName)
    }

    constructor (cfg: Tree, version: uint64, instanceName: string)
      ensures View() == Config(cfg, map[], version, instanceName)
    {
      this.kernelConfig, this.modulesConfigs := cfg, map[];
      this.version, this.instanceName := version, instanceName;
    }

    method GetGeneralConfig() returns (r: Tree)
      ensures r == GeneralConfig(View())
    {
      r := EMPTY;
      for i := 0 to |GENERAL_TAGS|
        invariant r == Tree("", Pick(kernelConfig, GENERAL_TAGS[..i]))
      {
        assert GENERAL_TAGS[..i + 1][..i] == GENERAL_TAGS[..i];
        var c := Get(kernelConfig, GENERAL_TAGS[i]);
        if c.Some? {
          r := Add(r, GENERAL_TAGS[i], c.value);
        }
      }
      assert GENERAL_TAGS[..|GENERAL_TAGS|] == GENERAL_TAGS;
      r := Add(r, "version", Leaf(Decimal(version)));
    }

    method GetExportableGeneralConfig() returns (r: Result<Tree>)
      ensures r == Export(View())
    {
      var general := GetGeneralConfig();
      var source := Get(kernelConfig, "sync_source");
      if source.None? {
        return Ok(Erase(Erase(general, "no_import"), "instance_name"));
      }
      var flagged := CollectFlags(source.value.children, PRIVATE_TAGS);
      if flagged.Err? {
        return Err;
      }
      var cs, names := general.children, flagged.value;
      var out := EMPTY;
      for i := 0 to |cs|
        invariant out == Tree("", Restrict(cs[..i], names))
      {
        assert cs[..i + 1][..i] == cs[..i];
        if cs[i].0 in names {
          out := Add(out, cs[i].0, cs[i].1);
        }
      }
      assert cs[..|cs|] == cs;
      return Ok(out);
    }

    static method CollectFlags(cs: seq<(string, Tree)>, skip: set<string>) returns (r: Result<seq<string>>)
      ensures r == Flags(cs, skip)
    {
      var names: seq<string> := [];
      for i := 0 to |cs|
        invariant Flags(cs[..i], skip) == Ok(names)
      {
        assert cs[..i + 1][..i] == cs[..i];
        if cs[i].0 !in skip {
          var b := ParseBool(cs[i].1.data);
          if b.None? {
            FlagsErr(cs, i + 1, skip);
            return Err;
          }
          if b.value {
            names := names + [cs[i].0];
          }
        }
      }
      assert cs[..|cs|] == cs;
      return Ok(names);
    }

    static lemma {:induction false} FlagsErr(cs: seq<(string, Tree)>, i: nat, skip: set<string>)
      requires i <= |cs| && Flags(cs[..i], skip).Err?
      ensures Flags(cs, skip).Err?
      decreases |cs| - i
    {
      if i == |cs| {
        assert cs[..i] == cs;
      } else {
        assert cs[..i + 1][..i] == cs[..i];
        FlagsErr(cs, i + 1, skip);
      }
    }

    method SetKconfig(incoming: Tree) returns (ok: bool)
      modifies this`kernelConfig
      ensures ok == SetKernel(old(kernelConfig), instanceName, incoming).Ok?
      ensures kernelConfig == Applied(old(kernelConfig), instanceName, incoming)
      ensures !ok ==> kernelConfig == old(kernelConfig)
    {
      var file := GetData(kernelConfig, "kernel-cfg");
      if file.None? {
        return false;
      }
      var dest := Get(kernelConfig, "sync_dest");
      if dest.None? {
        var noImport := Get(kernelConfig, "no_import");
        kernelConfig := incoming;
        if noImport.Some? {
          kernelConfig := Put(kernelConfig, "no_import", noImport.value);
        }
        kernelConfig := Add(kernelConfig, "kernel-cfg", Leaf(file.value));
        kernelConfig := PutData(kernelConfig, "instance_name", instanceName);
        return true;
      }
      var flagged := CollectFlags(dest.value.children, {});
      if flagged.Err? {
        return false;
      }
      var cs, names := incoming.children, flagged.value;
      for i := 0 to |cs|
        invariant kernelConfig == PutNamed(old(kernelConfig), cs[..i], names)
      {
        assert cs[..i + 1][..i] == cs[..i];
        if cs[i].0 in names {
          kernelConfig := Put(kernelConfig, cs[i].0, cs[i].1);
        }
      }
      assert cs[..|cs|] == cs;
      return true;
    }

    method StoreConfig(name: string, cfg: Tree) returns (overwrote: bool)
      modifies this`modulesConfigs
      ensures overwrote == (name in old(modulesConfigs))
      ensures modulesConfigs == old(modulesConfigs)[name := cfg]
    {
      overwrote := name in modulesConfigs;
      modulesConfigs := modulesConfigs[name := cfg];
    }

    method IsModuleImportable(name: string) returns (b: bool)
      ensures b == Importable(View(), name)
      ensures var t := Get(kernelConfig, "no_import");
              b <==> t.None? || forall i | 0 <= i < |t.value.children| :: t.value.children[i].0 != name
    {
      ImportableIff(View(), name);
      var t := Get(kernelConfig, "no_import");
      b := true;
      if t.Some? {
        var cs := t.value.children;
        for i := 0 to |cs|
          invariant b <==> forall k | 0 <= k < i :: cs[k].0 != name
        {
          if cs[i].0 == name {
            b := false;
          }
        }
      }
    }

    method SetVersion(v: uint64)
      modifies this`version
      ensures version == v
    {
      version := v;
    }
  }
}
