/** Which commands a remote client may send: a default per key, and a list of the commands
that differ from it. */
module RemoteSecurity {
  import opened PropertyTree
  import opened Configuration

  /** What is kept: the default of each key, and its exceptions. */
  datatype Tables = Tables(defaults: map<string, bool>, exceptions: map<string, seq<string>>)

  predicate IsCommand(name: string) {
    name != "pk" && name != "default"
  }

  /** A default that is missing or unreadable counts as `false`. */
  function DefaultOf(entry: Tree): bool {
    match GetData(entry, "default")
    case None => false
    case Some(s) => var b := ParseBool(s); b.Some? && b.value
  }

  /** The commands whose value differs from the default; an unreadable value throws. */
  function Exceptions(cs: seq<(string, Tree)>, byDefault: bool): Result<seq<string>> {
    if cs == [] then Ok([])
    else
      var last, before := cs[|cs| - 1], Exceptions(cs[..|cs| - 1], byDefault);
      if before.Err? || !IsCommand(last.0) then before
      else match ParseBool(last.1.data)
        case None => Err
        case Some(b) => if b != byDefault then Ok(before.value + [last.0]) else before
  }

  function RowOf(t: Tables, pk: string): seq<string> {
    if pk in t.exceptions then t.exceptions[pk] else []
  }

  /** One entry; the row of exceptions exists afterwards even if there are none. */
  function WithEntry(t: Tables, entry: Tree): Result<Tables> {
    var pk, byDefault := GetData(entry, "pk"), DefaultOf(entry);
    if pk.None? then Err
    else match Exceptions(entry.children, byDefault)
      case Err => Err
      case Ok(names) =>
        Ok(Tables(t.defaults[pk.value := byDefault], t.exceptions[pk.value := RowOf(t, pk.value) + names]))
  }

  function Process(entries: seq<Tree>): Result<Tables> {
    if entries == [] then Ok(Tables(map[], map[]))
    else
      var before := Process(entries[..|entries| - 1]);
      if before.Err? then Err else WithEntry(before.value, entries[|entries| - 1])
  }

  predicate Allows(t: Tables, pk: string, req: string) {
    pk in t.defaults && pk in t.exceptions &&
    if t.defaults[pk] then req !in t.exceptions[pk] else req in t.exceptions[pk]
  }

  /** Everything that decides about a request. */
  datatype Access = Access(unrestricted: bool, tables: Tables)

  predicate Permits(access: Access, pk: string, req: string) {
    access.unrestricted || Allows(access.tables, pk, req)
  }

  // ---- the direct reading of the configuration ----

  function FindEntry(entries: seq<Tree>, pk: string): Option<Tree> {
    if entries == [] then None
    else if GetData(entries[0], "pk") == Some(pk) then Some(entries[0])
    else FindEntry(entries[1..], pk)
  }

  /** The value given for the command, else the default of the key, else no. */
  predicate DirectlyAllowed(entries: seq<Tree>, pk: string, req: string) {
    match FindEntry(entries, pk)
    case None => false
    case Some(e) =>
      var v := if IsCommand(req) then GetData(e, req) else None;
      if v.Some? then ParseBool(v.value) == Some(true) else DefaultOf(e)
  }

  ghost predicate DistinctKeys(entries: seq<Tree>) {
    forall i, j | 0 <= i < j < |entries| :: GetData(entries[i], "pk") != GetData(entries[j], "pk")
  }

  lemma {:induction false} ExceptionsFacts(cs: seq<(string, Tree)>, byDefault: bool, req: string)
    requires DistinctNames(cs) && Exceptions(cs, byDefault).Ok?
    ensures var v := Find(cs, req);
            && (req in Exceptions(cs, byDefault).value <==>
                IsCommand(req) && v.Some? && ParseBool(v.value.data) == Some(!byDefault))
            && (IsCommand(req) && v.Some? ==> ParseBool(v.value.data).Some?)
  {
    if cs != [] {
      var front, last := cs[..|cs| - 1], cs[|cs| - 1];
      assert cs == front + [last];
      ExceptionsFacts(front, byDefault, req);
      FindAppend(front, [last], req);
      CountFind(front, last.0);
    }
  }

  /** What one entry amounts to. */
  lemma EntryAllows(t: Tables, entry: Tree, pk: string, req: string)
    requires WithEntry(t, entry).Ok? && GetData(entry, "pk") == Some(pk) && pk !in t.exceptions
    requires DistinctNames(entry.children)
    ensures Allows(WithEntry(t, entry).value, pk, req) == DirectlyAllowed([entry], pk, req)
  {
    ExceptionsFacts(entry.children, DefaultOf(entry), req);
    assert RowOf(t, pk) == [];
  }

  lemma {:induction false} TablesHoldKeys(entries: seq<Tree>, pk: string)
    requires Process(entries).Ok?
    ensures pk in Process(entries).value.defaults <==> FindEntry(entries, pk).Some?
    ensures pk in Process(entries).value.exceptions <==> FindEntry(entries, pk).Some?
  {
    if entries != [] {
      var front, last := entries[..|entries| - 1], entries[|entries| - 1];
      assert entries == front + [last];
      TablesHoldKeys(front, pk);
      FindEntryConcat(front, last, pk);
    }
  }

  lemma {:induction false} FindEntryConcat(front: seq<Tree>, last: Tree, pk: string)
    ensures FindEntry(front + [last], pk) ==
            if FindEntry(front, pk).Some? then FindEntry(front, pk)
            else if GetData(last, "pk") == Some(pk) then Some(last) else None
  {
    if front == [] {
      assert front + [last] == [last];
    } else {
      assert (front + [last])[1..] == front[1..] + [last];
      FindEntryConcat(front[1..], last, pk);
    }
  }

  lemma {:induction false} EntryNotFound(entries: seq<Tree>, pk: string)
    requires forall i | 0 <= i < |entries| :: GetData(entries[i], "pk") != Some(pk)
    ensures FindEntry(entries, pk).None?
  {
    if entries != [] { EntryNotFound(entries[1..], pk); }
  }

  /** For every configuration with distinct keys and distinct commands per key, the compressed
      tables answer every request of every client, known or not, as a direct look at the
      configuration would. */
  lemma {:induction false} TablesAnswerDirectly(entries: seq<Tree>, pk: string, req: string)
    requires Process(entries).Ok? && DistinctKeys(entries)
    requires forall i | 0 <= i < |entries| :: DistinctNames(entries[i].children)
    ensures Allows(Process(entries).value, pk, req) == DirectlyAllowed(entries, pk, req)
  {
    if entries != [] {
      var front, last := entries[..|entries| - 1], entries[|entries| - 1];
      assert entries == front + [last];
      var t := Process(front).value;
      TablesAnswerDirectly(front, pk, req);
      FindEntryConcat(front, last, pk);
      TablesHoldKeys(front, pk);
      if GetData(last, "pk") == Some(pk) {
        forall i | 0 <= i < |front| ensures GetData(front[i], "pk") != Some(pk) {
          assert entries[i] == front[i] && entries[|front|] == last;
        }
        EntryNotFound(front, pk);
        EntryAllows(t, last, pk, req);
      }
    }
  }

  lemma {:induction false} EntryFound(entries: seq<Tree>, i: nat, pk: string)
    requires DistinctKeys(entries) && i < |entries| && GetData(entries[i], "pk") == Some(pk)
    ensures FindEntry(entries, pk) == Some(entries[i])
  {
    if i > 0 {
      assert GetData(entries[0], "pk") != GetData(entries[i], "pk");
      assert entries[1..][i - 1] == entries[i];
      EntryFound(entries[1..], i - 1, pk);
    }
  }

  /** What the tables answer about a known key, from the texts of its entry alone: the command's own
      value decides if there is one, else the default, and without a default the answer is no. */
  lemma AllowsMeaning(entries: seq<Tree>, i: nat, pk: string, req: string)
    requires Process(entries).Ok? && DistinctKeys(entries)
    requires forall k | 0 <= k < |entries| :: DistinctNames(entries[k].children)
    requires i < |entries| && GetData(entries[i], "pk") == Some(pk)
    ensures var own, byDefault := GetData(entries[i], req), GetData(entries[i], "default");
            Allows(Process(entries).value, pk, req) <==>
            if req != "pk" && req != "default" && own.Some? then own.value == "1" || own.value == "true"
            else byDefault == Some("1") || byDefault == Some("true")
  {
    TablesAnswerDirectly(entries, pk, req);
    EntryFound(entries, i, pk);
    if GetData(entries[i], req).Some? { ParseBoolMeaning(GetData(entries[i], req).value); }
    if GetData(entries[i], "default").Some? { ParseBoolMeaning(GetData(entries[i], "default").value); }
  }

  /** A key that no entry names may do nothing. */
  lemma UnknownIsRefused(entries: seq<Tree>, pk: string, req: string)
    requires Process(entries).Ok? && forall i | 0 <= i < |entries| :: GetData(entries[i], "pk") != Some(pk)
    ensures !Allows(Process(entries).value, pk, req)
  {
    TablesHoldKeys(entries, pk);
    EntryNotFound(entries, pk);
  }

  /** An entry can be used exactly if it names a key and every command in it has a truth value. */
  predicate Usable(entry: Tree) {
    && Get(entry, "pk").Some?
    && forall j | 0 <= j < |entry.children| ::
         entry.children[j].0 == "pk" || entry.children[j].0 == "default" || ParseBool(entry.children[j].1.data).Some?
  }

  lemma {:induction false} ExceptionsIff(cs: seq<(string, Tree)>, byDefault: bool)
    ensures Exceptions(cs, byDefault).Ok? <==>
            forall j | 0 <= j < |cs| :: cs[j].0 == "pk" || cs[j].0 == "default" || ParseBool(cs[j].1.data).Some?
  {
    if cs != [] {
      var front := cs[..|cs| - 1];
      assert forall j | 0 <= j < |front| :: front[j] == cs[j];
      ExceptionsIff(front, byDefault);
    }
  }

  lemma {:induction false} ProcessIff(entries: seq<Tree>)
    ensures Process(entries).Ok? <==> forall i | 0 <= i < |entries| :: Usable(entries[i])
  {
    if entries != [] {
      var front, last := entries[..|entries| - 1], entries[|entries| - 1];
      assert forall i | 0 <= i < |front| :: front[i] == entries[i];
      ProcessIff(front);
      ExceptionsIff(last.children, DefaultOf(last));
    }
  }

  // ---- the object ----

  class RemoteControlSecurity {
    var unrestricted: bool
    var defaultPermissions: map<string, bool>
    var permissions: map<string, seq<string>>

    ghost function View(): Tables
      reads this
    {
      Tables(defaultPermissions, permissions)
    }

    constructor ()
      ensures !unrestricted && View() == Tables(map[], map[])
    {
      unrestricted, defaultPermissions, permissions := false, map[], map[];
    }

    method ProcessSecurityEntry(entry: Tree) returns (ok: bool)
      modifies this`defaultPermissions, this`permissions
      ensures ok == WithEntry(old(View()), entry).Ok?
      ensures ok ==> Ok(View()) == WithEntry(old(View()), entry)
    {
      var key := GetData(entry, "pk");
      if key.None? { return false; }
      var pk, byDefault, cs := key.value, DefaultOf(entry), entry.children;
      defaultPermissions := defaultPermissions[pk := byDefault];
      var row := if pk in permissions then permissions[pk] else [];
      for i := 0 to |cs|
        invariant Exceptions(cs[..i], byDefault).Ok?
        invariant row == RowOf(old(View()), pk) + Exceptions(cs[..i], byDefault).value
        invariant permissions == old(permissions) && defaultPermissions == old(defaultPermissions)[pk := byDefault]
      {
        assert cs[..i + 1][..i] == cs[..i];
        if IsCommand(cs[i].0) {
          var allowed := ParseBool(cs[i].1.data);
          if allowed.None? {
            ExceptionsErr(cs, i + 1, byDefault);
            return false;
          }
          if allowed.value != byDefault {
            row := row + [cs[i].0];
          }
        }
      }
      assert cs[..|cs|] == cs;
      permissions := permissions[pk := row];
      return true;
    }

    static lemma {:induction false} ExceptionsErr(cs: seq<(string, Tree)>, i: nat, byDefault: bool)
      requires i <= |cs| && Exceptions(cs[..i], byDefault).Err?
      ensures Exceptions(cs, byDefault).Err?
      decreases |cs| - i
    {
      if i == |cs| {
        assert cs[..i] == cs;
      } else {
        assert cs[..i + 1][..i] == cs[..i];
        ExceptionsErr(cs, i + 1, byDefault);
      }
    }

    /** Without a security section everything is allowed. */
    method ProcessConfig(entries: Option<seq<Tree>>) returns (ok: bool)
      requires !unrestricted && View() == Tables(map[], map[])
      modifies this
      ensures unrestricted == entries.None?
      ensures entries.Some? ==> ok == Process(entries.value).Ok?
      ensures entries.Some? && ok ==> Ok(View()) == Process(entries.value)
    {
      if entries.None? {
        unrestricted := true;
        return true;
      }
      var es := entries.value;
      for i := 0 to |es|
        invariant !unrestricted && Ok(View()) == Process(es[..i])
      {
        assert es[..i + 1][..i] == es[..i];
        var one := ProcessSecurityEntry(es[i]);
        if !one {
          ProcessErr(es, i + 1);
          return false;
        }
      }
      assert es[..|es|] == es;
      return true;
    }

    static lemma {:induction false} ProcessErr(es: seq<Tree>, i: nat)
      requires i <= |es| && Process(es[..i]).Err?
      ensures Process(es).Err?
      decreases |es| - i
    {
      if i == |es| {
        assert es[..i] == es;
      } else {
        assert es[..i + 1][..i] == es[..i];
        ProcessErr(es, i + 1);
      }
    }

    method AllowRequest(pk: string, req: string) returns (allowed: bool)
      ensures allowed == Permits(Access(unrestricted, View()), pk, req)
    {
      if unrestricted { return true; }
      if pk !in defaultPermissions || pk !in permissions { return false; }
      var cmds := permissions[pk];
      if defaultPermissions[pk] {
        return req !in cmds;
      }
      return req in cmds;
    }
  }
}
