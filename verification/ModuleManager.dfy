/** Loaded modules, kept in a set that is ordered by nothing but the level each module's
stored configuration gives. A module whose level is already taken is dropped in silence. */
module Modules {
  import opened PropertyTree
  import opened Configuration

  datatype Loaded = Loaded(name: string, running: bool)

  datatype Event = Started(name: string) | Stopped(name: string)

  datatype LoadResult = LoadDone | LoadRefused | LoadThrew

  const DEFAULT_LEVEL: int := 100

  function ParseNat(s: string): Option<nat> {
    if s == "" then None
    else
      var c := s[|s| - 1];
      if !('0' <= c <= '9') then None
      else if |s| == 1 then Some(c as int - '0' as int)
      else
        var high := ParseNat(s[..|s| - 1]);
        if high.None? then None else Some(10 * high.value + (c as int - '0' as int))
  }

  /** The level a module's tree asks for; one that is missing, unreadable or out of the range
      of an `int` counts as the default. */
  function LevelOf(t: Tree): int {
    match GetData(t, "level")
    case None => DEFAULT_LEVEL
    case Some(s) =>
      var negative := s != "" && s[0] == '-';
      var n := ParseNat(if s != "" && (negative || s[0] == '+') then s[1..] else s);
      if n.None? then DEFAULT_LEVEL
      else
        var v: int := if negative then 0 - n.value else n.value;
        if -0x8000_0000 <= v < 0x8000_0000 then v else DEFAULT_LEVEL
  }

  // ---- what the text of a level means ----

  predicate AllDigits(s: string) {
    forall i | 0 <= i < |s| :: '0' <= s[i] <= '9'
  }

  function Pow10(n: nat): nat {
    if n == 0 then 1 else 10 * Pow10(n - 1)
  }

  lemma NotNegative(d: int, p: int)
    requires d >= 0 && p >= 0
    ensures d * p >= 0
  {
  }

  /** Each digit weighed by its place. */
  function PlaceValue(s: string): nat
    requires AllDigits(s)
  {
    if s == "" then 0
    else
      NotNegative(s[0] as int - '0' as int, Pow10(|s| - 1));
      (s[0] as int - '0' as int) * Pow10(|s| - 1) + PlaceValue(s[1..])
  }

  lemma {:induction false} PlaceValueAppend(s: string, c: char)
    requires AllDigits(s) && '0' <= c <= '9'
    ensures AllDigits(s + [c]) && PlaceValue(s + [c]) == 10 * PlaceValue(s) + (c as int - '0' as int)
  {
    if s == "" {
      assert s + [c] == [c] && [c][1..] == "" && Pow10(0) == 1;
    } else {
      assert (s + [c])[1..] == s[1..] + [c];
      PlaceValueAppend(s[1..], c);
      TimesTen(s[0] as int - '0' as int, Pow10(|s| - 1));
    }
  }

  lemma TimesTen(d: int, p: int)
    ensures d * (10 * p) == 10 * (d * p)
  {
  }

  /** Exactly the non-empty texts of digits are numbers, and they mean the sum of their digits
      weighed by place. */
  lemma {:induction false} ParseNatMeaning(s: string)
    ensures ParseNat(s) == if s != "" && AllDigits(s) then Some(PlaceValue(s)) else None
  {
    if s != "" {
      var front, c := s[..|s| - 1], s[|s| - 1];
      assert s == front + [c];
      ParseNatMeaning(front);
      if '0' <= c <= '9' && AllDigits(front) { PlaceValueAppend(front, c); }
    }
  }

  /** Numbers survive being printed and read; nothing but 0 is printed with a leading zero. */
  lemma {:induction false} DecimalReadsBack(n: nat)
    ensures ParseNat(Decimal(n)) == Some(n)
    ensures Decimal(n) != "" && AllDigits(Decimal(n)) && (Decimal(n)[0] == '0' ==> n == 0)
  {
    if n >= 10 {
      DecimalReadsBack(n / 10);
      var s := Decimal(n);
      assert s[..|s| - 1] == Decimal(n / 10);
    }
  }

  /** A number as it stands in a configuration file. */
  function Printed(n: int): string {
    if n < 0 then "-" + Decimal(-n) else Decimal(n)
  }

  lemma LevelOfPrinted(t: Tree, n: int)
    requires GetData(t, "level") == Some(Printed(n))
    ensures LevelOf(t) == if -0x8000_0000 <= n < 0x8000_0000 then n else 100
  {
    DecimalReadsBack(if n < 0 then -n else n);
    if n < 0 {
      assert Printed(n)[0] == '-' && Printed(n)[1..] == Decimal(-n);
    } else {
      assert '0' <= Printed(n)[0] <= '9';
    }
  }

  /** The level of every tree: the number its text spells, with a sign or without, if that fits an
      `int`, and 100 for anything else. */
  lemma LevelMeaning(t: Tree)
    ensures GetData(t, "level").None? ==> LevelOf(t) == 100
    ensures GetData(t, "level").Some? ==>
              var s := GetData(t, "level").value;
              var digits := if s != "" && (s[0] == '-' || s[0] == '+') then s[1..] else s;
              if digits == "" || !AllDigits(digits) then LevelOf(t) == 100
              else
                var v: int := if s[0] == '-' then 0 - PlaceValue(digits) else PlaceValue(digits);
                LevelOf(t) == if -0x8000_0000 <= v < 0x8000_0000 then v else 100
  {
    if GetData(t, "level").Some? {
      var s := GetData(t, "level").value;
      ParseNatMeaning(if s != "" && (s[0] == '-' || s[0] == '+') then s[1..] else s);
    }
  }

  function Level(configs: map<string, Tree>, name: string): int {
    if name in configs then LevelOf(configs[name]) else DEFAULT_LEVEL
  }

  function Levels(configs: map<string, Tree>): string -> int {
    n => Level(configs, n)
  }

  function LoadedNames(ms: seq<Loaded>): seq<string> {
    seq(|ms|, i requires 0 <= i < |ms| => ms[i].name)
  }

  /** Inserting in a set ordered by level. */
  function Insert(ms: seq<Loaded>, lv: string -> int, m: Loaded): seq<Loaded> {
    if ms == [] then [m]
    else if lv(ms[0].name) < lv(m.name) then [ms[0]] + Insert(ms[1..], lv, m)
    else if lv(m.name) < lv(ms[0].name) then [m] + ms
    else ms
  }

  predicate Sorted(ms: seq<Loaded>, lv: string -> int) {
    forall i, j | 0 <= i < j < |ms| :: lv(ms[i].name) < lv(ms[j].name)
  }

  /** The level depends on nothing but the name, so no name can be in the set twice. */
  lemma SortedNamesDistinct(ms: seq<Loaded>, lv: string -> int)
    requires Sorted(ms, lv)
    ensures forall i, j | 0 <= i < j < |ms| :: ms[i].name != ms[j].name
  {
  }

  /** `name` was asked for, and nothing of the same level before it. */
  ghost predicate IsFirst(asked: seq<string>, lv: string -> int, name: string) {
    exists i :: 0 <= i < |asked| && asked[i] == name && FreeBefore(asked, lv, i)
  }

  ghost predicate FreeBefore(asked: seq<string>, lv: string -> int, i: nat)
    requires i < |asked|
  {
    forall j | 0 <= j < i :: lv(asked[j]) != lv(asked[i])
  }

  /** The set holds exactly the first module asked for at each level, in level order. */
  ghost predicate Holds(ms: seq<Loaded>, asked: seq<string>, lv: string -> int) {
    && Sorted(ms, lv)
    && forall n :: n in LoadedNames(ms) <==> IsFirst(asked, lv, n)
  }

  lemma SortedTail(ms: seq<Loaded>, lv: string -> int)
    requires Sorted(ms, lv) && ms != []
    ensures Sorted(ms[1..], lv) && forall x | x in ms[1..] :: lv(ms[0].name) < lv(x.name)
  {
    var rest := ms[1..];
    forall i, j | 0 <= i < j < |rest| ensures lv(rest[i].name) < lv(rest[j].name) {
      assert rest[i] == ms[i + 1] && rest[j] == ms[j + 1];
    }
    forall x | x in rest ensures lv(ms[0].name) < lv(x.name) {
      var i :| 0 <= i < |rest| && rest[i] == x;
      assert x == ms[i + 1];
    }
  }

  lemma SortedCons(m: Loaded, rest: seq<Loaded>, lv: string -> int)
    requires Sorted(rest, lv) && forall x | x in rest :: lv(m.name) < lv(x.name)
    ensures Sorted([m] + rest, lv)
  {
    var ms := [m] + rest;
    forall i, j | 0 <= i < j < |ms| ensures lv(ms[i].name) < lv(ms[j].name) {
      assert ms[j] == rest[j - 1] && ms[j] in rest;
      if i > 0 { assert ms[i] == rest[i - 1]; }
    }
  }

  /** Some module of the set has this level. */
  ghost predicate Taken(ms: seq<Loaded>, lv: string -> int, level: int) {
    exists x :: x in ms && lv(x.name) == level
  }

  lemma {:induction false} InsertFacts(ms: seq<Loaded>, lv: string -> int, m: Loaded)
    requires Sorted(ms, lv)
    ensures var r := Insert(ms, lv, m);
            && Sorted(r, lv)
            && (Taken(ms, lv, lv(m.name)) ==> r == ms)
            && (!Taken(ms, lv, lv(m.name)) ==> forall x :: x in r <==> x in ms || x == m)
  {
    if ms != [] {
      var rest := ms[1..];
      assert ms == [ms[0]] + rest && ms[0] in ms;
      SortedTail(ms, lv);
      if lv(ms[0].name) < lv(m.name) {
        InsertFacts(rest, lv, m);
        SortedCons(ms[0], Insert(rest, lv, m), lv);
        assert Taken(ms, lv, lv(m.name)) <==> Taken(rest, lv, lv(m.name));
      } else if lv(m.name) < lv(ms[0].name) {
        SortedCons(m, ms, lv);
      }
    }
  }

  /** The first module of a level is decided when it is asked for. */
  lemma FirstExtends(asked: seq<string>, lv: string -> int, name: string, n: string)
    ensures IsFirst(asked + [name], lv, n) <==>
            IsFirst(asked, lv, n)
            || (n == name && forall j | 0 <= j < |asked| :: lv(asked[j]) != lv(name))
  {
    var longer := asked + [name];
    forall i | 0 <= i < |asked| ensures FreeBefore(longer, lv, i) == FreeBefore(asked, lv, i) {
      assert forall j | 0 <= j <= i :: longer[j] == asked[j];
    }
    if IsFirst(asked, lv, n) {
      var i :| 0 <= i < |asked| && asked[i] == n && FreeBefore(asked, lv, i);
      assert longer[i] == n && FreeBefore(longer, lv, i);
    }
    if n == name && forall j | 0 <= j < |asked| :: lv(asked[j]) != lv(name) {
      assert longer[|asked|] == n && FreeBefore(longer, lv, |asked|);
    }
    if IsFirst(longer, lv, n) {
      var i :| 0 <= i < |longer| && longer[i] == n && FreeBefore(longer, lv, i);
      if i < |asked| {
        assert asked[i] == n && FreeBefore(asked, lv, i);
      } else {
        forall j | 0 <= j < |asked| ensures lv(asked[j]) != lv(name) {
          assert longer[j] == asked[j];
        }
      }
    }
  }

  /** Every level that was asked for is represented. */
  lemma {:induction false} LevelHasFirst(asked: seq<string>, lv: string -> int, i: nat)
    requires i < |asked|
    ensures exists n :: IsFirst(asked, lv, n) && lv(n) == lv(asked[i])
    decreases i
  {
    if FreeBefore(asked, lv, i) {
      assert IsFirst(asked, lv, asked[i]);
    } else {
      var j :| 0 <= j < i && lv(asked[j]) == lv(asked[i]);
      LevelHasFirst(asked, lv, j);
    }
  }

  /** Loading one more module keeps the set what it should be. */
  lemma InsertHolds(ms: seq<Loaded>, asked: seq<string>, lv: string -> int, name: string)
    requires Holds(ms, asked, lv)
    ensures Holds(Insert(ms, lv, Loaded(name, false)), asked + [name], lv)
  {
    var r := Insert(ms, lv, Loaded(name, false));
    InsertFacts(ms, lv, Loaded(name, false));
    LevelTakenIff(ms, asked, lv, name);
    forall n ensures n in LoadedNames(r) <==> IsFirst(asked + [name], lv, n) {
      FirstExtends(asked, lv, name, n);
      NamesIn(ms, n);
      NamesIn(r, n);
    }
  }

  /** A level is taken in the set exactly when a module of that level was asked for. */
  lemma LevelTakenIff(ms: seq<Loaded>, asked: seq<string>, lv: string -> int, name: string)
    requires Holds(ms, asked, lv)
    ensures Taken(ms, lv, lv(name)) <==> exists j :: 0 <= j < |asked| && lv(asked[j]) == lv(name)
  {
    if m :| m in ms && lv(m.name) == lv(name) {
      NamesIn(ms, m.name);
      assert IsFirst(asked, lv, m.name);
      var k :| 0 <= k < |asked| && asked[k] == m.name && FreeBefore(asked, lv, k);
      assert lv(asked[k]) == lv(name);
    }
    if j :| 0 <= j < |asked| && lv(asked[j]) == lv(name) {
      LevelHasFirst(asked, lv, j);
      var n :| IsFirst(asked, lv, n) && lv(n) == lv(asked[j]);
      NamesIn(ms, n);
    }
  }

  lemma NamesIn(ms: seq<Loaded>, n: string)
    ensures n in LoadedNames(ms) <==> exists m :: m in ms && m.name == n
  {
    if n in LoadedNames(ms) {
      var i :| 0 <= i < |ms| && LoadedNames(ms)[i] == n;
      assert ms[i] in ms && ms[i].name == n;
    }
    if m :| m in ms && m.name == n {
      var i :| 0 <= i < |ms| && ms[i] == m;
      assert LoadedNames(ms)[i] == n;
    }
  }

  /** Storing a configuration for a module that was never asked for does not disturb the set. */
  lemma StoreOtherKeeps(ms: seq<Loaded>, asked: seq<string>, configs: map<string, Tree>, name: string, t: Tree)
    requires Holds(ms, asked, Levels(configs)) && name !in asked
    ensures Holds(ms, asked, Levels(configs[name := t]))
  {
    SameLevelsHold(ms, asked, Levels(configs), Levels(configs[name := t]));
  }

  lemma SameLevelsHold(ms: seq<Loaded>, asked: seq<string>, lv: string -> int, lv': string -> int)
    requires Holds(ms, asked, lv) && forall n | n in asked :: lv'(n) == lv(n)
    ensures Holds(ms, asked, lv')
  {
    forall n ensures IsFirst(asked, lv', n) == IsFirst(asked, lv, n) {
      forall i | 0 <= i < |asked| ensures FreeBefore(asked, lv', i) == FreeBefore(asked, lv, i) {
        assert forall j | 0 <= j <= i :: lv'(asked[j]) == lv(asked[j]);
      }
    }
    forall i | 0 <= i < |ms| ensures ms[i].name in asked {
      assert LoadedNames(ms)[i] == ms[i].name;
      assert IsFirst(asked, lv, ms[i].name);
    }
  }

  /** A tree for number `i` of the set whose level lies between the neighbours' levels. */
  predicate FitsAt(ms: seq<Loaded>, configs: map<string, Tree>, i: nat, t: Tree)
    requires i < |ms|
  {
    && (i > 0 ==> Level(configs, ms[i - 1].name) < LevelOf(t))
    && (i + 1 < |ms| ==> LevelOf(t) < Level(configs, ms[i + 1].name))
  }

  /** Storing a configuration for a loaded module keeps the order exactly when the new level
      still lies between its neighbours' levels. */
  lemma StoreKeepsOrderIff(ms: seq<Loaded>, configs: map<string, Tree>, i: nat, t: Tree)
    requires Sorted(ms, Levels(configs)) && i < |ms|
    ensures Sorted(ms, Levels(configs[ms[i].name := t])) <==> FitsAt(ms, configs, i, t)
  {
    MoveKeepsOrderIff(ms, Levels(configs), Levels(configs[ms[i].name := t]), i);
  }

  lemma MoveKeepsOrderIff(ms: seq<Loaded>, lv: string -> int, lv': string -> int, i: nat)
    requires Sorted(ms, lv) && i < |ms|
    requires forall n | n != ms[i].name :: lv'(n) == lv(n)
    ensures Sorted(ms, lv') <==>
            && (i > 0 ==> lv(ms[i - 1].name) < lv'(ms[i].name))
            && (i + 1 < |ms| ==> lv'(ms[i].name) < lv(ms[i + 1].name))
  {
    forall j | 0 <= j < |ms| && j != i ensures lv'(ms[j].name) == lv(ms[j].name) {
      if j < i { assert lv(ms[j].name) < lv(ms[i].name); } else { assert lv(ms[i].name) < lv(ms[j].name); }
    }
    if i > 0 { assert Sorted(ms, lv') ==> lv'(ms[i - 1].name) < lv'(ms[i].name); }
    if i + 1 < |ms| { assert Sorted(ms, lv') ==> lv'(ms[i].name) < lv'(ms[i + 1].name); }
  }

  /** The order in which running modules are started, and its reverse. */
  function Running(ms: seq<Loaded>): seq<string> {
    if ms == [] then []
    else if ms[0].running then [ms[0].name] + Running(ms[1..]) else Running(ms[1..])
  }

  /** Which of the modules run, in their order. */
  lemma {:induction false} RunningParts(a: seq<Loaded>, b: seq<Loaded>, m: Loaded)
    ensures Running(a + b) == Running(a) + Running(b)
    ensures Running([m]) == if m.running then [m.name] else []
  {
    assert [m][1..] == [];
    if a == [] {
      assert a + b == b;
    } else {
      assert (a + b)[1..] == a[1..] + b;
      RunningParts(a[1..], b, m);
    }
  }

  function StopsOf(names: seq<string>): seq<Event> {
    if names == [] then [] else StopsOf(names[1..]) + [Stopped(names[0])]
  }

  function StartsOf(ms: seq<Loaded>): seq<Event> {
    seq(|ms|, i requires 0 <= i < |ms| => Started(ms[i].name))
  }

  lemma {:induction false} StopsAt(names: seq<string>, i: nat)
    requires i < |names|
    ensures |StopsOf(names)| == |names| && StopsOf(names)[i] == Stopped(names[|names| - 1 - i])
  {
    if |names| > 1 { StopsAt(names[1..], if i < |names| - 1 then i else 0); }
  }

  lemma {:induction false} RunningAll(ms: seq<Loaded>)
    requires forall i | 0 <= i < |ms| :: ms[i].running
    ensures Running(ms) == LoadedNames(ms)
  {
    if ms != [] {
      RunningAll(ms[1..]);
      assert LoadedNames(ms) == [ms[0].name] + LoadedNames(ms[1..]);
    }
  }

  /** Modules stop in the exact reverse of the order in which they were started. */
  lemma StopsMirrorStarts(ms: seq<Loaded>)
    requires forall i | 0 <= i < |ms| :: ms[i].running
    ensures var stops := StopsOf(Running(ms));
            && |stops| == |ms|
            && forall i | 0 <= i < |ms| :: stops[i] == Stopped(StartsOf(ms)[|ms| - 1 - i].name)
  {
    RunningAll(ms);
    forall i | 0 <= i < |ms| ensures StopsOf(Running(ms))[i] == Stopped(StartsOf(ms)[|ms| - 1 - i].name) {
      StopsAt(LoadedNames(ms), i);
    }
    if ms != [] { StopsAt(LoadedNames(ms), 0); }
  }

  class ModuleManager {
    const config: ConfigManager
    const available: set<string>   // library files that can be found and opened
    var modules: seq<Loaded>
    var events: seq<Event>
    ghost var asked: seq<string>   // what was loaded since the set was last cleared

    ghost predicate Valid()
      reads this, config
    {
      && Holds(modules, asked, Levels(config.modulesConfigs))
      && (forall i | 0 <= i < |asked| :: asked[i] in config.modulesConfigs)
    }

    constructor (config: ConfigManager, available: set<string>)
      ensures this.config == config && this.available == available
      ensures modules == [] && asked == [] && events == [] && Valid()
    {
      this.config, this.available := config, available;
      modules, events, asked := [], [], [];
    }

    /** With nothing loaded, any configuration may be stored. */
    lemma ClearIsValid()
      requires modules == [] && asked == []
      ensures Valid()
    {
    }

    /** Loading needs the set in order, as `std::set` does. */
    method LoadModule(name: string) returns (r: LoadResult)
      requires Sorted(modules, Levels(config.modulesConfigs)) && name in config.modulesConfigs
      modifies this
      ensures Sorted(modules, Levels(config.modulesConfigs)) && events == old(events)
      ensures var file := GetData(config.modulesConfigs[name], "file");
              r == if file.None? then LoadThrew else if file.value in available then LoadDone else LoadRefused
      ensures modules ==
              if r == LoadDone then Insert(old(modules), Levels(config.modulesConfigs), Loaded(name, false))
              else old(modules)
      ensures asked == if r == LoadDone then old(asked) + [name] else old(asked)
      ensures (forall m | m in old(modules) :: !m.running) ==> forall m | m in modules :: !m.running
      ensures old(Valid()) ==> Valid()
    {
      var file := GetData(config.modulesConfigs[name], "file");
      if file.None? { return LoadThrew; }
      if file.value !in available { return LoadRefused; }
      if Valid() { InsertHolds(modules, asked, Levels(config.modulesConfigs), name); }
      InsertFacts(modules, Levels(config.modulesConfigs), Loaded(name, false));
      modules := Insert(modules, Levels(config.modulesConfigs), Loaded(name, false));
      asked := asked + [name];
      return LoadDone;
    }

    /** Starts the modules in the order of the set; the first that cannot start ends it. */
    method InitModules(failing: set<string>) returns (ok: bool)
      requires forall m | m in modules :: !m.running
      modifies this`modules, this`events
      ensures LoadedNames(modules) == LoadedNames(old(modules)) && (old(Valid()) ==> Valid())
      ensures ok ==> events == old(events) + StartsOf(modules) && forall m | m in modules :: m.running
      ensures ok ==> |events| == |old(events)| + |modules|
      ensures ok ==> forall i | 0 <= i < |modules| :: events[|old(events)| + i] == Started(modules[i].name)
      ensures ok ==> forall m | m in modules :: m.name !in failing
      ensures !ok ==> exists k :: 0 <= k < |modules| && StoppedAt(modules, failing, k)
                               && events == old(events) + StartsOf(modules[..k])
    {
      var i := 0;
      while i < |modules|
        invariant 0 <= i <= |modules| == |old(modules)|
        invariant LoadedNames(modules) == LoadedNames(old(modules))
        invariant forall k | 0 <= k < |modules| :: modules[k].running <==> k < i
        invariant forall k | 0 <= k < i :: modules[k].name !in failing
        invariant events == old(events) + StartsOf(modules[..i])
      {
        if modules[i].name in failing {
          assert StoppedAt(modules, failing, i);
          if old(Valid()) { SameNamesHold(old(modules), modules, asked, Levels(config.modulesConfigs)); }
          return false;
        }
        events := events + [Started(modules[i].name)];
        ghost var before := modules;
        modules := modules[i := modules[i].(running := true)];
        assert LoadedNames(modules) == LoadedNames(before);
        assert StartsOf(modules[..i + 1]) == StartsOf(before[..i]) + [Started(modules[i].name)];
        i := i + 1;
      }
      assert modules[..|modules|] == modules;
      if old(Valid()) { SameNamesHold(old(modules), modules, asked, Levels(config.modulesConfigs)); }
      return true;
    }

    /** Number `k` is the first of the modules that cannot start, and those before it run. */
    static ghost predicate StoppedAt(ms: seq<Loaded>, failing: set<string>, k: nat)
      requires k < |ms|
    {
      && ms[k].name in failing
      && (forall j | 0 <= j < k :: ms[j].name !in failing)
      && (forall j | 0 <= j < |ms| :: ms[j].running <==> j < k)
    }

    static lemma SameNamesHold(ms: seq<Loaded>, ms': seq<Loaded>, asked: seq<string>, lv: string -> int)
      requires LoadedNames(ms') == LoadedNames(ms) && Holds(ms, asked, lv)
      ensures Holds(ms', asked, lv)
    {
      assert |ms| == |LoadedNames(ms)| == |ms'|;
      forall i | 0 <= i < |ms| ensures ms'[i].name == ms[i].name {
        assert LoadedNames(ms')[i] == LoadedNames(ms)[i];
      }
    }

    /** Stops what is running, last started first. A hard stop also forgets every module. */
    method StopModules(soft: bool)
      modifies this
      ensures events == old(events) + StopsOf(Running(old(modules)))
      ensures !soft || old(Valid()) ==> Valid()
      ensures soft ==> modules == old(modules) && asked == old(asked)
      ensures !soft ==> modules == [] && asked == []
    {
      ghost var ms := modules;
      var i := |modules|;
      while i > 0
        invariant 0 <= i <= |modules| == |ms|
        invariant soft ==> modules == ms
        invariant forall k | 0 <= k < i :: modules[k] == ms[k]
        invariant asked == old(asked)
        invariant events == old(events) + StopsOf(Running(ms[i..]))
      {
        i := i - 1;
        RunningStep(ms, i);
        if modules[i].running {
          events := events + [Stopped(modules[i].name)];
          if !soft {
            modules := modules[i := modules[i].(running := false)];
          }
        }
      }
      assert ms[0..] == ms;
      if !soft {
        modules, asked := [], [];
      }
    }

    static lemma RunningStep(ms: seq<Loaded>, i: nat)
      requires i < |ms|
      ensures StopsOf(Running(ms[i..]))
           == StopsOf(Running(ms[i + 1..])) + if ms[i].running then [Stopped(ms[i].name)] else []
    {
      assert ms[i..][1..] == ms[i + 1..];
      if ms[i].running {
        assert Running(ms[i..])[1..] == Running(ms[i + 1..]);
      }
    }
  }

  // ---- start-up ----

  /** The configurations that start-up stores. */
  function Stored(boot: seq<(string, Tree)>): map<string, Tree> {
    if boot == [] then map[]
    else Stored(boot[..|boot| - 1])[boot[|boot| - 1].0 := boot[|boot| - 1].1]
  }

  /** How loading ends. A repeated name replaces the configuration of a loaded module; if that
      takes the set out of order, what `std::set` does next is undefined. */
  datatype LoadingEnd = AllLoaded | NotLoaded | Disturbed

  datatype Loading = Loading(modules: seq<Loaded>, end: LoadingEnd)

  function LoadBoot(boot: seq<(string, Tree)>, available: set<string>): Loading {
    if boot == [] then Loading([], AllLoaded)
    else
      var before, last, lv := LoadBoot(boot[..|boot| - 1], available), boot[|boot| - 1], Levels(Stored(boot));
      var file := GetData(last.1, "file");
      if before.end != AllLoaded then before
      else if file.None? then before.(end := NotLoaded)
      else if !Sorted(before.modules, lv) then before.(end := Disturbed)
      else if file.value !in available then before.(end := NotLoaded)
      else Loading(Insert(before.modules, lv, Loaded(last.0, false)), AllLoaded)
  }

  /** A name that is repeated is repeated with the same level. */
  ghost predicate SteadyLevels(boot: seq<(string, Tree)>) {
    forall i, j | 0 <= i < j < |boot| && boot[i].0 == boot[j].0 :: LevelOf(boot[i].1) == LevelOf(boot[j].1)
  }

  lemma {:induction false} SteadyLevel(boot: seq<(string, Tree)>, i: nat)
    requires SteadyLevels(boot) && i < |boot|
    ensures boot[i].0 in Stored(boot) && LevelOf(Stored(boot)[boot[i].0]) == LevelOf(boot[i].1)
  {
    if i < |boot| - 1 { SteadyLevel(boot[..|boot| - 1], i); }
  }

  /** With steady levels storing one more configuration changes no level that matters. */
  lemma SteadyKeeps(ms: seq<Loaded>, boot: seq<(string, Tree)>)
    requires SteadyLevels(boot) && boot != []
    requires Holds(ms, Names(boot[..|boot| - 1]), Levels(Stored(boot[..|boot| - 1])))
    ensures Holds(ms, Names(boot[..|boot| - 1]), Levels(Stored(boot)))
  {
    var front := boot[..|boot| - 1];
    forall n | n in Names(front) ensures Level(Stored(boot), n) == Level(Stored(front), n) {
      var i :| 0 <= i < |front| && Names(front)[i] == n;
      SteadyLevel(front, i);
      SteadyLevel(boot, i);
    }
    SameLevelsHold(ms, Names(front), Levels(Stored(front)), Levels(Stored(boot)));
  }

  /** Start-up never disturbs the set if repeated names, should there be any, keep their level:
      the set then holds the first module of each level. */
  lemma {:induction false} SteadyBoot(boot: seq<(string, Tree)>, available: set<string>)
    requires SteadyLevels(boot)
    ensures var l := LoadBoot(boot, available);
            && l.end != Disturbed
            && (l.end == AllLoaded ==> Holds(l.modules, Names(boot), Levels(Stored(boot))))
  {
    if boot != [] {
      var front := boot[..|boot| - 1];
      SteadyBoot(front, available);
      if LoadBoot(front, available).end == AllLoaded {
        SteadyKeeps(LoadBoot(front, available).modules, boot);
        LoadedNext(boot, available);
      }
    }
  }

  /** One more entry, with the set still in order. */
  lemma LoadedNext(boot: seq<(string, Tree)>, available: set<string>)
    requires boot != [] && LoadBoot(boot[..|boot| - 1], available).end == AllLoaded
    requires Holds(LoadBoot(boot[..|boot| - 1], available).modules, Names(boot[..|boot| - 1]), Levels(Stored(boot)))
    ensures var l := LoadBoot(boot, available);
            l.end != Disturbed && (l.end == AllLoaded ==> Holds(l.modules, Names(boot), Levels(Stored(boot))))
  {
    var front, last, lv := boot[..|boot| - 1], boot[|boot| - 1], Levels(Stored(boot));
    var ms, l := LoadBoot(front, available).modules, LoadBoot(boot, available);
    assert Names(boot) == Names(front) + [last.0];
    assert Sorted(ms, lv);
    InsertHolds(ms, Names(front), lv, last.0);
    assert l.end == AllLoaded ==> l.modules == Insert(ms, lv, Loaded(last.0, false));
  }

  /** Start-up loads everything exactly if every entry names a library that is there. */
  lemma {:induction false} SteadyBootLoads(boot: seq<(string, Tree)>, available: set<string>)
    requires SteadyLevels(boot)
    ensures LoadBoot(boot, available).end == AllLoaded <==>
            forall i | 0 <= i < |boot| ::
              var file := GetData(boot[i].1, "file"); file.Some? && file.value in available
  {
    if boot != [] {
      var front := boot[..|boot| - 1];
      assert forall i | 0 <= i < |front| :: front[i] == boot[i];
      SteadyBootLoads(front, available);
      SteadyBoot(boot, available);
    }
  }

  lemma LoadedIsSorted(boot: seq<(string, Tree)>, available: set<string>)
    requires LoadBoot(boot, available).end == AllLoaded
    ensures Sorted(LoadBoot(boot, available).modules, Levels(Stored(boot)))
  {
    if boot != [] {
      var front, last := boot[..|boot| - 1], boot[|boot| - 1];
      InsertFacts(LoadBoot(front, available).modules, Levels(Stored(boot)), Loaded(last.0, false));
    }
  }

  lemma AnyStoreKeepsOrderIff(ms: seq<Loaded>, configs: map<string, Tree>, name: string, t: Tree)
    requires Sorted(ms, Levels(configs))
    ensures Sorted(ms, Levels(configs[name := t])) <==>
            forall i | 0 <= i < |ms| && ms[i].name == name :: FitsAt(ms, configs, i, t)
  {
    if i :| 0 <= i < |ms| && ms[i].name == name {
      StoreKeepsOrderIff(ms, configs, i, t);
      SortedNamesDistinct(ms, Levels(configs));
    }
  }

  /** Exactly when one more entry disturbs the set: it names a library and gives a module that is
      loaded a level that does not lie between its neighbours' levels. */
  lemma DisturbedIff(boot: seq<(string, Tree)>, available: set<string>)
    requires boot != [] && LoadBoot(boot[..|boot| - 1], available).end == AllLoaded
    ensures var ms, last := LoadBoot(boot[..|boot| - 1], available).modules, boot[|boot| - 1];
            LoadBoot(boot, available).end == Disturbed <==>
            GetData(last.1, "file").Some? &&
            exists i :: 0 <= i < |ms| && ms[i].name == last.0 && !FitsAt(ms, Stored(boot[..|boot| - 1]), i, last.1)
  {
    var front, last := boot[..|boot| - 1], boot[|boot| - 1];
    LoadedIsSorted(front, available);
    AnyStoreKeepsOrderIff(LoadBoot(front, available).modules, Stored(front), last.0, last.1);
  }

  /** A module's tree with a library and a level. */
  function Leveled(level: string): Tree {
    Tree("", [("file", Leaf("lib"))] + ([("level", Leaf(level))] + []))
  }

  lemma LeveledGet(level: string)
    ensures GetData(Leveled(level), "file") == Some("lib") && GetData(Leveled(level), "level") == Some(level)
  {
    FindNext("file", Leaf("lib"), [("level", Leaf(level))] + [], "file");
    FindNext("file", Leaf("lib"), [("level", Leaf(level))] + [], "level");
    FindNext("level", Leaf(level), [], "level");
  }

  lemma LeveledLevels()
    ensures LevelOf(Leveled("1")) == 1 && LevelOf(Leveled("2")) == 2 && LevelOf(Leveled("3")) == 3
  {
    LeveledGet("1");
    LeveledGet("2");
    LeveledGet("3");
    assert ParseNat("1") == Some(1) && ParseNat("2") == Some(2) && ParseNat("3") == Some(3);
  }

  /** Some levels with several digits. */
  lemma LongLevels()
    ensures LevelOf(Leveled("40")) == 40 && LevelOf(Leveled("101")) == 101
  {
    LeveledGet("40");
    LeveledGet("101");
    assert "40"[..1] == "4" && "101"[..2] == "10" && "10"[..1] == "1";
    assert ParseNat("40") == Some(40) && ParseNat("10") == Some(10) && ParseNat("101") == Some(101);
  }

  /** Some with a sign, and a text that is no number. */
  lemma SignedLevels()
    ensures LevelOf(Leveled("-5")) == -5 && LevelOf(Leveled("+7")) == 7 && LevelOf(Leveled("ten")) == 100
  {
    LeveledGet("-5");
    LeveledGet("+7");
    LeveledGet("ten");
    assert "-5"[1..] == "5" && ParseNat("5") == Some(5);
    assert "+7"[1..] == "7" && ParseNat("7") == Some(7);
    assert ParseNat("ten") == None;
  }

  lemma LoadOneMore(boot: seq<(string, Tree)>, entry: (string, Tree), available: set<string>)
    requires LoadBoot(boot, available).end == AllLoaded && GetData(entry.1, "file") == Some("lib") && "lib" in available
    ensures Stored(boot + [entry]) == Stored(boot)[entry.0 := entry.1]
    ensures var ms, lv := LoadBoot(boot, available).modules, Levels(Stored(boot)[entry.0 := entry.1]);
            LoadBoot(boot + [entry], available) ==
            if Sorted(ms, lv) then Loading(Insert(ms, lv, Loaded(entry.0, false)), AllLoaded)
            else Loading(ms, Disturbed)
  {
    assert (boot + [entry])[..|boot|] == boot;
  }

  lemma LoadFirst(n: string, x: Tree, available: set<string>)
    requires GetData(x, "file") == Some("lib") && "lib" in available
    ensures LoadBoot([(n, x)], available) == Loading([Loaded(n, false)], AllLoaded) && Stored([(n, x)]) == map[n := x]
  {
    assert Stored([]) == map[] && LoadBoot([], available) == Loading([], AllLoaded);
    LoadOneMore([], (n, x), available);
    assert [] + [(n, x)] == [(n, x)];
  }

  lemma InsertSecond(m: Loaded, n: Loaded, lv: string -> int)
    requires lv(n.name) != lv(m.name)
    ensures Sorted([m], lv) && Insert([m], lv, n) == if lv(n.name) < lv(m.name) then [n, m] else [m, n]
  {
    assert [n] + [m] == [n, m] && [m] + [n] == [m, n] && [m][1..] == [];
  }

  /** Two modules with different names and levels. */
  lemma LoadTwo(n: string, m: string, x: Tree, y: Tree, available: set<string>)
    requires n != m && LevelOf(x) != LevelOf(y) && "lib" in available
    requires GetData(x, "file") == GetData(y, "file") == Some("lib")
    ensures var boot, first, second := [(n, x), (m, y)], Loaded(n, false), Loaded(m, false);
            && LoadBoot(boot, available)
            == Loading(if LevelOf(x) < LevelOf(y) then [first, second] else [second, first], AllLoaded)
            && Stored(boot) == map[n := x, m := y]
  {
    LoadFirst(n, x, available);
    LoadOneMore([(n, x)], (m, y), available);
    assert [(n, x)] + [(m, y)] == [(n, x), (m, y)];
    InsertSecond(Loaded(n, false), Loaded(m, false), Levels(map[n := x, m := y]));
  }

  /** Two modules are started in the order of their levels, whichever is listed first. */
  lemma BootInLevelOrder(n: string, m: string, x: int, y: int, available: set<string>)
    requires n != m && -0x8000_0000 <= x < y < 0x8000_0000 && "lib" in available
    ensures var a, b := (n, Leveled(Printed(x))), (m, Leveled(Printed(y)));
            && LoadBoot([a, b], available) == Loading([Loaded(n, false), Loaded(m, false)], AllLoaded)
            && LoadBoot([b, a], available) == Loading([Loaded(n, false), Loaded(m, false)], AllLoaded)
  {
    LeveledGet(Printed(x));
    LeveledGet(Printed(y));
    LevelOfPrinted(Leveled(Printed(x)), x);
    LevelOfPrinted(Leveled(Printed(y)), y);
    LoadTwo(n, m, Leveled(Printed(x)), Leveled(Printed(y)), available);
    LoadTwo(m, n, Leveled(Printed(y)), Leveled(Printed(x)), available);
  }

  /** A repeated name that moves a loaded module past the next one takes the set out of order. */
  lemma MovingPastDisturbs(n: string, m: string, x: Tree, y: Tree, z: Tree, available: set<string>)
    requires n != m && LevelOf(x) < LevelOf(y) < LevelOf(z) && "lib" in available
    requires GetData(x, "file") == GetData(y, "file") == GetData(z, "file") == Some("lib")
    ensures LoadBoot([(n, x), (m, y), (n, z)], available).end == Disturbed
  {
    var two := [(n, x), (m, y)];
    LoadTwo(n, m, x, y, available);
    LoadOneMore(two, (n, z), available);
    assert two + [(n, z)] == [(n, x), (m, y), (n, z)];
    var ms, lv := LoadBoot(two, available).modules, Levels(Stored(two)[n := z]);
    assert lv(ms[0].name) == LevelOf(z) && lv(ms[1].name) == LevelOf(y);
  }

  /** Such a configuration file: `a` with level 1, `b` with level 2, and `a` again with level 3. */
  lemma BootCanBeDisturbed(available: set<string>)
    requires "lib" in available
    ensures LoadBoot([("a", Leveled("1")), ("b", Leveled("2")), ("a", Leveled("3"))], available).end == Disturbed
  {
    LeveledLevels();
    LeveledGet("1");
    LeveledGet("2");
    LeveledGet("3");
    MovingPastDisturbs("a", "b", Leveled("1"), Leveled("2"), Leveled("3"), available);
  }

  /** How start-up ends. */
  datatype BootResult = BootDisturbed | BootNotLoaded | BootNotStarted | BootDone

  /** Start-up: each module of the configuration file is stored, then loaded; then all are
      started. The model stops where the set gets out of order. */
  method ModuleManagerInit(mm: ModuleManager, boot: seq<(string, Tree)>, failing: set<string>) returns (r: BootResult)
    requires mm.modules == [] && mm.asked == [] && mm.config.modulesConfigs == map[]
    modifies mm, mm.config`modulesConfigs
    ensures r == BootDisturbed <==> LoadBoot(boot, mm.available).end == Disturbed
    ensures r == BootNotLoaded <==> LoadBoot(boot, mm.available).end == NotLoaded
    ensures r == BootNotStarted <==>
              && LoadBoot(boot, mm.available).end == AllLoaded
              && exists n :: n in LoadedNames(LoadBoot(boot, mm.available).modules) && n in failing
    ensures r == BootDone || r == BootNotStarted ==>
              && mm.config.modulesConfigs == Stored(boot) && mm.asked == Names(boot)
              && LoadedNames(mm.modules) == LoadedNames(LoadBoot(boot, mm.available).modules)
    ensures r == BootDone ==>
              mm.events == old(mm.events) + StartsOf(mm.modules) && forall m | m in mm.modules :: m.running
    ensures SteadyLevels(boot) ==> mm.Valid()
  {
    var end := LoadEntries(mm, boot);
    if end == Disturbed { return BootDisturbed; }
    if end == NotLoaded { return BootNotLoaded; }
    var started := mm.InitModules(failing);
    AnyFails(mm.modules, failing);
    r := if started then BootDone else BootNotStarted;
  }

  lemma AnyFails(ms: seq<Loaded>, failing: set<string>)
    ensures (exists m :: m in ms && m.name in failing) <==> exists n :: n in LoadedNames(ms) && n in failing
  {
    if m :| m in ms && m.name in failing { NamesIn(ms, m.name); }
    if n :| n in LoadedNames(ms) && n in failing { NamesIn(ms, n); }
  }

  lemma SteadyPrefix(boot: seq<(string, Tree)>, i: nat)
    requires SteadyLevels(boot) && i <= |boot|
    ensures SteadyLevels(boot[..i])
  {
  }

  method LoadEntries(mm: ModuleManager, boot: seq<(string, Tree)>) returns (end: LoadingEnd)
    requires mm.modules == [] && mm.asked == [] && mm.config.modulesConfigs == map[]
    modifies mm, mm.config`modulesConfigs
    ensures mm.events == old(mm.events) && end == LoadBoot(boot, mm.available).end
    ensures end == AllLoaded ==> LoadedUpTo(mm, boot)
    ensures SteadyLevels(boot) ==> mm.Valid()
  {
    for i := 0 to |boot|
      invariant LoadedUpTo(mm, boot[..i]) && mm.events == old(mm.events)
      invariant SteadyLevels(boot) ==> mm.Valid()
    {
      assert boot[..i] + [boot[i]] == boot[..i + 1];
      if SteadyLevels(boot) { SteadyPrefix(boot, i + 1); }
      end := LoadEntry(mm, boot[i], boot[..i]);
      if end != AllLoaded {
        LoadingEnded(boot, i + 1, mm.available);
        return;
      }
    }
    assert boot[..|boot|] == boot;
    end := AllLoaded;
  }

  /** Where start-up stands after loading the entries of `boot`. */
  ghost predicate LoadedUpTo(mm: ModuleManager, boot: seq<(string, Tree)>)
    reads mm, mm.config
  {
    && mm.asked == Names(boot) && mm.config.modulesConfigs == Stored(boot)
    && LoadBoot(boot, mm.available) == Loading(mm.modules, AllLoaded)
    && forall m | m in mm.modules :: !m.running
  }

  /** Stores and loads one more entry; one that names no library is not even stored. */
  method LoadEntry(mm: ModuleManager, entry: (string, Tree), ghost boot: seq<(string, Tree)>) returns (end: LoadingEnd)
    requires LoadedUpTo(mm, boot)
    modifies mm, mm.config`modulesConfigs
    ensures mm.events == old(mm.events) && end == LoadBoot(boot + [entry], mm.available).end
    ensures end == AllLoaded ==> LoadedUpTo(mm, boot + [entry])
    ensures mm.config.modulesConfigs ==
            if GetData(entry.1, "file").None? then old(mm.config.modulesConfigs)
            else old(mm.config.modulesConfigs)[entry.0 := entry.1]
    ensures SteadyLevels(boot + [entry]) && old(mm.Valid()) ==> mm.Valid()
  {
    ghost var longer := boot + [entry];
    assert longer[..|boot|] == boot && Names(longer) == Names(boot) + [entry.0];
    if GetData(entry.1, "file").None? { return NotLoaded; }
    if SteadyLevels(longer) && mm.Valid() { SteadyKeeps(mm.modules, longer); }
    var _ := mm.config.StoreConfig(entry.0, entry.1);
    if !Sorted(mm.modules, Levels(mm.config.modulesConfigs)) { return Disturbed; }
    var loaded := mm.LoadModule(entry.0);
    end := if loaded == LoadDone then AllLoaded else NotLoaded;
  }

  lemma {:induction false} LoadingEnded(boot: seq<(string, Tree)>, i: nat, available: set<string>)
    requires i <= |boot| && LoadBoot(boot[..i], available).end != AllLoaded
    ensures LoadBoot(boot, available) == LoadBoot(boot[..i], available)
    decreases |boot| - i
  {
    if i == |boot| {
      assert boot[..i] == boot;
    } else {
      assert boot[..i + 1][..i] == boot[..i];
      LoadingEnded(boot, i + 1, available);
    }
  }
}
