/** Access profiles: schedules that open every door, and schedules that open one door. */
module AccessProfiles {
  import opened PropertyTree

  /** A schedule says for each date whether it covers it. */
  type Schedule = int -> bool

  datatype Profile = Profile(defaults: seq<Schedule>, rows: map<string, seq<Schedule>>)

  predicate AnyCovers(ss: seq<Schedule>, date: int) {
    exists i :: 0 <= i < |ss| && ss[i](date)
  }

  function Row(p: Profile, door: string): seq<Schedule> {
    if door in p.rows then p.rows[door] else []
  }

  /** Access is granted at a date, to one door or to none in particular. */
  predicate Grants(p: Profile, date: int, door: Option<string>) {
    AnyCovers(p.defaults, date) || (door.Some? && AnyCovers(Row(p, door.value), date))
  }

  /** Asking about a door may leave an empty row behind. */
  function Asked(p: Profile, date: int, door: Option<string>): Profile {
    if !AnyCovers(p.defaults, date) && door.Some? then p.(rows := p.rows[door.value := Row(p, door.value)]) else p
  }

  function AskedAll(p: Profile, questions: seq<(int, Option<string>)>): Profile {
    if questions == [] then p
    else
      var last := questions[|questions| - 1];
      Asked(AskedAll(p, questions[..|questions| - 1]), last.0, last.1)
  }

  /** The same schedules for every door. */
  ghost predicate SameRows(p: Profile, q: Profile) {
    p.defaults == q.defaults && forall door :: Row(p, door) == Row(q, door)
  }

  /** `r` holds the schedules of both. */
  ghost predicate IsMerge(r: Profile, p: Profile, q: Profile) {
    r.defaults == p.defaults + q.defaults && forall door :: Row(r, door) == Row(p, door) + Row(q, door)
  }

  lemma AnyCoversConcat(a: seq<Schedule>, b: seq<Schedule>, date: int)
    ensures AnyCovers(a + b, date) <==> AnyCovers(a, date) || AnyCovers(b, date)
  {
    var c := a + b;
    if i :| 0 <= i < |a| && a[i](date) { assert c[i](date); }
    if i :| 0 <= i < |b| && b[i](date) { assert c[|a| + i](date); }
    if i :| 0 <= i < |c| && c[i](date) {
      if i < |a| { assert a[i](date); } else { assert b[i - |a|](date); }
    }
  }

  /** Access in so many words: some general schedule covers the date, or some schedule of the door. */
  lemma GrantsMeaning(p: Profile, date: int, door: Option<string>)
    ensures Grants(p, date, door) <==>
            || (exists i :: 0 <= i < |p.defaults| && p.defaults[i](date))
            || (door.Some? && door.value in p.rows
                && exists i :: 0 <= i < |p.rows[door.value]| && p.rows[door.value][i](date))
  {
  }

  /** One more schedule, for a door or for all. */
  function WithSchedule(p: Profile, door: Option<string>, s: Schedule): Profile {
    if door.None? then p.(defaults := p.defaults + [s])
    else p.(rows := p.rows[door.value := Row(p, door.value) + [s]])
  }

  /** It grants what was granted before, and what it covers for the doors it is meant for. */
  lemma OneMoreSchedule(p: Profile, door: Option<string>, s: Schedule, date: int, asked: Option<string>)
    ensures Grants(WithSchedule(p, door, s), date, asked) <==>
            Grants(p, date, asked) || ((door.None? || door == asked) && s(date))
    ensures !Grants(Profile([], map[]), date, asked)
  {
    var q := WithSchedule(p, door, s);
    assert AnyCovers([s], date) <==> s(date) by { assert [s][0] == s; }
    if door.None? {
      AnyCoversConcat(p.defaults, [s], date);
    } else {
      AnyCoversConcat(Row(p, door.value), [s], date);
    }
  }

  /** The merged profile grants exactly when one of the two does. */
  lemma MergeIsDisjunction(r: Profile, p: Profile, q: Profile, date: int, door: Option<string>)
    requires IsMerge(r, p, q)
    ensures Grants(r, date, door) <==> Grants(p, date, door) || Grants(q, date, door)
  {
    AnyCoversConcat(p.defaults, q.defaults, date);
    if door.Some? { AnyCoversConcat(Row(p, door.value), Row(q, door.value), date); }
  }

  lemma {:induction false} AskingIsInvisible(p: Profile, questions: seq<(int, Option<string>)>)
    ensures SameRows(AskedAll(p, questions), p)
  {
    if questions != [] { AskingIsInvisible(p, questions[..|questions| - 1]); }
  }

  /** No sequence of questions changes any later decision of the profile, or of any profile
      merged from it. */
  lemma QuestionsChangeNothing(p: Profile, q: Profile, r: Profile, questions: seq<(int, Option<string>)>,
                               date: int, door: Option<string>)
    requires IsMerge(r, AskedAll(p, questions), q)
    ensures Grants(AskedAll(p, questions), date, door) <==> Grants(p, date, door)
    ensures IsMerge(r, p, q)
    ensures Grants(r, date, door) <==> Grants(p, date, door) || Grants(q, date, door)
  {
    AskingIsInvisible(p, questions);
    MergeIsDisjunction(r, p, q, date, door);
  }

  class SimpleAccessProfile {
    var defaultSchedule: seq<Schedule>
    var schedules: map<string, seq<Schedule>>

    ghost function View(): Profile
      reads this
    {
      Profile(defaultSchedule, schedules)
    }

    constructor ()
      ensures View() == Profile([], map[])
    {
      defaultSchedule, schedules := [], map[];
    }

    static method FirstCovering(ss: seq<Schedule>, date: int) returns (found: bool)
      ensures found <==> AnyCovers(ss, date)
    {
      for i := 0 to |ss|
        invariant forall k | 0 <= k < i :: !ss[k](date)
      {
        if ss[i](date) { return true; }
      }
      return false;
    }

    method IsAccessGranted(date: int, door: Option<string>) returns (granted: bool)
      modifies this`schedules
      ensures granted == Grants(old(View()), date, door)
      ensures View() == Asked(old(View()), date, door)
      ensures schedules ==
              if door.None? || door.value in old(schedules)
                || exists i :: 0 <= i < |defaultSchedule| && defaultSchedule[i](date)
              then old(schedules) else old(schedules)[door.value := []]
    {
      granted := FirstCovering(defaultSchedule, date);
      if granted || door.None? { return; }
      if door.value !in schedules {
        schedules := schedules[door.value := []];
      }
      assert schedules == old(schedules)[door.value := Row(old(View()), door.value)];
      granted := FirstCovering(schedules[door.value], date);
    }

    method AddAccessSchedule(door: Option<string>, s: Schedule)
      modifies this
      ensures door.None? ==> View() == old(View()).(defaults := old(defaultSchedule) + [s])
      ensures door.Some? ==>
                View() == old(View()).(rows := old(schedules)[door.value := Row(old(View()), door.value) + [s]])
      ensures View() == WithSchedule(old(View()), door, s)
    {
      if door.Some? {
        schedules := schedules[door.value := (if door.value in schedules then schedules[door.value] else []) + [s]];
      } else {
        defaultSchedule := defaultSchedule + [s];
      }
    }

    /** Adds the general schedules of another profile. */
    method AddDefaults(ss: seq<Schedule>)
      modifies this
      ensures View() == old(View()).(defaults := old(defaultSchedule) + ss)
    {
      for i := 0 to |ss|
        invariant View() == old(View()).(defaults := old(defaultSchedule) + ss[..i])
      {
        AddAccessSchedule(None, ss[i]);
      }
      assert ss[..|ss|] == ss;
    }

    /** Adds the schedules of one door. */
    method AddRow(door: string, ss: seq<Schedule>)
      modifies this
      ensures defaultSchedule == old(defaultSchedule)
      ensures forall d :: Row(View(), d) == Row(old(View()), d) + if d == door then ss else []
    {
      for i := 0 to |ss|
        invariant defaultSchedule == old(defaultSchedule)
        invariant Row(View(), door) == Row(old(View()), door) + ss[..i]
        invariant forall d | d != door :: Row(View(), d) == Row(old(View()), d)
      {
        AddAccessSchedule(Some(door), ss[i]);
        assert ss[..i + 1] == ss[..i] + [ss[i]];
      }
      assert ss[..|ss|] == ss;
    }

    /** Adds the schedules of every door of another profile; the order of the doors is not
        part of the result. */
    method AddRows(rows: map<string, seq<Schedule>>)
      modifies this
      ensures defaultSchedule == old(defaultSchedule)
      ensures forall d :: Row(View(), d) == Row(old(View()), d) + Row(Profile([], rows), d)
    {
      var left := rows.Keys;
      while left != {}
        invariant left <= rows.Keys && defaultSchedule == old(defaultSchedule)
        invariant forall d :: Row(View(), d) == Row(old(View()), d) + if d in rows && d !in left then rows[d] else []
      {
        var door :| door in left;
        ghost var before := View();
        AddRow(door, rows[door]);
        left := left - {door};
        forall d ensures Row(View(), d) == Row(old(View()), d) + if d in rows && d !in left then rows[d] else [] {
          assert Row(View(), d) == Row(before, d) + if d == door then rows[door] else [];
          if d == door { assert Row(before, d) == Row(old(View()), d); }
        }
      }
    }
  }

  method Merge(p: SimpleAccessProfile, q: SimpleAccessProfile) returns (r: SimpleAccessProfile)
    ensures fresh(r) && IsMerge(r.View(), p.View(), q.View())
  {
    ghost var pv, qv := p.View(), q.View();
    r := new SimpleAccessProfile();
    r.AddDefaults(p.defaultSchedule);
    r.AddDefaults(q.defaultSchedule);
    assert r.View() == Profile(pv.defaults + qv.defaults, map[]);
    r.AddRows(p.schedules);
    assert p.View() == pv && q.View() == qv;
    ghost var half := r.View();
    assert forall d :: Row(half, d) == Row(pv, d);
    r.AddRows(q.schedules);
    assert p.View() == pv && q.View() == qv;
    forall d ensures Row(r.View(), d) == Row(pv, d) + Row(qv, d) {
      assert Row(r.View(), d) == Row(half, d) + Row(Profile([], qv.rows), d);
    }
  }
}
