/** Migrations: a list is worked through in order, each entry at most once for the lifetime of
    the store, however often the process fails or restarts on the way. */
module Migrate {

  datatype Migration = Migration(owner: string, index: int, sql: string)

  type Key = (string, int)

  function KeyOf(m: Migration): Key { (m.owner, m.index) }

  /** What is in the store: the keys in schema_migrations, and the migrations whose SQL has
      been executed, in order, which is all the schema depends on. */
  datatype State = State(recorded: set<Key>, executed: seq<Migration>)

  const EMPTY := State({}, [])

  /** One transaction executes the SQL and records the key. */
  function Step(s: State, m: Migration): State {
    if KeyOf(m) in s.recorded then s else State(s.recorded + {KeyOf(m)}, s.executed + [m])
  }

  function After(s: State, list: seq<Migration>): State {
    if list == [] then s else Step(After(s, list[..|list| - 1]), list[|list| - 1])
  }

  class Store {
    var recorded: set<Key>
    var executed: seq<Migration>

    constructor ()
      ensures Now() == EMPTY
    {
      recorded, executed := {}, [];
    }

    function Now(): State
      reads this
    {
      State(recorded, executed)
    }

    /** Returns early if a check or a transaction fails, at entry number `stop` of the list.
        If `kept`, that transaction is in the store all the same: the process died, or lost
        the answer, after the commit. */
    method Migrate(migrations: seq<Migration>, stop: nat, kept: bool) returns (ok: bool, done: nat)
      modifies this
      ensures done <= |migrations| && Now() == After(old(Now()), migrations[..done])
      ensures ok <==> stop >= |migrations|
      ensures ok ==> done == |migrations|
      ensures !ok ==> stop <= done <= stop + 1
    {
      for i := 0 to |migrations|
        invariant i <= stop && Now() == After(old(Now()), migrations[..i])
      {
        var m := migrations[i];
        assert migrations[..i + 1][..i] == migrations[..i];
        var applied := MigrationApplied(m);
        if i == stop {
          if kept && !applied {
            ApplyMigration(m);
            return false, i + 1;
          }
          return false, i;
        }
        if applied {
          continue;
        }
        ApplyMigration(m);
      }
      ok, done := true, |migrations|;
    }

    method MigrationApplied(m: Migration) returns (applied: bool)
      ensures applied <==> KeyOf(m) in recorded
    {
      applied := KeyOf(m) in recorded;
    }

    method ApplyMigration(m: Migration)
      requires KeyOf(m) !in recorded
      modifies this
      ensures Now() == Step(old(Now()), m)
    {
      executed := executed + [m];
      recorded := recorded + {KeyOf(m)};
    }
  }

  // One list ---------------------------------------------------------------------------------

  lemma {:induction false} AfterConcat(s: State, a: seq<Migration>, b: seq<Migration>)
    ensures After(s, a + b) == After(After(s, a), b)
  {
    if b == [] {
      assert a + b == a;
    } else {
      AfterConcat(s, a, b[..|b| - 1]);
      assert (a + b)[..|a + b| - 1] == a + b[..|b| - 1];
    }
  }

  lemma {:induction false} RecordedAfter(s: State, list: seq<Migration>)
    ensures After(s, list).recorded == s.recorded + set m <- list :: KeyOf(m)
  {
    if list != [] {
      var most, m := list[..|list| - 1], list[|list| - 1];
      RecordedAfter(s, most);
      assert list == most + [m];
    }
  }

  /** A list whose keys are all recorded changes nothing. */
  lemma {:induction false} NothingToDo(s: State, list: seq<Migration>)
    requires forall m <- list :: KeyOf(m) in s.recorded
    ensures After(s, list) == s
  {
    if list != [] { NothingToDo(s, list[..|list| - 1]); }
  }

  /** A run that stops after k entries, on a store that has the first n, leaves it with the
      first n or k, whichever is more. */
  lemma Resumed(list: seq<Migration>, n: nat, k: nat)
    requires n <= |list| && k <= |list|
    ensures After(After(EMPTY, list[..n]), list[..k]) == After(EMPTY, list[..if n < k then k else n])
  {
    var s := After(EMPTY, list[..n]);
    RecordedAfter(EMPTY, list[..n]);
    var both := if n < k then n else k;
    assert list[..both] <= list[..n];
    NothingToDo(s, list[..both]);
    assert list[..k] == list[..both] + list[both..k];
    AfterConcat(s, list[..both], list[both..k]);
    if n < k {
      assert list[..k] == list[..n] + list[n..k];
      AfterConcat(EMPTY, list[..n], list[n..k]);
    } else {
      assert list[both..k] == [];
    }
  }

  predicate Within(stops: seq<nat>, n: nat) { forall i :: 0 <= i < |stops| ==> stops[i] <= n }

  /** `stops` says how far each run of a schedule got. */
  function Runs(s: State, list: seq<Migration>, stops: seq<nat>): State
    requires Within(stops, |list|)
  {
    if stops == [] then s
    else After(Runs(s, list, stops[..|stops| - 1]), list[..stops[|stops| - 1]])
  }

  function Furthest(stops: seq<nat>): nat {
    if stops == [] then 0
    else
      var before, last := Furthest(stops[..|stops| - 1]), stops[|stops| - 1];
      if before < last then last else before
  }

  /** Whatever the schedule of runs, failures and crashes, the store holds one clean run of a
      prefix of the list: as far as the run that got furthest. */
  lemma {:induction false} ScheduleIsOnePrefix(list: seq<Migration>, stops: seq<nat>)
    requires Within(stops, |list|)
    ensures Furthest(stops) <= |list|
    ensures Runs(EMPTY, list, stops) == After(EMPTY, list[..Furthest(stops)])
  {
    if stops == [] {
      assert list[..0] == [];
    } else {
      var before := stops[..|stops| - 1];
      ScheduleIsOnePrefix(list, before);
      Resumed(list, Furthest(before), stops[|stops| - 1]);
    }
  }

  /** Once a run has completed, the store is that of one clean run, and stays so. */
  lemma CompletedIsClean(list: seq<Migration>, stops: seq<nat>)
    requires Within(stops, |list|) && |list| in stops
    ensures Runs(EMPTY, list, stops) == After(EMPTY, list)
  {
    ScheduleIsOnePrefix(list, stops);
    FurthestIsMost(stops);
    assert list[..|list|] == list;
  }

  lemma {:induction false} FurthestIsMost(stops: seq<nat>)
    ensures forall k <- stops :: k <= Furthest(stops)
  {
    if stops != [] {
      var before, last := stops[..|stops| - 1], stops[|stops| - 1];
      FurthestIsMost(before);
      assert stops == before + [last];
    }
  }

  ghost predicate DistinctKeys(list: seq<Migration>) {
    forall i, j :: 0 <= i < j < |list| ==> KeyOf(list[i]) != KeyOf(list[j])
  }

  /** A clean run executes exactly the list, if and only if no two entries share a key; an
      entry whose key came before is skipped. */
  lemma {:induction false} CleanRun(list: seq<Migration>)
    ensures After(EMPTY, list).recorded == set m <- list :: KeyOf(m)
    ensures |After(EMPTY, list).executed| <= |list|
    ensures After(EMPTY, list).executed == list <==> DistinctKeys(list)
    ensures !DistinctKeys(list) ==> |After(EMPTY, list).executed| < |list|
  {
    RecordedAfter(EMPTY, list);
    if list != [] {
      var most, m := list[..|list| - 1], list[|list| - 1];
      CleanRun(most);
      DistinctOneMore(most, m);
      assert list == most + [m];
      assert After(EMPTY, list) == Step(After(EMPTY, most), m);
      hide After, DistinctKeys;
    }
  }

  lemma DistinctOneMore(list: seq<Migration>, m: Migration)
    ensures DistinctKeys(list + [m]) <==> DistinctKeys(list) && KeyOf(m) !in set d <- list :: KeyOf(d)
  {
    var more := list + [m];
    assert more[|list|] == m && forall i :: 0 <= i < |list| ==> more[i] == list[i];
    forall i | 0 <= i < |list| && KeyOf(list[i]) == KeyOf(m) ensures !DistinctKeys(more) {
      assert KeyOf(more[i]) == KeyOf(more[|list|]);
    }
    if DistinctKeys(more) {
      forall i, j | 0 <= i < j < |list| ensures KeyOf(list[i]) != KeyOf(list[j]) {
        assert KeyOf(more[i]) != KeyOf(more[j]);
      }
    }
  }

  // Lists that grow --------------------------------------------------------------------------

  /** The entries of one module, in order. */
  function Own(list: seq<Migration>, owner: string): seq<Migration> {
    if list == [] then []
    else
      var m := list[|list| - 1];
      Own(list[..|list| - 1], owner) + if m.owner == owner then [m] else []
  }

  /** The store holds the first n entries of a module's list, executed in that order, and no
      other key of the module. */
  ghost predicate HoldsPrefix(s: State, owner: string, own: seq<Migration>, n: nat) {
    && n <= |own|
    && Own(s.executed, owner) == own[..n]
    && forall k <- s.recorded :: k.0 == owner ==> exists i :: 0 <= i < n && KeyOf(own[i]) == k
  }

  ghost predicate RecordsExecuted(s: State) { forall m <- s.executed :: KeyOf(m) in s.recorded }

  lemma {:induction false} OwnIn(list: seq<Migration>, owner: string)
    ensures forall m :: m in Own(list, owner) <==> m in list && m.owner == owner
  {
    if list != [] {
      OwnIn(list[..|list| - 1], owner);
      assert list == list[..|list| - 1] + [list[|list| - 1]];
    }
  }

  lemma OwnAppend(list: seq<Migration>, m: Migration, owner: string)
    ensures Own(list + [m], owner) == Own(list, owner) + if m.owner == owner then [m] else []
  {
    assert (list + [m])[..|list|] == list;
  }

  lemma {:induction false} OwnPrefix(list: seq<Migration>, k: nat, owner: string)
    requires k <= |list|
    ensures Own(list[..k], owner) <= Own(list, owner)
    decreases |list|
  {
    if k < |list| {
      OwnPrefix(list[..|list| - 1], k, owner);
      assert list[..|list| - 1][..k] == list[..k];
    } else {
      assert list[..k] == list;
    }
  }

  /** One module's view of a run over the first k entries of the whole list: it had n of its
      own and now has those the run came past, if they are more. */
  lemma {:induction false} OwnPrefixAfter(s: State, list: seq<Migration>, k: nat, owner: string, n: nat)
    requires RecordsExecuted(s) && k <= |list|
    requires DistinctKeys(Own(list, owner)) && HoldsPrefix(s, owner, Own(list, owner), n)
    ensures RecordsExecuted(After(s, list[..k]))
    ensures var past := |Own(list[..k], owner)|;
      HoldsPrefix(After(s, list[..k]), owner, Own(list, owner), if n < past then past else n)
    decreases k
  {
    hide Own, After, HoldsPrefix, DistinctKeys, RecordsExecuted;
    if k == 0 {
      NoneYet(s, list, owner);
    } else {
      OwnPrefixAfter(s, list, k - 1, owner, n);
      OneFurther(s, list, k, owner);
      var past := |Own(list[..k - 1], owner)|;
      OneStep(After(s, list[..k - 1]), list[k - 1], owner, Own(list, owner), if n < past then past else n, past);
    }
  }

  lemma NoneYet(s: State, list: seq<Migration>, owner: string)
    ensures After(s, list[..0]) == s && Own(list[..0], owner) == []
  {
    assert list[..0] == [];
  }

  lemma OneFurther(s: State, list: seq<Migration>, k: nat, owner: string)
    requires 0 < k <= |list|
    ensures After(s, list[..k]) == Step(After(s, list[..k - 1]), list[k - 1])
    ensures var m, past := list[k - 1], |Own(list[..k - 1], owner)|;
      && |Own(list[..k], owner)| == past + (if m.owner == owner then 1 else 0)
      && (m.owner == owner ==> past < |Own(list, owner)| && Own(list, owner)[past] == m)
  {
    var m := list[k - 1];
    assert list[..k][..k - 1] == list[..k - 1];
    assert list[..k] == list[..k - 1] + [m];
    OwnAppend(list[..k - 1], m, owner);
    OwnPrefix(list, k, owner);
  }

  lemma OneStep(s: State, m: Migration, owner: string, own: seq<Migration>, n: nat, past: nat)
    requires RecordsExecuted(s) && DistinctKeys(own) && HoldsPrefix(s, owner, own, n) && past <= n
    requires m.owner == owner ==> past < |own| && own[past] == m
    ensures RecordsExecuted(Step(s, m))
    ensures HoldsPrefix(Step(s, m), owner, own, if m.owner == owner && n == past then n + 1 else n)
  {
    OwnAppend(s.executed, m, owner);
    OwnIn(s.executed, owner);
    if m.owner == owner && past < n {
      assert own[past] == Own(s.executed, owner)[past];
    }
    if m.owner == owner && past == n {
      assert KeyOf(m) !in s.recorded;
      assert own[..n + 1] == own[..n] + [m];
    }
  }

  /** When every module's list only grows at its end, a store that held a prefix of each of
      the old lists holds a prefix of each of the new ones after any run, wherever it stops. */
  lemma GrowingLists(s: State, older: seq<Migration>, newer: seq<Migration>, k: nat, owner: string, n: nat)
    requires RecordsExecuted(s) && k <= |newer|
    requires Own(older, owner) <= Own(newer, owner) && DistinctKeys(Own(newer, owner))
    requires HoldsPrefix(s, owner, Own(older, owner), n)
    ensures RecordsExecuted(After(s, newer[..k]))
    ensures exists m :: n <= m && HoldsPrefix(After(s, newer[..k]), owner, Own(newer, owner), m)
    ensures k == |newer| ==> HoldsPrefix(After(s, newer[..k]), owner, Own(newer, owner), |Own(newer, owner)|)
  {
    var own := Own(newer, owner);
    assert Own(older, owner)[..n] == own[..n];
    assert HoldsPrefix(s, owner, own, n);
    OwnPrefixAfter(s, newer, k, owner, n);
    assert newer[..|newer|] == newer;
  }
}
