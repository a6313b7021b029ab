/**
 The schema migration runner, against a database on which any statement may fail, with or without effect.
 */
module Migrations {
  import opened StringOrder

  /** A migration is known by its version; what its scripts do to other tables is not modelled. */
  datatype Statement =
    | CreateTable
    | ApplyUp(version: string)
    | Record(version: string)
    | ApplyDown(version: string)
    | Forget(version: string)

  /** The versions listed in `schema_migrations` after these statements. */
  function Recorded(log: seq<Statement>): set<string>
  {
    if log == [] then {}
    else Effect(Recorded(log[..|log| - 1]), log[|log| - 1])
  }

  function Effect(recorded: set<string>, s: Statement): set<string>
  {
    match s
    case Record(v) => recorded + {v}
    case Forget(v) => recorded - {v}
    case _ => recorded
  }

  lemma RecordedOneMore(log: seq<Statement>, s: Statement)
    ensures Recorded(log + [s]) == Effect(Recorded(log), s)
  {
    assert (log + [s])[..|log|] == log;
  }

  /** What `All` promises: the versions in strictly ascending order. */
  predicate Ascending(versions: seq<string>)
  {
    forall i, j :: 0 <= i < j < |versions| ==> Less(versions[i], versions[j])
  }

  predicate Distinct(versions: seq<string>)
  {
    forall i, j :: 0 <= i < j < |versions| ==> versions[i] != versions[j]
  }

  lemma AscendingIsDistinct(versions: seq<string>)
    requires Ascending(versions)
    ensures Distinct(versions)
  {
    forall i, j | 0 <= i < j < |versions|
      ensures versions[i] != versions[j]
    {
      LessTrichotomy(versions[i], versions[j]);
    }
  }

  /** What is done about one migration. */
  function UpOne(v: string, asks: bool, recorded: set<string>): seq<Statement>
  {
    if asks && v in recorded then [] else [ApplyUp(v), Record(v)]
  }

  function DownOne(v: string, asks: bool, recorded: set<string>): seq<Statement>
  {
    if asks && v !in recorded then [] else [ApplyDown(v), Forget(v)]
  }

  /**
   The statements a faultless `Up` makes from here: all those not recorded, in ascending order. Without a
   way to ask what is recorded, it applies every migration.
   */
  function UpScript(versions: seq<string>, asks: bool, recorded: set<string>): seq<Statement>
  {
    if versions == [] then []
    else UpOne(versions[0], asks, recorded) + UpScript(versions[1..], asks, recorded)
  }

  /** And a faultless `Down`: all those recorded, in descending order. */
  function DownScript(versions: seq<string>, asks: bool, recorded: set<string>): seq<Statement>
  {
    if versions == [] then []
    else
      var n := |versions| - 1;
      DownOne(versions[n], asks, recorded) + DownScript(versions[..n], asks, recorded)
  }

  lemma RecordedTwoMore(log: seq<Statement>, s: Statement, t: Statement)
    ensures Recorded(log + [s, t]) == Effect(Effect(Recorded(log), s), t)
  {
    assert log + [s, t] == (log + [s]) + [t];
    RecordedOneMore(log + [s], t);
    RecordedOneMore(log, s);
  }

  lemma RecordedAfterUp(log: seq<Statement>, v: string, asks: bool)
    ensures Recorded(log + UpOne(v, asks, Recorded(log))) == Recorded(log) + {v}
  {
    RecordedTwoMore(log, ApplyUp(v), Record(v));
    assert log + [] == log;
  }

  lemma RecordedAfterDown(log: seq<Statement>, v: string, asks: bool)
    ensures Recorded(log + DownOne(v, asks, Recorded(log))) == Recorded(log) - {v}
  {
    RecordedTwoMore(log, ApplyDown(v), Forget(v));
    assert log + [] == log;
  }

  /** `log` agrees with `start` on the versions from `i` up to `j`. */
  ghost predicate Agree(versions: seq<string>, i: int, j: int, log: seq<Statement>, start: set<string>)
  {
    forall k :: 0 <= i <= k < j <= |versions| ==> (versions[k] in Recorded(log) <==> versions[k] in start)
  }

  lemma UpUnfolds(versions: seq<string>, i: nat, asks: bool, start: set<string>)
    requires i < |versions|
    ensures UpScript(versions[i..], asks, start)
            == UpOne(versions[i], asks, start) + UpScript(versions[i + 1..], asks, start)
  {
    assert versions[i..][0] == versions[i] && versions[i..][1..] == versions[i + 1..];
  }

  lemma DownUnfolds(versions: seq<string>, i: nat, asks: bool, start: set<string>)
    requires i < |versions|
    ensures DownScript(versions[..i + 1], asks, start)
            == DownOne(versions[i], asks, start) + DownScript(versions[..i], asks, start)
  {
    assert versions[..i + 1][i] == versions[i] && versions[..i + 1][..i] == versions[..i];
  }

  lemma Associate(a: seq<Statement>, b: seq<Statement>, c: seq<Statement>)
    ensures a + (b + c) == (a + b) + c
  {
  }

  lemma UpAdvances(versions: seq<string>, i: nat, log: seq<Statement>, asks: bool, start: set<string>)
    requires Distinct(versions) && i < |versions| && Agree(versions, i, |versions|, log, start)
    ensures var more := log + UpOne(versions[i], asks, Recorded(log));
            && log + UpScript(versions[i..], asks, start) == more + UpScript(versions[i + 1..], asks, start)
            && Agree(versions, i + 1, |versions|, more, start)
  {
    UpUnfolds(versions, i, asks, start);
    Associate(log, UpOne(versions[i], asks, start), UpScript(versions[i + 1..], asks, start));
    RecordedAfterUp(log, versions[i], asks);
  }

  lemma DownAdvances(versions: seq<string>, i: nat, log: seq<Statement>, asks: bool, start: set<string>)
    requires Distinct(versions) && i < |versions| && Agree(versions, 0, i + 1, log, start)
    ensures var more := log + DownOne(versions[i], asks, Recorded(log));
            && log + DownScript(versions[..i + 1], asks, start) == more + DownScript(versions[..i], asks, start)
            && Agree(versions, 0, i, more, start)
  {
    DownUnfolds(versions, i, asks, start);
    Associate(log, DownOne(versions[i], asks, start), DownScript(versions[..i], asks, start));
    RecordedAfterDown(log, versions[i], asks);
  }

  lemma PrefixOfWhole(log: seq<Statement>, more: seq<Statement>, rest: seq<Statement>)
    requires log <= more
    ensures log <= more + rest
  {
  }

  lemma PairMade(log: seq<Statement>, end: seq<Statement>, s: Statement, t: Statement)
    requires end == log || end == log + [s] || end == (log + [s]) + [t]
    ensures log <= end <= log + [s, t]
    ensures end == (log + [s]) + [t] ==> end == log + [s, t]
  {
    assert log + [s, t] == (log + [s]) + [t];
  }

  lemma TableFirst(log: seq<Statement>, end: seq<Statement>, script: seq<Statement>)
    requires end == log || log + [CreateTable] <= end <= (log + [CreateTable]) + script
    ensures log <= end <= log + ([CreateTable] + script)
    ensures end == (log + [CreateTable]) + script ==> end == log + ([CreateTable] + script)
  {
    Associate(log, [CreateTable], script);
  }

  /** A call succeeds, fails and does nothing, or takes effect and fails nevertheless. */
  datatype Fate = Works | Fails | Unconfirmed

  /** A statement that takes effect is logged; `fates` decides how each call goes. */
  class Database {
    ghost var log: seq<Statement>
    var recorded: set<string>
    const fates: nat -> Fate
    var calls: nat

    ghost predicate Valid()
      reads this
    {
      recorded == Recorded(log)
    }

    constructor (fates: nat -> Fate)
      ensures Valid() && log == []
    {
      log, recorded, this.fates, calls := [], {}, fates, 0;
    }

    method Exec(s: Statement) returns (ok: bool)
      requires Valid()
      modifies this
      ensures Valid()
      ensures calls == old(calls) + 1 && (ok <==> fates(old(calls)).Works?)
      ensures log == if fates(old(calls)).Fails? then old(log) else old(log) + [s]
    {
      var fate := fates(calls);
      ok := fate.Works?;
      calls := calls + 1;
      if !fate.Fails? {
        match s {
          case Record(v) => recorded := recorded + {v};
          case Forget(v) => recorded := recorded - {v};
          case _ =>
        }
        assert recorded == Effect(old(recorded), s);
        RecordedOneMore(log, s);
        log := log + [s];
      }
    }

    /** None of the calls from `start` on failed. */
    ghost predicate AllWorked(start: nat)
      reads this`calls
    {
      forall i :: start <= i < calls ==> fates(i).Works?
    }

    /** Asking whether a version is recorded may fail as well. */
    method Query(version: string) returns (ok: bool, applied: bool)
      requires Valid()
      modifies this`calls
      ensures Valid()
      ensures calls == old(calls) + 1 && (ok <==> fates(old(calls)).Works?)
      ensures ok ==> (applied <==> version in Recorded(log))
    {
      ok := fates(calls).Works?;
      calls := calls + 1;
      applied := version in recorded;
    }
  }

  class Runner {
    const db: Database
    const asks: bool
    const versions: seq<string>

    predicate Valid()
    {
      Ascending(versions)
    }

    constructor (db: Database, asks: bool, versions: seq<string>)
      requires Ascending(versions)
      ensures Valid() && this.db == db && this.asks == asks && this.versions == versions
    {
      this.db, this.asks, this.versions := db, asks, versions;
    }

    /** Statements one after the other, stopping at the first that fails. */
    method Both(first: Statement, second: Statement) returns (ok: bool)
      requires db.Valid()
      modifies db
      ensures db.Valid()
      ensures old(db.log) <= db.log <= old(db.log) + [first, second]
      ensures ok ==> db.log == old(db.log) + [first, second]
      ensures db.calls > old(db.calls) && (ok <==> db.AllWorked(old(db.calls)))
    {
      ghost var log := db.log;
      ok := db.Exec(first);
      if ok {
        ok := db.Exec(second);
      }
      PairMade(log, db.log, first, second);
    }

    method ApplyOne(v: string) returns (ok: bool)
      requires db.Valid()
      modifies db
      ensures db.Valid()
      ensures var script := UpOne(v, asks, Recorded(old(db.log)));
              && old(db.log) <= db.log <= old(db.log) + script
              && (ok ==> db.log == old(db.log) + script)
      ensures db.calls > old(db.calls) && (ok <==> db.AllWorked(old(db.calls)))
    {
      if asks {
        var applied;
        ok, applied := db.Query(v);
        if !ok || applied {
          return;
        }
      }
      ok := Both(ApplyUp(v), Record(v));
    }

    method RevertOne(v: string) returns (ok: bool)
      requires db.Valid()
      modifies db
      ensures db.Valid()
      ensures var script := DownOne(v, asks, Recorded(old(db.log)));
              && old(db.log) <= db.log <= old(db.log) + script
              && (ok ==> db.log == old(db.log) + script)
      ensures db.calls > old(db.calls) && (ok <==> db.AllWorked(old(db.calls)))
    {
      if asks {
        var applied;
        ok, applied := db.Query(v);
        if !ok || !applied {
          return;
        }
      }
      ok := Both(ApplyDown(v), Forget(v));
    }

    /**
     The statements made are a prefix of the faultless script, and on success all of it; and it succeeds
     unless a call failed. `listed` tells whether the list of migrations could be read; otherwise only the
     table is made.
     */
    method Up(listed: bool) returns (ok: bool)
      requires Valid() && db.Valid()
      modifies db
      ensures db.Valid()
      ensures var script := [CreateTable] + UpScript(versions, asks, Recorded(old(db.log)));
              && old(db.log) <= db.log <= old(db.log) + script
              && (ok ==> listed && db.log == old(db.log) + script)
      ensures !listed ==> db.log <= old(db.log) + [CreateTable]
      ensures db.calls > old(db.calls) && (ok <==> listed && db.AllWorked(old(db.calls)))
    {
      ghost var log := db.log;
      ghost var script := UpScript(versions, asks, Recorded(log));
      RecordedOneMore(log, CreateTable);
      ok := db.Exec(CreateTable);
      if !ok {
        TableFirst(log, db.log, script);
        return;
      }
      if !listed {
        TableFirst(log, db.log, script);
        return false;
      }
      ok := ApplyEach();
      TableFirst(log, db.log, script);
    }

    method ApplyEach() returns (ok: bool)
      requires Valid() && db.Valid()
      modifies db
      ensures db.Valid()
      ensures var script := UpScript(versions, asks, Recorded(old(db.log)));
              && old(db.log) <= db.log <= old(db.log) + script
              && (ok ==> db.log == old(db.log) + script)
      ensures db.calls >= old(db.calls) && (ok <==> db.AllWorked(old(db.calls)))
    {
      AscendingIsDistinct(versions);
      ghost var start := Recorded(db.log);
      ghost var whole := db.log + UpScript(versions, asks, start);
      var i := 0;
      assert versions[0..] == versions;
      while i < |versions|
        invariant 0 <= i <= |versions| && db.Valid() && old(db.log) <= db.log
        invariant db.log + UpScript(versions[i..], asks, start) == whole
        invariant db.calls >= old(db.calls) && db.AllWorked(old(db.calls))
        invariant Agree(versions, i, |versions|, db.log, start)
      {
        ghost var more := db.log + UpOne(versions[i], asks, Recorded(db.log));
        ghost var rest := UpScript(versions[i + 1..], asks, start);
        UpAdvances(versions, i, db.log, asks, start);
        ok := ApplyOne(versions[i]);
        if !ok {
          PrefixOfWhole(db.log, more, rest);
          return;
        }
        i := i + 1;
      }
      ok := true;
    }

    method Down(listed: bool) returns (ok: bool)
      requires Valid() && db.Valid()
      modifies db
      ensures db.Valid()
      ensures var script := DownScript(versions, asks, Recorded(old(db.log)));
              && old(db.log) <= db.log <= old(db.log) + script
              && (ok ==> listed && db.log == old(db.log) + script)
      ensures !listed ==> db.log == old(db.log) && db.calls == old(db.calls)
      ensures db.calls >= old(db.calls) && (ok <==> listed && db.AllWorked(old(db.calls)))
    {
      if !listed {
        return false;
      }
      AscendingIsDistinct(versions);
      ghost var start := Recorded(db.log);
      ghost var whole := db.log + DownScript(versions, asks, start);
      var i := |versions|;
      assert versions[..i] == versions;
      while i > 0
        invariant 0 <= i <= |versions| && db.Valid() && old(db.log) <= db.log
        invariant db.log + DownScript(versions[..i], asks, start) == whole
        invariant db.calls >= old(db.calls) && db.AllWorked(old(db.calls))
        invariant Agree(versions, 0, i, db.log, start)
      {
        i := i - 1;
        ghost var more := db.log + DownOne(versions[i], asks, Recorded(db.log));
        ghost var rest := DownScript(versions[..i], asks, start);
        DownAdvances(versions, i, db.log, asks, start);
        ok := RevertOne(versions[i]);
        if !ok {
          PrefixOfWhole(db.log, more, rest);
          return;
        }
      }
      ok := true;
    }
  }
}
