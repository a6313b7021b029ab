/** Any sequence of `Up` and `Down` runs, each cut short anywhere by a fault. */
module MigrationRuns {
  import opened Wrappers
  import opened Migrations

  /** A run up or down, and how many of its statements took effect. */
  datatype Outing = Outing(up: bool, made: nat)

  /** `asks` tells whether the runner has a way to ask what is recorded. */
  function Script(versions: seq<string>, asks: bool, up: bool, log: seq<Statement>): seq<Statement>
  {
    if up then [CreateTable] + UpScript(versions, asks, Recorded(log)) else DownScript(versions, asks, Recorded(log))
  }

  function Made(versions: seq<string>, asks: bool, o: Outing, log: seq<Statement>): seq<Statement>
  {
    var script := Script(versions, asks, o.up, log);
    if o.made <= |script| then script[..o.made] else script
  }

  function History(versions: seq<string>, asks: bool, outs: seq<Outing>): seq<Statement>
  {
    if outs == [] then []
    else
      var before := History(versions, asks, outs[..|outs| - 1]);
      before + Made(versions, asks, outs[|outs| - 1], before)
  }

  function FirstVersions(versions: seq<string>, k: int): set<string>
    requires 0 <= k <= |versions|
  {
    set i | 0 <= i < k :: versions[i]
  }

  ghost predicate IsSegment(versions: seq<string>, recorded: set<string>)
  {
    exists k :: 0 <= k <= |versions| && recorded == FirstVersions(versions, k)
  }

  predicate Fitting(s: Statement, recorded: set<string>)
  {
    && (s.ApplyUp? ==> s.version !in recorded)
    && (s.ApplyDown? ==> s.version in recorded)
  }

  /** What a run writes down about a migration comes directly after what it did. */
  predicate Paired(s: Statement, t: Statement)
  {
    (s.ApplyUp? && t == Record(s.version)) || (s.ApplyDown? && t == Forget(s.version))
  }

  predicate InOrder(before: seq<Statement>, t: Statement)
  {
    t.Record? || t.Forget? ==> before != [] && Paired(before[|before| - 1], t)
  }

  /**
   At every moment of the log the recorded versions are an initial segment, and records come directly after
   what they record. A runner that asks applies nothing recorded again, and reverts nothing unrecorded.
   */
  ghost predicate Good(versions: seq<string>, asks: bool, log: seq<Statement>)
  {
    && IsSegment(versions, Recorded(log))
    && (log != [] ==>
          var before := log[..|log| - 1];
          && Good(versions, asks, before) && InOrder(before, log[|log| - 1])
          && (asks ==> Fitting(log[|log| - 1], Recorded(before))))
  }

  lemma {:induction false} GoodThroughout(versions: seq<string>, asks: bool, log: seq<Statement>, p: nat)
    requires Good(versions, asks, log) && p <= |log|
    ensures IsSegment(versions, Recorded(log[..p]))
    ensures p < |log| ==> InOrder(log[..p], log[p]) && (asks ==> Fitting(log[p], Recorded(log[..p])))
  {
    var n := |log| - 1;
    if p == |log| {
      assert log[..p] == log;
    } else if p < n {
      GoodThroughout(versions, asks, log[..n], p);
      assert log[..n][..p] == log[..p];
    }
  }

  lemma GoodOneMore(versions: seq<string>, asks: bool, log: seq<Statement>, s: Statement)
    requires Good(versions, asks, log) && InOrder(log, s) && (asks ==> Fitting(s, Recorded(log)))
    requires IsSegment(versions, Effect(Recorded(log), s))
    ensures Good(versions, asks, log + [s]) && Recorded(log + [s]) == Effect(Recorded(log), s)
  {
    RecordedOneMore(log, s);
    assert (log + [s])[..|log|] == log;
  }

  lemma NextVersion(versions: seq<string>, i: int)
    requires Distinct(versions) && 0 <= i < |versions|
    ensures FirstVersions(versions, i + 1) == FirstVersions(versions, i) + {versions[i]}
    ensures FirstVersions(versions, i) == FirstVersions(versions, i + 1) - {versions[i]}
    ensures versions[i] !in FirstVersions(versions, i)
  {
  }

  lemma {:induction false} WithinFirst(versions: seq<string>, i: int, k: int)
    requires Distinct(versions) && 0 <= i < |versions| && 0 <= k <= |versions|
    ensures versions[i] in FirstVersions(versions, k) <==> i < k
  {
  }

  lemma CutIsGood(
      versions: seq<string>, asks: bool, log: seq<Statement>, s: Statement, t: Statement, rest: seq<Statement>, n: nat)
    requires n <= 2 + |rest| && Good(versions, asks, log) && Good(versions, asks, log + [s])
    requires n >= 2 ==> Good(versions, asks, (log + [s] + [t]) + rest[..n - 2])
    ensures Good(versions, asks, log + ([s, t] + rest)[..n])
  {
    var made := log + ([s, t] + rest)[..n];
    if n == 0 {
      assert made == log;
    } else if n == 1 {
      assert made == log + [s];
    } else {
      assert made == (log + [s] + [t]) + rest[..n - 2];
    }
  }

  lemma PairIsGood(versions: seq<string>, asks: bool, log: seq<Statement>, s: Statement, t: Statement, k: int)
    requires Good(versions, asks, log) && 0 <= k <= |versions| && (asks ==> Fitting(s, Recorded(log)))
    requires Paired(s, t) && Effect(Recorded(log), t) == FirstVersions(versions, k)
    ensures Good(versions, asks, log + [s]) && Good(versions, asks, log + [s] + [t])
    ensures Recorded(log + [s] + [t]) == FirstVersions(versions, k)
  {
    GoodOneMore(versions, asks, log, s);
    GoodOneMore(versions, asks, log + [s], t);
  }

  function Max(i: int, k: int): int
  {
    if i < k then k else i
  }

  function Min(i: int, k: int): int
  {
    if i < k then i else k
  }

  lemma RecordNext(versions: seq<string>, i: int, k: int)
    requires Distinct(versions) && 0 <= i < |versions| && 0 <= k <= |versions|
    ensures FirstVersions(versions, Max(i, k)) + {versions[i]} == FirstVersions(versions, Max(i + 1, k))
  {
    WithinFirst(versions, i, k);
    NextVersion(versions, i);
  }

  lemma ForgetLast(versions: seq<string>, j: int, k: int)
    requires Distinct(versions) && 0 <= j < |versions| && 0 <= k <= |versions|
    ensures FirstVersions(versions, Min(j + 1, k)) - {versions[j]} == FirstVersions(versions, Min(j, k))
  {
    WithinFirst(versions, j, k);
    NextVersion(versions, j);
  }

  lemma UpNext(versions: seq<string>, asks: bool, i: int, k: int)
    requires Distinct(versions) && 0 <= i < |versions| && 0 <= k <= |versions|
    ensures var start, v := FirstVersions(versions, k), versions[i];
            var rest := UpScript(versions[i + 1..], asks, start);
            UpScript(versions[i..], asks, start) == if asks && i < k then rest else [ApplyUp(v), Record(v)] + rest
    ensures asks && k <= i ==> Max(i, k) == i && versions[i] !in FirstVersions(versions, i)
  {
    UpUnfolds(versions, i, asks, FirstVersions(versions, k));
    WithinFirst(versions, i, k);
    NextVersion(versions, i);
  }

  lemma DownNext(versions: seq<string>, asks: bool, j: int, k: int)
    requires Distinct(versions) && 0 <= j < |versions| && 0 <= k <= |versions|
    ensures var start, v := FirstVersions(versions, k), versions[j];
            var rest := DownScript(versions[..j], asks, start);
            DownScript(versions[..j + 1], asks, start)
            == if asks && k <= j then rest else [ApplyDown(v), Forget(v)] + rest
    ensures asks && j < k ==> Min(j + 1, k) == j + 1 && versions[j] in FirstVersions(versions, j + 1)
  {
    DownUnfolds(versions, j, asks, FirstVersions(versions, k));
    WithinFirst(versions, j, k);
    NextVersion(versions, j);
  }

  /** The migrations from `i` on, cut after `n` statements; the first `k` were recorded at the start. */
  lemma {:induction false} UpIsGood(versions: seq<string>, asks: bool, i: int, k: int, log: seq<Statement>, n: nat)
    requires Distinct(versions) && 0 <= i <= |versions| && 0 <= k <= |versions| && Good(versions, asks, log)
    requires Recorded(log) == FirstVersions(versions, Max(i, k))
    requires n <= |UpScript(versions[i..], asks, FirstVersions(versions, k))|
    ensures Good(versions, asks, log + UpScript(versions[i..], asks, FirstVersions(versions, k))[..n])
    decreases |versions| - i
  {
    if i < |versions| {
      UpNext(versions, asks, i, k);
      if asks && i < k {
        UpIsGood(versions, asks, i + 1, k, log, n);
      } else {
        var v, rest := versions[i], UpScript(versions[i + 1..], asks, FirstVersions(versions, k));
        RecordNext(versions, i, k);
        PairIsGood(versions, asks, log, ApplyUp(v), Record(v), Max(i + 1, k));
        if n >= 2 {
          UpIsGood(versions, asks, i + 1, k, log + [ApplyUp(v)] + [Record(v)], n - 2);
        }
        CutIsGood(versions, asks, log, ApplyUp(v), Record(v), rest, n);
      }
    } else {
      assert log + [] == log;
    }
  }

  /** The migrations below `i`, in descending order, cut after `n` statements. */
  lemma {:induction false} DownIsGood(versions: seq<string>, asks: bool, i: int, k: int, log: seq<Statement>, n: nat)
    requires Distinct(versions) && 0 <= i <= |versions| && 0 <= k <= |versions| && Good(versions, asks, log)
    requires Recorded(log) == FirstVersions(versions, Min(i, k))
    requires n <= |DownScript(versions[..i], asks, FirstVersions(versions, k))|
    ensures Good(versions, asks, log + DownScript(versions[..i], asks, FirstVersions(versions, k))[..n])
    decreases i
  {
    if i > 0 {
      var j := i - 1;
      DownNext(versions, asks, j, k);
      if asks && k <= j {
        DownIsGood(versions, asks, j, k, log, n);
      } else {
        var v, rest := versions[j], DownScript(versions[..j], asks, FirstVersions(versions, k));
        ForgetLast(versions, j, k);
        PairIsGood(versions, asks, log, ApplyDown(v), Forget(v), Min(j, k));
        if n >= 2 {
          DownIsGood(versions, asks, j, k, log + [ApplyDown(v)] + [Forget(v)], n - 2);
        }
        CutIsGood(versions, asks, log, ApplyDown(v), Forget(v), rest, n);
      }
    } else {
      assert log + [] == log;
    }
  }

  lemma SegmentNow(versions: seq<string>, asks: bool, log: seq<Statement>) returns (k: int)
    requires Good(versions, asks, log)
    ensures 0 <= k <= |versions| && Recorded(log) == FirstVersions(versions, k)
  {
    k :| 0 <= k <= |versions| && Recorded(log) == FirstVersions(versions, k);
  }

  lemma UpOuting(versions: seq<string>, asks: bool, log: seq<Statement>, k: int, n: nat)
    requires Distinct(versions) && Good(versions, asks, log)
    requires 0 <= k <= |versions| && Recorded(log) == FirstVersions(versions, k)
    requires n <= |UpScript(versions, asks, Recorded(log))|
    ensures Good(versions, asks, (log + [CreateTable]) + UpScript(versions, asks, Recorded(log))[..n])
  {
    assert versions[0..] == versions;
    GoodOneMore(versions, asks, log, CreateTable);
    RecordedOneMore(log, CreateTable);
    UpIsGood(versions, asks, 0, k, log + [CreateTable], n);
  }

  lemma CreateThen(log: seq<Statement>, script: seq<Statement>, n: nat)
    requires 1 <= n <= 1 + |script|
    ensures log + ([CreateTable] + script)[..n] == (log + [CreateTable]) + script[..n - 1]
  {
  }

  lemma OutingIsGood(versions: seq<string>, asks: bool, log: seq<Statement>, o: Outing)
    requires Distinct(versions) && Good(versions, asks, log)
    ensures Good(versions, asks, log + Made(versions, asks, o, log))
  {
    var k := SegmentNow(versions, asks, log);
    var script := Script(versions, asks, o.up, log);
    var n := if o.made <= |script| then o.made else |script|;
    assert Made(versions, asks, o, log) == script[..n];
    if n == 0 {
      assert log + script[..n] == log;
    } else if o.up {
      CreateThen(log, UpScript(versions, asks, Recorded(log)), n);
      UpOuting(versions, asks, log, k, n - 1);
    } else {
      assert versions[..|versions|] == versions;
      DownIsGood(versions, asks, |versions|, k, log, n);
    }
  }

  /**
   Whatever faults cut the runs short, starting from an empty database: at every moment the recorded
   versions are an initial segment of all versions, and, where the runner asks what is recorded, `Up` never
   applies what is recorded and `Down` never reverts what is not.
   */
  lemma {:induction false} EveryHistoryIsGood(versions: seq<string>, asks: bool, outs: seq<Outing>)
    requires Ascending(versions)
    ensures Good(versions, asks, History(versions, asks, outs))
  {
    AscendingIsDistinct(versions);
    if outs == [] {
      assert Recorded([]) == FirstVersions(versions, 0);
    } else {
      EveryHistoryIsGood(versions, asks, outs[..|outs| - 1]);
      OutingIsGood(versions, asks, History(versions, asks, outs[..|outs| - 1]), outs[|outs| - 1]);
    }
  }

  // ---- Completed runs ----

  lemma {:induction false} UpRecords(versions: seq<string>, asks: bool, i: int, log: seq<Statement>, start: set<string>)
    requires Distinct(versions) && 0 <= i <= |versions| && Agree(versions, i, |versions|, log, start)
    ensures forall v :: v in Recorded(log + UpScript(versions[i..], asks, start))
                        <==> v in Recorded(log) || exists k :: i <= k < |versions| && versions[k] == v
    decreases |versions| - i
  {
    if i < |versions| {
      UpAdvances(versions, i, log, asks, start);
      RecordedAfterUp(log, versions[i], asks);
      UpRecords(versions, asks, i + 1, log + UpOne(versions[i], asks, Recorded(log)), start);
    } else {
      assert log + [] == log;
    }
  }

  lemma {:induction false} DownForgets(
      versions: seq<string>, asks: bool, i: int, log: seq<Statement>, start: set<string>)
    requires Distinct(versions) && 0 <= i <= |versions| && Agree(versions, 0, i, log, start)
    ensures forall v :: v in Recorded(log + DownScript(versions[..i], asks, start))
                        <==> v in Recorded(log) && !exists k :: 0 <= k < i && versions[k] == v
    decreases i
  {
    if i > 0 {
      DownAdvances(versions, i - 1, log, asks, start);
      RecordedAfterDown(log, versions[i - 1], asks);
      DownForgets(versions, asks, i - 1, log + DownOne(versions[i - 1], asks, Recorded(log)), start);
    } else {
      assert log + [] == log;
    }
  }

  /** A completed `Up` records everything, whatever unfinished runs went before. */
  lemma UpCompletes(versions: seq<string>, asks: bool, outs: seq<Outing>)
    requires Ascending(versions)
    ensures var log := History(versions, asks, outs);
            Recorded(log + Script(versions, asks, true, log)) == FirstVersions(versions, |versions|)
  {
    var log := History(versions, asks, outs);
    AscendingIsDistinct(versions);
    EveryHistoryIsGood(versions, asks, outs);
    var k := SegmentNow(versions, asks, log);
    UpRecordsAll(versions, asks, log, k);
  }

  lemma UpRecordsAll(versions: seq<string>, asks: bool, log: seq<Statement>, k: int)
    requires Distinct(versions) && 0 <= k <= |versions| && Recorded(log) == FirstVersions(versions, k)
    ensures Recorded(log + Script(versions, asks, true, log)) == FirstVersions(versions, |versions|)
  {
    var script := UpScript(versions, asks, Recorded(log));
    assert versions[0..] == versions;
    RecordedOneMore(log, CreateTable);
    UpRecords(versions, asks, 0, log + [CreateTable], Recorded(log));
    Associate(log, [CreateTable], script);
  }

  /** The downs of the versions below `n`, last first, each forgotten right after it is reverted. */
  predicate Reverses(script: seq<Statement>, versions: seq<string>, n: nat)
    requires n <= |versions|
  {
    && |script| == 2 * n
    && forall j :: 0 <= j < n ==>
         script[2 * j] == ApplyDown(versions[n - 1 - j]) && script[2 * j + 1] == Forget(versions[n - 1 - j])
  }

  lemma {:induction false} DownReverses(versions: seq<string>, asks: bool, n: nat, recorded: set<string>)
    requires n <= |versions| && forall i :: 0 <= i < n ==> versions[i] in recorded
    ensures Reverses(DownScript(versions[..n], asks, recorded), versions, n)
  {
    if n > 0 {
      DownUnfolds(versions, n - 1, asks, recorded);
      DownReverses(versions, asks, n - 1, recorded);
      ReversesOneMore(DownScript(versions[..n - 1], asks, recorded), versions, n);
    }
  }

  lemma ReversesOneMore(rest: seq<Statement>, versions: seq<string>, n: nat)
    requires 0 < n <= |versions| && Reverses(rest, versions, n - 1)
    ensures Reverses([ApplyDown(versions[n - 1]), Forget(versions[n - 1])] + rest, versions, n)
  {
    var script := [ApplyDown(versions[n - 1]), Forget(versions[n - 1])] + rest;
    forall j | 0 <= j < n
      ensures script[2 * j] == ApplyDown(versions[n - 1 - j]) && script[2 * j + 1] == Forget(versions[n - 1 - j])
    {
      if j > 0 {
        assert script[2 * j] == rest[2 * (j - 1)] && script[2 * j + 1] == rest[2 * (j - 1) + 1];
      }
    }
  }

  /**
   After a completed `Up`, a completed `Down` reverts all versions in exactly the reverse order and leaves
   nothing recorded.
   */
  lemma DownUndoesUp(versions: seq<string>, asks: bool, outs: seq<Outing>)
    requires Ascending(versions)
    ensures var log := History(versions, asks, outs);
            var up := log + Script(versions, asks, true, log);
            && Reverses(Script(versions, asks, false, up), versions, |versions|)
            && Recorded(up + Script(versions, asks, false, up)) == {}
  {
    var log := History(versions, asks, outs);
    var up := log + Script(versions, asks, true, log);
    AscendingIsDistinct(versions);
    UpCompletes(versions, asks, outs);
    assert versions[..|versions|] == versions;
    DownReverses(versions, asks, |versions|, Recorded(up));
    DownForgets(versions, asks, |versions|, up, Recorded(up));
  }

  // ---- What is in effect ----

  /** The migrations whose script was run up and not down since. */
  function InEffect(log: seq<Statement>): set<string>
  {
    if log == [] then {}
    else
      var before, s := InEffect(log[..|log| - 1]), log[|log| - 1];
      if s.ApplyUp? then before + {s.version} else if s.ApplyDown? then before - {s.version} else before
  }

  /** The last statement about a version. */
  function LastAbout(log: seq<Statement>, v: string): Option<Statement>
  {
    if log == [] then None
    else
      var s := log[|log| - 1];
      if !s.CreateTable? && s.version == v then Some(s) else LastAbout(log[..|log| - 1], v)
  }

  /** What the last statement about a version tells: only between a migration and its record do the two differ. */
  lemma {:induction false} LastTells(versions: seq<string>, asks: bool, log: seq<Statement>, v: string)
    requires Good(versions, asks, log)
    ensures match LastAbout(log, v)
            case None => v !in InEffect(log) && v !in Recorded(log)
            case Some(s) =>
              && !s.CreateTable? && s.version == v
              && (v in InEffect(log) <==> s.ApplyUp? || s.Record?)
              && (asks || s.Record? || s.Forget? ==> (v in Recorded(log) <==> s.Record? || s.ApplyDown?))
  {
    if log != [] {
      LastTells(versions, asks, log[..|log| - 1], v);
    }
  }

  /** `Up` applies exactly the versions not recorded, or all of them if it cannot ask. */
  lemma {:induction false} UpApplies(versions: seq<string>, asks: bool, recorded: set<string>, v: string)
    ensures ApplyUp(v) in UpScript(versions, asks, recorded) <==> v in versions && !(asks && v in recorded)
  {
    if versions != [] {
      UpApplies(versions[1..], asks, recorded, v);
      assert versions == [versions[0]] + versions[1..];
    }
  }

  /** `Down` reverts exactly the versions recorded, or all of them if it cannot ask. */
  lemma {:induction false} DownReverts(versions: seq<string>, asks: bool, recorded: set<string>, v: string)
    ensures ApplyDown(v) in DownScript(versions, asks, recorded) <==> v in versions && !(asks && v !in recorded)
  {
    if versions != [] {
      var n := |versions| - 1;
      DownReverts(versions[..n], asks, recorded, v);
      assert versions == versions[..n] + [versions[n]];
    }
  }

  lemma {:induction false} NothingElse(versions: seq<string>, asks: bool, recorded: set<string>)
    ensures forall s :: s in UpScript(versions, asks, recorded) ==> !s.ApplyDown?
    ensures forall s :: s in DownScript(versions, asks, recorded) ==> !s.ApplyUp?
  {
    if versions != [] {
      NothingElse(versions[1..], asks, recorded);
      NothingElse(versions[..|versions| - 1], asks, recorded);
    }
  }

  lemma {:induction false} EffectsOf(log: seq<Statement>, more: seq<Statement>, v: string)
    ensures (forall s :: s in more ==> !s.ApplyDown?) ==>
              (v in InEffect(log + more) <==> v in InEffect(log) || ApplyUp(v) in more)
    ensures (forall s :: s in more ==> !s.ApplyUp?) ==>
              (v in InEffect(log + more) <==> v in InEffect(log) && ApplyDown(v) !in more)
  {
    if more == [] {
      assert log + more == log;
    } else {
      var n := |more| - 1;
      EffectsOf(log, more[..n], v);
      assert (log + more)[..|log + more| - 1] == log + more[..n];
      assert more == more[..n] + [more[n]];
    }
  }

  /**
   What a completed `Up` achieves after any history: a version is in effect unless the runner asks and the
   last statement about it ran it down without forgetting it. Such a version is taken for applied, and skipped.
   */
  lemma UpExact(versions: seq<string>, asks: bool, outs: seq<Outing>, v: string)
    requires Ascending(versions) && v in versions
    ensures var log := History(versions, asks, outs);
            v in InEffect(log + Script(versions, asks, true, log))
            <==> !(asks && LastAbout(log, v) == Some(ApplyDown(v)))
  {
    var log := History(versions, asks, outs);
    EveryHistoryIsGood(versions, asks, outs);
    LastTells(versions, asks, log, v);
    UpApplies(versions, asks, Recorded(log), v);
    NothingElse(versions, asks, Recorded(log));
    EffectsOf(log, Script(versions, asks, true, log), v);
  }

  /** And a completed `Down`: a version that was run up and not recorded stays in effect, and is skipped. */
  lemma DownExact(versions: seq<string>, asks: bool, outs: seq<Outing>, v: string)
    requires Ascending(versions) && v in versions
    ensures var log := History(versions, asks, outs);
            v !in InEffect(log + Script(versions, asks, false, log))
            <==> !(asks && LastAbout(log, v) == Some(ApplyUp(v)))
  {
    var log := History(versions, asks, outs);
    EveryHistoryIsGood(versions, asks, outs);
    LastTells(versions, asks, log, v);
    DownReverts(versions, asks, Recorded(log), v);
    NothingElse(versions, asks, Recorded(log));
    EffectsOf(log, Script(versions, asks, false, log), v);
  }

  /**
   A migration that is in effect is applied again, and one that is not is reverted again, exactly when the
   runner cannot ask or the last statement about it is that same one, made and not recorded.
   */
  lemma RepeatsExact(versions: seq<string>, asks: bool, outs: seq<Outing>, v: string)
    requires Ascending(versions) && v in versions
    ensures var log := History(versions, asks, outs);
            && (v in InEffect(log) ==>
                  (ApplyUp(v) in Script(versions, asks, true, log) <==> !asks || LastAbout(log, v) == Some(ApplyUp(v))))
            && (v !in InEffect(log) ==>
                  (ApplyDown(v) in Script(versions, asks, false, log)
                   <==> !asks || LastAbout(log, v) == Some(ApplyDown(v))))
            && (LastAbout(log, v) == Some(ApplyUp(v)) ==> v in InEffect(log))
            && (LastAbout(log, v) == Some(ApplyDown(v)) ==> v !in InEffect(log))
  {
    var log := History(versions, asks, outs);
    EveryHistoryIsGood(versions, asks, outs);
    LastTells(versions, asks, log, v);
    UpApplies(versions, asks, Recorded(log), v);
    DownReverts(versions, asks, Recorded(log), v);
  }

  lemma CompletedOuting(versions: seq<string>, asks: bool, outs: seq<Outing>)
    ensures var log := History(versions, asks, outs);
            var up := Script(versions, asks, true, log);
            History(versions, asks, outs + [Outing(true, |up|)]) == log + up
  {
    assert (outs + [Outing(true, |Script(versions, asks, true, History(versions, asks, outs))|)])[..|outs|] == outs;
  }

  /** A completed `Up` and a completed `Down` together leave nothing in effect, whatever went before. */
  lemma NothingInEffect(versions: seq<string>, asks: bool, outs: seq<Outing>, v: string)
    requires Ascending(versions) && v in versions
    ensures var log := History(versions, asks, outs);
            var up := log + Script(versions, asks, true, log);
            v !in InEffect(up + Script(versions, asks, false, up))
  {
    var log := History(versions, asks, outs);
    var more := outs + [Outing(true, |Script(versions, asks, true, log)|)];
    CompletedOuting(versions, asks, outs);
    UpCompletes(versions, asks, outs);
    EveryHistoryIsGood(versions, asks, more);
    LastTells(versions, asks, History(versions, asks, more), v);
    DownExact(versions, asks, more, v);
  }

  /** A completed `Up`, a `Down` cut before its first record, and the next `Up` does nothing about it. */
  lemma RevertedIsSkipped(v: string)
    ensures var outs := [Outing(true, 3), Outing(false, 1)];
            var log := History([v], true, outs);
            && log == [CreateTable, ApplyUp(v), Record(v), ApplyDown(v)]
            && Script([v], true, true, log) == [CreateTable] && v !in InEffect(log + [CreateTable])
  {
    var up, down := Outing(true, 3), Outing(false, 1);
    var first := [CreateTable] + [ApplyUp(v), Record(v)];
    assert [v][1..] == [] && [v][..0] == [] && [up, down][..1] == [up] && [up][..0] == [];
    assert UpScript([v], true, {}) == [ApplyUp(v), Record(v)];
    assert History([v], true, [up]) == first;
    RecordedOneMore([], CreateTable);
    RecordedTwoMore([CreateTable], ApplyUp(v), Record(v));
    assert Recorded(first) == {v};
    assert DownScript([v], true, {v}) == [ApplyDown(v), Forget(v)];
    var log := first + [ApplyDown(v)];
    assert History([v], true, [up, down]) == log;
    RecordedOneMore(first, ApplyDown(v));
    assert UpScript([v], true, {v}) == [] + UpScript([], true, {v});
    assert (log + [CreateTable])[..4] == log && log[..3] == first && v !in InEffect(log);
  }
}
