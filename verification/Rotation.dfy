/** Loading and rotating venue credentials against a vault; runs are serial. */
module Rotation {
  import opened Wrappers

  datatype Secret = Secret(value: string, version: string, leaseId: string)

  datatype Credentials = Credentials(apiKey: string, apiSecret: string, version: string, leaseId: string, loadedAt: int)

  /** The vault's answers to the two reads of one load, and the clock. */
  datatype Read = Read(key: Option<Secret>, secret: Option<Secret>, now: int)

  datatype Probe = NoProbe | Passes | Fails

  /** A revocation that the vault is asked for and does not carry out is an event of its own. */
  datatype VaultEvent = Probed(leaseId: string, ok: bool) | Revoked(leaseId: string) | StillValid(leaseId: string)

  datatype Vault = Vault(current: Option<Credentials>, log: seq<VaultEvent>)

  /** `revokes` tells whether the vault carries out a revocation; a rotation does not look at its answer. */
  datatype Act = Load(read: Read) | Rotate(read: Read, probe: Probe, revokes: bool) | RevokeOld(revokes: bool)

  function Answered(leaseId: string, revokes: bool): VaultEvent
  {
    if revokes then Revoked(leaseId) else StillValid(leaseId)
  }

  /** The lease kept is that of the key; the secret's own lease is ignored. */
  function Loaded(r: Read): Option<Credentials>
  {
    if r.key.None? || r.secret.None? then None
    else Some(Credentials(r.key.value.value, r.secret.value.value, r.key.value.version, r.key.value.leaseId, r.now))
  }

  /** The credentials an act brings, if any. */
  function Given(a: Act): Option<Credentials>
  {
    if a.RevokeOld? then None else Loaded(a.read)
  }

  function Asked(s: Vault, lease: string, revokes: bool): Vault
  {
    s.(log := s.log + [Answered(lease, revokes)])
  }

  function Step(s: Vault, a: Act): Vault
  {
    var lease := if s.current.Some? then s.current.value.leaseId else "";
    match a
    case RevokeOld(revokes) => if lease == "" then s else Asked(s, lease, revokes)
    case Load(read) => if Loaded(read).None? then s else s.(current := Loaded(read))
    case Rotate(read, probe, revokes) =>
      if Loaded(read).None? then s
      else
        var next := Loaded(read).value.leaseId;
        var probed := Vault(Loaded(read), if probe.NoProbe? then s.log else s.log + [Probed(next, probe.Passes?)]);
        if probe.Fails? || lease == "" || lease == next then probed else Asked(probed, lease, revokes)
  }

  class Manager {
    var current: Option<Credentials>
    ghost var log: seq<VaultEvent>

    ghost function State(): Vault
      reads this
    {
      Vault(current, log)
    }

    constructor ()
      ensures State() == Vault(None, [])
    {
      current, log := None, [];
    }

    method LoadCredentials(read: Read) returns (creds: Option<Credentials>)
      modifies this
      ensures creds == Loaded(read)
      ensures State() == Step(old(State()), Load(read))
    {
      if read.key.None? {
        return None;
      }
      if read.secret.None? {
        return None;
      }
      creds := Some(Credentials(read.key.value.value, read.secret.value.value, read.key.value.version,
                                read.key.value.leaseId, read.now));
      current := creds;
    }

    /** A failed probe is reported, but the new credentials stay and the old lease is not revoked. */
    method RotateCredentials(read: Read, probe: Probe, revokes: bool) returns (creds: Option<Credentials>)
      modifies this
      ensures creds == if probe.Fails? then None else Loaded(read)
      ensures !probe.NoProbe? && Loaded(read).Some? ==>
                old(log) + [Probed(read.key.value.leaseId, probe.Passes?)] <= log
      ensures State() == Step(old(State()), Rotate(read, probe, revokes))
    {
      var before := current;
      creds := LoadCredentials(read);
      if creds.None? {
        return None;
      }
      if !probe.NoProbe? {
        log := log + [Probed(creds.value.leaseId, probe.Passes?)];
        if probe.Fails? {
          return None;
        }
      }
      if before.Some? && before.value.leaseId != "" && before.value.leaseId != creds.value.leaseId {
        log := log + [Answered(before.value.leaseId, revokes)];
      }
    }

    /** Despite its name it asks to revoke the lease in use; the vault's answer is passed on. */
    method RevokeOld(revokes: bool) returns (ok: bool)
      modifies this`log
      ensures State() == Step(old(State()), Act.RevokeOld(revokes))
      ensures ok == (revokes || State() == old(State()))
    {
      if current.None? || current.value.leaseId == "" {
        return true;
      }
      log := log + [Answered(current.value.leaseId, revokes)];
      return revokes;
    }
  }

  // ---- Runs ----

  function Run(acts: seq<Act>): Vault
  {
    if acts == [] then Vault(None, []) else Step(Run(acts[..|acts| - 1]), acts[|acts| - 1])
  }

  /** The leases of the successful loads, in order. */
  function Leases(acts: seq<Act>): seq<string>
  {
    if acts == [] then []
    else
      var n := |acts| - 1;
      var creds := Given(acts[n]);
      Leases(acts[..n]) + if creds.Some? then [creds.value.leaseId] else []
  }

  /** The vault does not go back to a lease after giving out another. */
  predicate NeverReturns(ls: seq<string>)
  {
    forall i, j, k :: 0 <= i < j < k < |ls| && ls[i] == ls[k] && ls[i] != "" ==> ls[j] == ls[i]
  }

  predicate IsRevoked(log: seq<VaultEvent>, lease: string)
  {
    Revoked(lease) in log
  }

  /** The lease in use is not one that was revoked. */
  predicate Safe(s: Vault)
  {
    s.current.Some? ==> !IsRevoked(s.log, s.current.value.leaseId)
  }

  /** A load, or a rotation, whose two reads both succeed. */
  predicate ReadsBoth(a: Act)
  {
    !a.RevokeOld? && a.read.key.Some? && a.read.secret.Some?
  }

  /** The credentials in use are those of the last act that read both: key of the key, secret of the secret. */
  lemma {:induction false} CurrentIsLastRead(acts: seq<Act>, n: int)
    requires 0 <= n < |acts| && ReadsBoth(acts[n]) && forall j :: n < j < |acts| ==> !ReadsBoth(acts[j])
    ensures var r := acts[n].read;
            var k, s := r.key.value, r.secret.value;
            Run(acts).current == Some(Credentials(k.value, s.value, k.version, k.leaseId, r.now))
  {
    var last := |acts| - 1;
    if n < last {
      assert !ReadsBoth(acts[last]);
      CurrentIsLastRead(acts[..last], n);
    }
  }

  lemma {:induction false} NoneIsRead(acts: seq<Act>)
    requires forall j :: 0 <= j < |acts| ==> !ReadsBoth(acts[j])
    ensures Run(acts).current == None
  {
    if acts != [] {
      assert !ReadsBoth(acts[|acts| - 1]);
      NoneIsRead(acts[..|acts| - 1]);
    }
  }

  lemma {:induction false} CurrentIsLast(acts: seq<Act>)
    ensures var s, ls := Run(acts), Leases(acts);
            if ls == [] then s.current.None? else s.current.Some? && s.current.value.leaseId == ls[|ls| - 1]
  {
    if acts != [] {
      CurrentIsLast(acts[..|acts| - 1]);
    }
  }

  /** Rotations without a probe through the given leases, every revocation accepted. */
  function Rotations(ls: seq<string>): seq<Act>
  {
    seq(|ls|, i requires 0 <= i < |ls| =>
      Rotate(Read(Some(Secret("", "", ls[i])), Some(Secret("", "", "")), 0), NoProbe, true))
  }

  lemma {:induction false} RotationsRevoke(ls: seq<string>)
    ensures var s := Run(Rotations(ls));
            && (ls == [] ==> s.current.None?)
            && (ls != [] ==> s.current.Some? && s.current.value.leaseId == ls[|ls| - 1])
            && (forall i :: 0 <= i < |ls| - 1 && ls[i] != "" && ls[i] != ls[i + 1] ==> IsRevoked(s.log, ls[i]))
  {
    if ls != [] {
      var n := |ls| - 1;
      RotationsRevoke(ls[..n]);
      assert Rotations(ls)[..n] == Rotations(ls[..n]);
      forall i | 0 <= i < n && ls[i] != "" && ls[i] != ls[i + 1]
        ensures IsRevoked(Run(Rotations(ls)).log, ls[i])
      {
        if i < n - 1 {
          assert ls[..n][i] != ls[..n][i + 1];
        }
      }
    }
  }

  lemma {:induction false} LeavesSomewhere(ls: seq<string>, i: int, j: int) returns (m: int)
    requires 0 <= i < j < |ls| && ls[j] != ls[i]
    ensures i <= m < j && ls[m] == ls[i] && ls[m + 1] != ls[m]
    decreases j - i
  {
    if ls[i + 1] != ls[i] {
      m := i;
    } else {
      m := LeavesSomewhere(ls, i + 1, j);
    }
  }

  /** And only then: wherever a vault does return to a lease, rotating all along ends up using a revoked one. */
  lemma ReturningIsUnsafe(ls: seq<string>, i: int, j: int, k: int)
    requires 0 <= i < j < k < |ls| && ls[i] == ls[k] && ls[i] != "" && ls[j] != ls[i]
    ensures !Safe(Run(Rotations(ls[..k + 1])))
  {
    var m := LeavesSomewhere(ls, i, j);
    RotationsRevoke(ls[..k + 1]);
    assert ls[..k + 1][m] == ls[m] && ls[..k + 1][m + 1] == ls[m + 1] && ls[..k + 1][k] == ls[k];
  }

  // ---- Which leases are revoked ----

  predicate InUse(s: Vault, lease: string)
  {
    s.current.Some? && s.current.value.leaseId == lease
  }

  /** The act replaces the lease in use, `lease`, by another. */
  predicate Replaces(s: Vault, a: Act, lease: string)
  {
    InUse(s, lease) && Given(a).Some? && Given(a).value.leaseId != lease
  }

  predicate LeftAt(acts: seq<Act>, n: int, lease: string)
  {
    0 <= n < |acts| && Replaces(Run(acts[..n]), acts[n], lease)
  }

  /** Only a rotation whose probe, if it has one, passes revokes the lease it replaces, if the vault does so. */
  predicate Revokes(a: Act)
  {
    a.Rotate? && !a.probe.Fails? && a.revokes
  }

  /** The lease was in use when `RevokeOld` got it revoked. */
  predicate RevokedInUseAt(acts: seq<Act>, n: int, lease: string)
  {
    0 <= n < |acts| && acts[n].RevokeOld? && acts[n].revokes && InUse(Run(acts[..n]), lease)
  }

  predicate RevokedAt(acts: seq<Act>, n: int, lease: string)
  {
    (LeftAt(acts, n, lease) && Revokes(acts[n])) || RevokedInUseAt(acts, n, lease)
  }

  lemma StepRevokes(s: Vault, a: Act, lease: string)
    ensures IsRevoked(Step(s, a).log, lease)
            <==> || IsRevoked(s.log, lease)
                 || (lease != "" && Replaces(s, a, lease) && Revokes(a))
                 || (lease != "" && InUse(s, lease) && a.RevokeOld? && a.revokes)
  {
    if a.Rotate? && Loaded(a.read).Some? {
      var log, p := s.log, Probed(Loaded(a.read).value.leaseId, a.probe.Passes?);
      assert Revoked(lease) in log + [p] <==> Revoked(lease) in log;
    }
  }

  /** Exactly the leases that have a name and at some point were left or called back in such a way are revoked. */
  lemma {:induction false} RevokedExact(acts: seq<Act>, lease: string)
    ensures IsRevoked(Run(acts).log, lease) <==> lease != "" && exists n :: RevokedAt(acts, n, lease)
  {
    if acts != [] {
      var n := |acts| - 1;
      RevokedExact(acts[..n], lease);
      RevokedAtSome(acts, lease);
      StepRevokes(Run(acts[..n]), acts[n], lease);
    }
  }

  lemma RevokedAtSome(acts: seq<Act>, lease: string)
    requires acts != []
    ensures var n := |acts| - 1;
            (exists i :: RevokedAt(acts, i, lease))
            <==> (exists i :: RevokedAt(acts[..n], i, lease)) || RevokedAt(acts, n, lease)
  {
    var n := |acts| - 1;
    forall i | 0 <= i < n
      ensures RevokedAt(acts, i, lease) <==> RevokedAt(acts[..n], i, lease)
    {
      assert acts[..n][..i] == acts[..i];
    }
    if exists i :: RevokedAt(acts[..n], i, lease) {
      var i :| RevokedAt(acts[..n], i, lease);
      assert RevokedAt(acts, i, lease);
    }
  }

  lemma OneMoreLease(acts: seq<Act>, i: nat)
    requires i < |acts|
    ensures Leases(acts[..i + 1])
            == Leases(acts[..i]) + if Given(acts[i]).Some? then [Given(acts[i]).value.leaseId] else []
  {
    assert acts[..i + 1][..i] == acts[..i];
  }

  lemma {:induction false} LeasesGrow(acts: seq<Act>, i: nat, j: nat)
    requires i <= j <= |acts|
    ensures Leases(acts[..i]) <= Leases(acts[..j])
    decreases j - i
  {
    if i < j {
      LeasesGrow(acts, i, j - 1);
      OneMoreLease(acts, j - 1);
    }
  }

  lemma InUseIsLast(acts: seq<Act>, lease: string)
    requires InUse(Run(acts), lease)
    ensures Leases(acts) != [] && Leases(acts)[|Leases(acts)| - 1] == lease
  {
    CurrentIsLast(acts);
  }

  lemma LeftForAnother(acts: seq<Act>, i: int, lease: string) returns (other: string)
    requires LeftAt(acts, i, lease)
    ensures other != lease && Leases(acts[..i + 1]) == Leases(acts[..i]) + [other]
    ensures Leases(acts[..i]) != [] && Leases(acts[..i])[|Leases(acts[..i])| - 1] == lease
  {
    OneMoreLease(acts, i);
    InUseIsLast(acts[..i], lease);
    other := Given(acts[i]).value.leaseId;
  }

  lemma LeasesOfPrefix(acts: seq<Act>, j: nat)
    requires j <= |acts|
    ensures Leases(acts[..j]) <= Leases(acts)
  {
    LeasesGrow(acts, j, |acts|);
    assert acts[..|acts|] == acts;
  }

  /** The leases given out until `lease` is left, with the next one, and until it is in use again. */
  lemma LeasesUntil(acts: seq<Act>, i: int, j: int, lease: string)
    returns (a: seq<string>, other: string, c: seq<string>, b: seq<string>)
    requires LeftAt(acts, i, lease) && i < j <= |acts| && InUse(Run(acts[..j]), lease)
    ensures a != [] && a[|a| - 1] == lease && b != [] && b[|b| - 1] == lease && other != lease
    ensures c == a + [other] && c <= b && b <= Leases(acts)
  {
    a, c, b := Leases(acts[..i]), Leases(acts[..i + 1]), Leases(acts[..j]);
    other := LeftForAnother(acts, i, lease);
    InUseIsLast(acts[..j], lease);
    LeasesGrow(acts, i + 1, j);
    LeasesOfPrefix(acts, j);
  }

  /** A lease that is left and in use again was returned to. */
  lemma LeftForGood(acts: seq<Act>, i: int, j: int, lease: string)
    requires LeftAt(acts, i, lease) && i < j <= |acts| && InUse(Run(acts[..j]), lease) && lease != ""
    ensures !NeverReturns(Leases(acts))
  {
    var a, other, c, b := LeasesUntil(acts, i, j, lease);
    Returned(Leases(acts), a, other, c, b, lease);
  }

  lemma Returned(ls: seq<string>, a: seq<string>, other: string, c: seq<string>, b: seq<string>, lease: string)
    requires c == a + [other] && c <= b && b <= ls && a != [] && a[|a| - 1] == lease && b[|b| - 1] == lease
    requires other != lease && lease != ""
    ensures !NeverReturns(ls)
  {
    assert ls[|a| - 1] == b[|a| - 1] == c[|a| - 1] == lease;
    assert ls[|a|] == b[|a|] == c[|a|] == other;
    assert ls[|b| - 1] == lease;
  }

  /**
   If the vault never goes back to a lease it had replaced, the lease in use is revoked if and only if
   `RevokeOld` did it, whatever loads, rotations, failed reads and failed probes there were.
   */
  lemma CurrentIsSafe(acts: seq<Act>)
    requires NeverReturns(Leases(acts))
    ensures Safe(Run(acts))
            <==> forall n, lease :: InUse(Run(acts), lease) && lease != "" ==> !RevokedInUseAt(acts, n, lease)
  {
    assert acts[..|acts|] == acts;
    if Run(acts).current.Some? {
      var lease := Run(acts).current.value.leaseId;
      RevokedExact(acts, lease);
      forall n | RevokedAt(acts, n, lease) && lease != ""
        ensures RevokedInUseAt(acts, n, lease)
      {
        if LeftAt(acts, n, lease) {
          LeftForGood(acts, n, |acts|, lease);
        }
      }
      forall n | RevokedInUseAt(acts, n, lease)
        ensures RevokedAt(acts, n, lease)
      {
      }
    }
  }

  lemma {:induction false} LeftSomewhere(acts: seq<Act>, lease: string) returns (n: int)
    requires lease in Leases(acts) && !InUse(Run(acts), lease)
    ensures LeftAt(acts, n, lease)
  {
    n := |acts| - 1;
    CurrentIsLast(acts[..n]);
    CurrentIsLast(acts);
    if !LeftAt(acts, n, lease) {
      n := LeftSomewhere(acts[..n], lease);
      assert acts[..|acts| - 1][..n] == acts[..n];
    }
  }

  /**
   The leak, exactly: of the leases that were given out and are no longer in use, those were never revoked
   that were replaced by a load, by a rotation whose probe failed, or by one whose revocation the vault did
   not carry out, unless `RevokeOld` got them revoked before; if the vault never goes back to a lease.
   */
  lemma UnrevokedExact(acts: seq<Act>, lease: string)
    requires NeverReturns(Leases(acts)) && lease in Leases(acts) && lease != "" && !InUse(Run(acts), lease)
    ensures !IsRevoked(Run(acts).log, lease)
            <==> && (exists n :: LeftAt(acts, n, lease) && !Revokes(acts[n]))
                 && forall n :: !RevokedInUseAt(acts, n, lease)
  {
    RevokedExact(acts, lease);
    var n := LeftSomewhere(acts, lease);
    forall i | LeftAt(acts, i, lease)
      ensures i == n
    {
      if i < n {
        LeftForGood(acts, i, n, lease);
      } else if n < i {
        LeftForGood(acts, n, i, lease);
      }
    }
    if RevokedAt(acts, n, lease) || exists i :: RevokedInUseAt(acts, i, lease) {
      assert exists i :: RevokedAt(acts, i, lease) by {
        if !RevokedAt(acts, n, lease) {
          var i :| RevokedInUseAt(acts, i, lease);
          assert RevokedAt(acts, i, lease);
        }
      }
    }
  }

  // ---- Nothing is revoked before its successor has been probed ----

  predicate AllProbed(acts: seq<Act>)
  {
    forall i :: 0 <= i < |acts| ==> !acts[i].RevokeOld? && (acts[i].Rotate? ==> !acts[i].probe.NoProbe?)
  }

  predicate RevokedAfterProbe(log: seq<VaultEvent>)
  {
    forall p :: 0 <= p < |log| && !log[p].Probed? ==>
      p > 0 && log[p - 1].Probed? && log[p - 1].ok && log[p - 1].leaseId != log[p].leaseId
  }

  /** With a probe in every rotation, each revocation directly follows a successful probe of another lease. */
  lemma {:induction false} ProbeBeforeRevoke(acts: seq<Act>)
    requires AllProbed(acts)
    ensures RevokedAfterProbe(Run(acts).log)
  {
    if acts != [] {
      var n := |acts| - 1;
      ProbeBeforeRevoke(acts[..n]);
      assert !acts[n].RevokeOld? && (acts[n].Rotate? ==> !acts[n].probe.NoProbe?);
      StepKeepsProbes(Run(acts[..n]), acts[n]);
    }
  }

  lemma StepKeepsProbes(s: Vault, a: Act)
    requires RevokedAfterProbe(s.log) && !a.RevokeOld? && (a.Rotate? ==> !a.probe.NoProbe?)
    ensures RevokedAfterProbe(Step(s, a).log)
  {
    if a.Rotate? && Loaded(a.read).Some? {
      assert RevokedAfterProbe(s.log + [Probed(Loaded(a.read).value.leaseId, a.probe.Passes?)]);
    }
  }
}
