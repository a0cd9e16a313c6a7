/**
  How `set_provider_metadata` comes out, decided by the schedule of faults alone: operation by
  operation, in the order in which the command asks the two stores.
 */
module ProviderOutcome {
  import opened Wrappers
  import opened ProviderVault
  import opened ProviderSafety

  /** What operation number `i` meets; behind the schedule everything works. */
  function FaultAt(faults: seq<Fault>, i: nat): Fault {
    if i < |faults| then faults[i] else Works
  }

  /** The operations from number `low` up to `high` all work. */
  predicate AllWork(faults: seq<Fault>, low: nat, high: nat) {
    forall i :: low <= i < high ==> FaultAt(faults, i).Works?
  }

  function After(faults: seq<Fault>, n: nat): seq<Fault> {
    if n <= |faults| then faults[n..] else []
  }

  lemma AfterAt(faults: seq<Fault>, n: nat, i: nat)
    ensures FaultAt(After(faults, n), i) == FaultAt(faults, n + i)
  {
  }

  lemma AfterTwice(faults: seq<Fault>, m: nat, n: nat)
    ensures After(After(faults, m), n) == After(faults, m + n)
  {
  }

  lemma AllWorkAfter(faults: seq<Fault>, n: nat, low: nat, high: nat)
    ensures AllWork(After(faults, n), low, high) <==> AllWork(faults, n + low, n + high)
  {
    forall i: nat
      ensures FaultAt(After(faults, n), i) == FaultAt(faults, n + i)
    {
      AfterAt(faults, n, i);
    }
    assert forall i :: n + low <= i < n + high ==> FaultAt(faults, i) == FaultAt(After(faults, n), i - n);
  }

  lemma AllWorkFirst(faults: seq<Fault>, n: nat)
    ensures AllWork(faults, 0, n + 1) <==> FaultAt(faults, 0).Works? && AllWork(After(faults, 1), 0, n)
  {
    AllWorkAfter(faults, 1, 0, n);
  }

  // ---------- the phases ----------

  lemma {:induction false} CollectsIffReadsWork(v: Vault, removed: seq<Provider>)
    ensures var c := Collect(v, removed);
            && (c.ok <==> AllWork(v.faults, 0, |removed|))
            && (c.ok ==> c.vault.faults == After(v.faults, |removed|) && |c.credentials| == |removed|)
    decreases |removed|
  {
    if removed != [] {
      AllWorkFirst(v.faults, |removed| - 1);
      if v.NextFault().Works? {
        CollectsIffReadsWork(v.Read(), removed[1..]);
        AfterTwice(v.faults, 1, |removed| - 1);
      }
    }
  }

  /** How many credentials there are to restore. */
  function ToRestore(credentials: seq<Credential>): nat {
    if credentials == [] then 0
    else (if credentials[0].secret.Some? then 1 else 0) + ToRestore(credentials[1..])
  }

  lemma {:induction false} RestoresIffSetsWork(v: Vault, credentials: seq<Credential>)
    ensures RestoreFails(v, credentials) <==> !AllWork(v.faults, 0, ToRestore(credentials))
    ensures RestoreAll(v, credentials).faults == After(v.faults, ToRestore(credentials))
    decreases |credentials|
  {
    if credentials != [] {
      var c := credentials[0];
      if c.secret.None? {
        RestoresIffSetsWork(v, credentials[1..]);
      } else {
        AllWorkFirst(v.faults, ToRestore(credentials[1..]));
        RestoresIffSetsWork(v.Restore(c.id, c.secret.value), credentials[1..]);
        AfterTwice(v.faults, 1, ToRestore(credentials[1..]));
      }
    }
  }

  lemma OneMoreWorks(faults: seq<Fault>, k: nat)
    ensures AllWork(faults, 0, k + 1) <==> AllWork(faults, 0, k) && FaultAt(After(faults, k), 0).Works?
  {
    AfterAt(faults, k, 0);
  }

  lemma UndoIsComplete(v: Vault, old_: seq<Provider>, credentials: seq<Credential>)
    ensures Undo(v, old_, credentials).0 == Undone(AllWork(v.faults, 0, ToRestore(credentials) + 1))
  {
    RestoresIffSetsWork(v, credentials);
    OneMoreWorks(v.faults, ToRestore(credentials));
  }

  /** The first operation from number `low` on that does not work, or `high`. */
  function FirstFault(faults: seq<Fault>, low: nat, high: nat): (j: nat)
    requires low <= high
    ensures low <= j <= high && AllWork(faults, low, j) && (j < high ==> !FaultAt(faults, j).Works?)
    decreases high - low
  {
    if low == high || !FaultAt(faults, low).Works? then low else FirstFault(faults, low + 1, high)
  }

  lemma {:induction false} FirstFaultAfter(faults: seq<Fault>, n: nat, low: nat, high: nat)
    requires low <= high
    ensures FirstFault(faults, n + low, n + high) == n + FirstFault(After(faults, n), low, high)
    decreases high - low
  {
    AfterAt(faults, n, low);
    if low < high && FaultAt(faults, n + low).Works? {
      FirstFaultAfter(faults, n, low + 1, high);
    }
  }

  /** How the deletes come out: all work, or behind the first that does not `restores` sets and a write follow. */
  function DeletesForetold(faults: seq<Fault>, deletes: nat, restores: nat): Outcome {
    var j := FirstFault(faults, 0, deletes);
    if j == deletes then Done else Undone(AllWork(faults, j + 1, j + 1 + restores + 1))
  }

  lemma ForetoldLater(faults: seq<Fault>, deletes: nat, restores: nat)
    requires FaultAt(faults, 0).Works?
    ensures DeletesForetold(faults, deletes + 1, restores) == DeletesForetold(After(faults, 1), deletes, restores)
  {
    var j := FirstFault(After(faults, 1), 0, deletes);
    FirstFaultAfter(faults, 1, 0, deletes);
    AllWorkAfter(faults, 1, j + 1, j + 1 + restores + 1);
  }

  lemma {:induction false} DeletesAsForetold(v: Vault, old_: seq<Provider>, all: seq<Credential>, rest: seq<Credential>)
    ensures DeleteAll(v, old_, all, rest).0 == DeletesForetold(v.faults, |rest|, ToRestore(all))
    decreases |rest|
  {
    if rest != [] {
      var u := v.Delete(rest[0].id);
      if v.NextFault().Works? {
        DeletesAsForetold(u, old_, all, rest[1..]);
        ForetoldLater(v.faults, |rest| - 1, ToRestore(all));
      } else {
        UndoIsComplete(u, old_, all);
        AllWorkAfter(v.faults, 1, 0, ToRestore(all) + 1);
      }
    }
  }

  // ---------- the command ----------

  /** How many of the providers to drop have a secret, which a recovery would restore. */
  function SecretsOf(removed: seq<Provider>, secrets: map<string, string>): nat {
    if removed == [] then 0
    else (if SecretId(removed[0].id) in secrets then 1 else 0) + SecretsOf(removed[1..], secrets)
  }

  lemma {:induction false} SecretsAreRestored(removed: seq<Provider>, secrets: map<string, string>)
    ensures ToRestore(CredentialsFor(secrets, removed)) == SecretsOf(removed, secrets)
  {
    if removed != [] {
      SecretsAreRestored(removed[1..], secrets);
      assert CredentialsFor(secrets, removed)[1..] == CredentialsFor(secrets, removed[1..]);
    }
  }

  /**
    How an update comes out that drops `n` providers, `restores` of them with a secret: refused if
    one of the first `n` reads or the write of the row faults, done if all `n` deletes work too, and
    otherwise undone, completely if every restoring `set` and the write of the old row work.
   */
  function Foretold(faults: seq<Fault>, n: nat, restores: nat): Outcome {
    if !AllWork(faults, 0, n + 1) then Refused
    else
      var j := FirstFault(faults, n + 1, n + 1 + n);
      if j == n + 1 + n then Done else Undone(AllWork(faults, j + 1, j + 1 + restores + 1))
  }

  lemma ForetoldAfter(faults: seq<Fault>, n: nat, restores: nat)
    requires AllWork(faults, 0, n + 1)
    ensures Foretold(faults, n, restores) == DeletesForetold(After(faults, n + 1), n, restores)
  {
    var j := FirstFault(After(faults, n + 1), 0, n);
    FirstFaultAfter(faults, n + 1, 0, n);
    AllWorkAfter(faults, n + 1, j + 1, j + 1 + restores + 1);
  }

  /** For acceptable lists the schedule of faults decides the outcome, exactly. */
  lemma OutcomeIsForetold(v: Vault, old_: seq<Provider>, new_: seq<Provider>)
    requires Acceptable(old_) && Acceptable(new_)
    ensures var removed := Removed(old_, new_);
            SetProviders(v, old_, Some(new_)).0 == Foretold(v.faults, |removed|, SecretsOf(removed, v.disk.secrets))
  {
    var removed := Removed(old_, new_);
    var n := |removed|;
    var c := Collect(v, removed);
    CollectsIffReadsWork(v, removed);
    CollectGathers(v, removed);
    OneMoreWorks(v.faults, n);
    if AllWork(v.faults, 0, n + 1) {
      AfterTwice(v.faults, n, 1);
      DeletesAsForetold(c.vault.WriteRow(new_), old_, c.credentials, c.credentials);
      SecretsAreRestored(removed, v.disk.secrets);
      ForetoldAfter(v.faults, n, SecretsOf(removed, v.disk.secrets));
    }
  }

  /** Every id is valid, and there are as many different ids as providers. */
  predicate Differ(providers: seq<Provider>) {
    (forall p :: p in providers ==> ValidId(p.id)) && |Ids(providers)| == |providers|
  }

  lemma {:induction false} AsManyIdsAsProviders(providers: seq<Provider>)
    ensures |Ids(providers)| <= |providers|
    ensures |Ids(providers)| == |providers|
            <==> forall i, j :: 0 <= i < j < |providers| ==> providers[i].id != providers[j].id
  {
    if providers != [] {
      var p, rest := providers[0], providers[1..];
      AsManyIdsAsProviders(rest);
      assert Ids(providers) == Ids(rest) + {p.id};
      assert p.id in Ids(rest) <==> exists j :: 1 <= j < |providers| && providers[j].id == p.id;
    }
  }

  lemma AcceptableIffDiffer(providers: seq<Provider>)
    ensures Acceptable(providers) <==> Differ(providers)
  {
    AsManyIdsAsProviders(providers);
  }

  /** Without faults an update is done if ids are valid and different in both lists; else it is refused untried. */
  lemma DoneIffDiffer(v: Vault, old_: seq<Provider>, new_: seq<Provider>)
    requires v.faults == []
    ensures var (outcome, w) := SetProviders(v, old_, Some(new_));
            if Differ(old_) && Differ(new_) then outcome == Done else outcome == Refused && w == v
  {
    AcceptableIffDiffer(old_);
    AcceptableIffDiffer(new_);
    if Acceptable(old_) && Acceptable(new_) {
      OutcomeIsForetold(v, old_, new_);
    }
  }
}
