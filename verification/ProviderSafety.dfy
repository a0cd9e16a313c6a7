/**
  What `set_provider_metadata` guarantees: at every moment each listed provider has the
  credential it had at the start, success and recovered failure are all or nothing, and
  exactly which ids break this.
 */
module ProviderSafety {
  import opened Wrappers
  import opened Text
  import opened ProviderVault

  /** Every provider the row lists still has the secret it had, or a restoring `set` for it failed. */
  ghost predicate CrashSafe(d: Disk, original: map<string, string>) {
    forall p :: p in Listed(d.row) ==>
      var id := SecretId(p.id);
      Stored(d.secrets, id) == Stored(original, id) || id in d.lost
  }

  ghost predicate AlwaysSafe(trail: seq<Disk>, original: map<string, string>) {
    forall k :: 0 <= k < |trail| ==> CrashSafe(trail[k], original)
  }

  /** No removed provider shares a stored secret with a provider of the new list. */
  ghost predicate Harmless(old_: seq<Provider>, new_: seq<Provider>, secrets: map<string, string>) {
    forall r, n :: r in old_ && r.id !in Ids(new_) && n in new_ && SecretId(r.id) == SecretId(n.id)
                   ==> SecretId(r.id) !in secrets
  }

  lemma TrimmedIdsAreHarmless(old_: seq<Provider>, new_: seq<Provider>, secrets: map<string, string>)
    requires forall p :: p in old_ || p in new_ ==> Trimmed(p.id)
    ensures Harmless(old_, new_, secrets)
  {
    forall r, n | r in old_ && n in new_ && SecretId(r.id) == SecretId(n.id)
      ensures r.id in Ids(new_)
    {
      SecretIdIsInjectiveOnTrimmed(r.id, n.id);
      assert n.id in Ids(new_);
    }
  }

  // ---------- the phases ----------

  function Keys(providers: seq<Provider>): set<string> {
    set p | p in providers :: SecretId(p.id)
  }

  /** The credentials are those of the removed providers, with their original secrets. */
  ghost predicate Remembers(credentials: seq<Credential>, removed: seq<Provider>, original: map<string, string>) {
    && (forall c :: c in credentials ==> c.id in Keys(removed) && c.secret == Stored(original, c.id))
    && (forall id :: id in Keys(removed) ==> Credential(id, Stored(original, id)) in credentials)
  }

  function CredentialsFor(secrets: map<string, string>, removed: seq<Provider>): seq<Credential> {
    if removed == [] then []
    else
      var id := SecretId(removed[0].id);
      [Credential(id, Stored(secrets, id))] + CredentialsFor(secrets, removed[1..])
  }

  lemma {:induction false} CredentialsRemember(secrets: map<string, string>, removed: seq<Provider>)
    ensures Remembers(CredentialsFor(secrets, removed), removed, secrets)
  {
    if removed != [] {
      CredentialsRemember(secrets, removed[1..]);
      assert removed == [removed[0]] + removed[1..];
      assert Keys(removed) == {SecretId(removed[0].id)} + Keys(removed[1..]);
    }
  }

  lemma {:induction false} CollectGathers(v: Vault, removed: seq<Provider>)
    ensures var c := Collect(v, removed);
            && c.vault.disk == v.disk
            && (c.ok ==> c.credentials == CredentialsFor(v.disk.secrets, removed))
    decreases |removed|
  {
    if removed != [] && v.NextFault().Works? {
      CollectGathers(v.Read(), removed[1..]);
    }
  }

  lemma {:induction false} CollectIsSafe(v: Vault, removed: seq<Provider>, original: map<string, string>)
    requires AlwaysSafe(v.trail, original) && CrashSafe(v.disk, original)
    ensures AlwaysSafe(Collect(v, removed).vault.trail, original)
    decreases |removed|
  {
    if removed != [] && v.NextFault().Works? {
      CollectIsSafe(v.Read(), removed[1..], original);
    }
  }

  /** Outside `keys` nothing changed; inside, a secret is either the original one or gone. */
  ghost predicate Within(secrets: map<string, string>, original: map<string, string>, keys: set<string>) {
    && (forall id :: id !in keys ==> Stored(secrets, id) == Stored(original, id))
    && (forall id :: id in secrets ==> id in original && secrets[id] == original[id])
  }

  lemma NewRowIsSafe(d: Disk, old_: seq<Provider>, new_: seq<Provider>, original: map<string, string>)
    requires Harmless(old_, new_, original)
    requires d.row == Some(new_) && Within(d.secrets, original, Keys(Removed(old_, new_)))
    ensures CrashSafe(d, original)
  {
    RemovedIsTheDifference(old_, new_);
    forall p | p in new_
      ensures Stored(d.secrets, SecretId(p.id)) == Stored(original, SecretId(p.id))
    {
      if SecretId(p.id) in Keys(Removed(old_, new_)) {
        var r :| r in Removed(old_, new_) && SecretId(r.id) == SecretId(p.id);
        assert SecretId(p.id) !in original;
      }
    }
  }

  /** All that the recovery and the deletes keep while the new row is in place. */
  ghost predicate Underway(v: Vault, old_: seq<Provider>, new_: seq<Provider>, original: map<string, string>) {
    && v.disk.row == Some(new_)
    && Within(v.disk.secrets, original, Keys(Removed(old_, new_)))
    && AlwaysSafe(v.trail, original)
  }

  lemma {:induction false} RestoreAllRestores(v: Vault, old_: seq<Provider>, new_: seq<Provider>,
                                              original: map<string, string>, credentials: seq<Credential>)
    requires Harmless(old_, new_, original) && Underway(v, old_, new_, original)
    requires forall c :: c in credentials ==> c.secret == Stored(original, c.id)
    ensures var w := RestoreAll(v, credentials);
            && Underway(w, old_, new_, original)
            && v.disk.lost <= w.disk.lost
            && (forall id :: id in v.disk.secrets ==> id in w.disk.secrets)
            && (forall c :: c in credentials && c.secret.Some? ==> c.id in w.disk.secrets || c.id in w.disk.lost)
            && (!RestoreFails(v, credentials) ==>
                  && w.disk.lost == v.disk.lost
                  && (forall c :: c in credentials && c.secret.Some? ==> c.id in w.disk.secrets))
    decreases |credentials|
  {
    if credentials != [] {
      var c := credentials[0];
      assert credentials == [c] + credentials[1..];
      if c.secret.None? {
        RestoreAllRestores(v, old_, new_, original, credentials[1..]);
      } else {
        var u := v.Restore(c.id, c.secret.value);
        NewRowIsSafe(u.disk, old_, new_, original);
        RestoreAllRestores(u, old_, new_, original, credentials[1..]);
      }
    }
  }

  /** Once every restore has been tried, each removed secret is back or given up for lost. */
  lemma RestoredOrLost(v: Vault, old_: seq<Provider>, new_: seq<Provider>,
                       original: map<string, string>, credentials: seq<Credential>)
    requires Harmless(old_, new_, original) && Underway(v, old_, new_, original)
    requires Remembers(credentials, Removed(old_, new_), original)
    ensures var w := RestoreAll(v, credentials);
            && Underway(w, old_, new_, original)
            && (forall id :: id in original && id !in w.disk.secrets ==> id in w.disk.lost)
            && (!RestoreFails(v, credentials) ==> w.disk.lost == v.disk.lost && w.disk.secrets == original)
  {
    RestoreAllRestores(v, old_, new_, original, credentials);
    var w := RestoreAll(v, credentials);
    forall id | id in original
      ensures id in w.disk.secrets || id in w.disk.lost
      ensures !RestoreFails(v, credentials) ==> id in w.disk.secrets
    {
      if id in Keys(Removed(old_, new_)) {
        assert Credential(id, Some(original[id])) in credentials;
      } else {
        assert Stored(w.disk.secrets, id) == Stored(original, id);
      }
    }
  }

  lemma UndoIsSafe(v: Vault, old_: seq<Provider>, new_: seq<Provider>,
                   original: map<string, string>, credentials: seq<Credential>)
    requires Harmless(old_, new_, original) && Underway(v, old_, new_, original)
    requires v.disk.lost == {}
    requires Remembers(credentials, Removed(old_, new_), original)
    ensures var (outcome, w) := Undo(v, old_, credentials);
            && AlwaysSafe(w.trail, original)
            && (outcome == Undone(true) ==> w.disk.row == Some(old_) && w.disk.secrets == original)
  {
    RestoredOrLost(v, old_, new_, original, credentials);
    var restored := RestoreAll(v, credentials);
    NewRowIsSafe(restored.disk, old_, new_, original);
    OldRowIsSafe(restored.disk.(row := Some(old_)), original);
  }

  lemma OldRowIsSafe(d: Disk, original: map<string, string>)
    requires forall id :: id in d.secrets ==> id in original && d.secrets[id] == original[id]
    requires forall id :: id in original && id !in d.secrets ==> id in d.lost
    ensures CrashSafe(d, original)
  {
  }

  function CredentialIds(credentials: seq<Credential>): set<string> {
    set c | c in credentials :: c.id
  }

  lemma DeleteStaysUnderway(v: Vault, old_: seq<Provider>, new_: seq<Provider>,
                            original: map<string, string>, id: string)
    requires Harmless(old_, new_, original) && Underway(v, old_, new_, original)
    requires id in Keys(Removed(old_, new_))
    ensures Underway(v.Delete(id), old_, new_, original)
  {
    var u := v.Delete(id);
    assert Within(u.disk.secrets, original, Keys(Removed(old_, new_)));
    NewRowIsSafe(u.disk, old_, new_, original);
  }

  /** The deletes still to do are enough: every removed secret still stored is among them. */
  lemma {:induction false} DeleteAllIsSafe(v: Vault, old_: seq<Provider>, new_: seq<Provider>,
                                           original: map<string, string>,
                                           all: seq<Credential>, rest: seq<Credential>)
    requires Harmless(old_, new_, original) && Underway(v, old_, new_, original)
    requires v.disk.lost == {}
    requires Remembers(all, Removed(old_, new_), original)
    requires CredentialIds(rest) <= Keys(Removed(old_, new_))
    requires v.disk.secrets.Keys * Keys(Removed(old_, new_)) <= CredentialIds(rest)
    ensures var (outcome, w) := DeleteAll(v, old_, all, rest);
            && AlwaysSafe(w.trail, original)
            && !outcome.Refused?
            && (outcome == Undone(true) ==> w.disk.row == Some(old_) && w.disk.secrets == original)
            && (outcome.Done? ==>
                  w.disk.row == Some(new_) && w.disk.secrets == original - Keys(Removed(old_, new_)))
    decreases |rest|
  {
    if rest == [] {
      assert CredentialIds(rest) == {};
      AllGone(v.disk.secrets, original, Keys(Removed(old_, new_)));
    } else {
      var u := v.Delete(rest[0].id);
      assert rest == [rest[0]] + rest[1..];
      assert CredentialIds(rest) == {rest[0].id} + CredentialIds(rest[1..]);
      DeleteStaysUnderway(v, old_, new_, original, rest[0].id);
      if v.NextFault().Works? {
        DeleteAllIsSafe(u, old_, new_, original, all, rest[1..]);
      } else {
        UndoIsSafe(u, old_, new_, original, all);
      }
    }
  }

  lemma AllGone(secrets: map<string, string>, original: map<string, string>, keys: set<string>)
    requires Within(secrets, original, keys) && secrets.Keys * keys == {}
    ensures secrets == original - keys
  {
    forall id | id in original && id !in keys
      ensures id in secrets
    {
      assert Stored(secrets, id) == Stored(original, id);
    }
    forall id | id in secrets
      ensures id !in keys
    {
      assert id in keys ==> id in secrets.Keys * keys;
    }
  }

  // ---------- the guarantees ----------

  /** The stores before the command: nothing lost, no operation done yet. */
  predicate Initial(v: Vault) {
    v.trail == [] && v.disk.lost == {}
  }

  /**
    After every single store operation, whatever fails, every listed provider still has its
    original credential unless a restoring `set` for it failed.
   */
  lemma UpdateIsCrashSafe(v: Vault, new_: seq<Provider>)
    requires Initial(v)
    requires Harmless(Listed(v.disk.row), new_, v.disk.secrets)
    ensures var (outcome, w) := SetProviders(v, Listed(v.disk.row), Some(new_));
            && AlwaysSafe(w.trail, v.disk.secrets)
            && (outcome.Refused? ==> w.disk == v.disk)
            && (outcome == Undone(true) ==>
                  Listed(w.disk.row) == Listed(v.disk.row) && w.disk.secrets == v.disk.secrets)
            && (outcome.Done? ==>
                  && w.disk.row == Some(new_)
                  && w.disk.secrets == v.disk.secrets - Keys(Removed(Listed(v.disk.row), new_))
                  && (forall p :: p in new_ ==>
                        Stored(w.disk.secrets, SecretId(p.id)) == Stored(v.disk.secrets, SecretId(p.id))))
  {
    var old_, original := Listed(v.disk.row), v.disk.secrets;
    assert CrashSafe(v.disk, original);
    if Acceptable(old_) && Acceptable(new_) {
      var removed := Removed(old_, new_);
      CollectGathers(v, removed);
      CollectIsSafe(v, removed, original);
      var collected := Collect(v, removed);
      if collected.ok && collected.vault.NextFault().Works? {
        var written := collected.vault.WriteRow(new_);
        WriteGoesUnderway(collected.vault, old_, new_);
        CredentialsRemember(original, removed);
        var all := collected.credentials;
        assert CredentialIds(all) == Keys(removed);
        DeleteAllIsSafe(written, old_, new_, original, all, all);
        KeptSecretsSurvive(old_, new_, original);
      }
    }
  }

  lemma WriteGoesUnderway(v: Vault, old_: seq<Provider>, new_: seq<Provider>)
    requires Harmless(old_, new_, v.disk.secrets) && AlwaysSafe(v.trail, v.disk.secrets)
    requires v.NextFault().Works?
    ensures Underway(v.WriteRow(new_), old_, new_, v.disk.secrets)
  {
  }

  lemma KeptSecretsSurvive(old_: seq<Provider>, new_: seq<Provider>, original: map<string, string>)
    requires Harmless(old_, new_, original)
    ensures var left := original - Keys(Removed(old_, new_));
            forall p :: p in new_ ==> Stored(left, SecretId(p.id)) == Stored(original, SecretId(p.id))
  {
  }

  lemma {:induction false} CollectWorks(v: Vault, removed: seq<Provider>)
    requires v.faults == []
    ensures Collect(v, removed).ok && Collect(v, removed).vault.faults == []
    decreases |removed|
  {
    if removed != [] {
      CollectWorks(v.Read(), removed[1..]);
    }
  }

  lemma {:induction false} DeleteAllWorks(v: Vault, old_: seq<Provider>, all: seq<Credential>, rest: seq<Credential>)
    requires v.faults == []
    ensures var (outcome, w) := DeleteAll(v, old_, all, rest);
            && outcome.Done? && w.disk.row == v.disk.row && w.disk.lost == v.disk.lost
            && (forall c :: c in rest ==> c.id !in w.disk.secrets)
            && (forall id :: id in w.disk.secrets ==> id in v.disk.secrets)
    decreases |rest|
  {
    if rest != [] {
      assert rest == [rest[0]] + rest[1..];
      DeleteAllWorks(v.Delete(rest[0].id), old_, all, rest[1..]);
    }
  }

  /**
    The condition is exact: the update is safe under every schedule of faults if and only if
    no removed provider shares a stored secret with a listed one. Ids are compared raw but
    stored trimmed, so replacing " a" by "a" breaks it.
   */
  lemma SafeUnderAllFaultsIffHarmless(disk: Disk, new_: seq<Provider>)
    requires disk.lost == {}
    requires Acceptable(Listed(disk.row)) && Acceptable(new_)
    ensures (forall faults: seq<Fault> ::
               AlwaysSafe(SetProviders(Vault(disk, faults, []), Listed(disk.row), Some(new_)).1.trail, disk.secrets))
            <==> Harmless(Listed(disk.row), new_, disk.secrets)
  {
    var old_ := Listed(disk.row);
    if Harmless(old_, new_, disk.secrets) {
      forall faults: seq<Fault>
        ensures AlwaysSafe(SetProviders(Vault(disk, faults, []), old_, Some(new_)).1.trail, disk.secrets)
      {
        UpdateIsCrashSafe(Vault(disk, faults, []), new_);
      }
    } else {
      ClashLosesCredential(disk, new_);
    }
  }

  /** Without a single fault, a clash deletes the credential of a provider that stays listed. */
  lemma ClashLosesCredential(disk: Disk, new_: seq<Provider>)
    requires disk.lost == {}
    requires Acceptable(Listed(disk.row)) && Acceptable(new_)
    requires !Harmless(Listed(disk.row), new_, disk.secrets)
    ensures var (outcome, w) := SetProviders(Vault(disk, [], []), Listed(disk.row), Some(new_));
            outcome.Done? && !AlwaysSafe(w.trail, disk.secrets)
  {
    var old_ := Listed(disk.row);
    var v := Vault(disk, [], []);
    var removed := Removed(old_, new_);
    CollectWorks(v, removed);
    CollectGathers(v, removed);
    CredentialsRemember(disk.secrets, removed);
    var collected := Collect(v, removed);
    var written := collected.vault.WriteRow(new_);
    var all := collected.credentials;
    DeleteAllWorks(written, old_, all, all);
    DeleteAllEndsOnTrail(written, old_, all, all);
    var w := DeleteAll(written, old_, all, all).1;
    ClashIsUnsafe(old_, new_, disk.secrets, w.disk, all);
  }

  lemma ClashIsUnsafe(old_: seq<Provider>, new_: seq<Provider>, original: map<string, string>,
                      d: Disk, all: seq<Credential>)
    requires !Harmless(old_, new_, original)
    requires Remembers(all, Removed(old_, new_), original)
    requires d.row == Some(new_) && d.lost == {}
    requires forall c :: c in all ==> c.id !in d.secrets
    ensures !CrashSafe(d, original)
  {
    RemovedIsTheDifference(old_, new_);
    var r, n :| r in old_ && r.id !in Ids(new_) && n in new_ && SecretId(r.id) == SecretId(n.id)
                && SecretId(r.id) in original;
    assert SecretId(r.id) in Keys(Removed(old_, new_));
    assert Credential(SecretId(r.id), Stored(original, SecretId(r.id))) in all;
    assert n in Listed(d.row);
  }

  lemma {:induction false} DeleteAllEndsOnTrail(
    v: Vault, old_: seq<Provider>, all: seq<Credential>, rest: seq<Credential>)
    requires v.faults == [] && v.trail != [] && v.trail[|v.trail| - 1] == v.disk
    ensures var w := DeleteAll(v, old_, all, rest).1; w.trail != [] && w.trail[|w.trail| - 1] == w.disk
    decreases |rest|
  {
    if rest != [] {
      DeleteAllEndsOnTrail(v.Delete(rest[0].id), old_, all, rest[1..]);
    }
  }

  /** A concrete clash, with ids the command accepts. */
  lemma UntrimmedIdLosesListedKey()
    ensures var stored := [Provider(" a", "old")];
            var new_ := [Provider("a", "new")];
            var disk := Disk(Some(stored), map[SecretId("a") := "key"], {});
            && Acceptable(stored) && Acceptable(new_)
            && !Harmless(stored, new_, disk.secrets)
  {
  }

  /**
    A failing read of the stored row is taken for an empty list. The update then deletes nothing,
    which is safe at every moment; so it leaves the credentials of dropped providers behind,
    exactly when any exist.
   */
  lemma FailedReadKeepsRemovedCredentials(v: Vault, new_: seq<Provider>)
    requires Initial(v) && Acceptable(new_)
    ensures var (outcome, w) := SetProviders(v, [], Some(new_));
            && w.disk.secrets == v.disk.secrets && AlwaysSafe(w.trail, v.disk.secrets)
            && (outcome.Done? ==>
                  && w.disk.row == Some(new_)
                  && (w.disk.secrets == v.disk.secrets - Keys(Removed(Listed(v.disk.row), new_))
                      <==> Keys(Removed(Listed(v.disk.row), new_)) !! v.disk.secrets.Keys))
  {
  }
}
