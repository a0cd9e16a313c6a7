/**
  Replacing the list of AI providers across two stores: the settings database, which lists
  the providers, and the system credential store, which holds one secret for each.

  The protocol writes the database first and then deletes the credentials of the removed
  providers; when a delete fails it puts all of them and the old list back. Every store
  operation may fail, and one on the credential store may also fail after taking effect.
 */
module ProviderVault {
  import opened Wrappers
  import opened Text

  datatype Provider = Provider(id: string, config: string)

  const MAX_PROVIDER_ID_LEN := 96

  predicate IdCharacter(c: char) {
    IsAsciiAlphanumeric(c) || c == '-' || c == '_' || c == '.'
  }

  predicate ValidId(id: string) {
    var trimmed := Trim(id);
    && 0 < |trimmed| <= MAX_PROVIDER_ID_LEN
    && forall k :: 0 <= k < |trimmed| ==> IdCharacter(trimmed[k])
  }

  /** The ids accepted: 1 to 96 letters, digits, hyphens, underscores and full stops, with spaces around them. */
  lemma ValidIdsAre(id: string)
    ensures ValidId(id) <==> exists before, core, after ::
              && id == before + core + after && AllSpace(before) && AllSpace(after)
              && 1 <= |core| <= 96
              && forall k :: 0 <= k < |core| ==>
                   || '0' <= core[k] <= '9' || 'a' <= core[k] <= 'z' || 'A' <= core[k] <= 'Z'
                   || core[k] == '-' || core[k] == '_' || core[k] == '.'
  {
    var b, a := TrimSplits(id);
    forall before, core, after |
      id == before + core + after && AllSpace(before) && AllSpace(after)
      && |core| >= 1 && forall k :: 0 <= k < |core| ==> IdCharacter(core[k])
      ensures Trim(id) == core
    {
      TrimIsMiddle(before, core, after);
    }
  }

  /** The name under which a provider's key is stored; it depends on the trimmed id only. */
  function SecretId(id: string): string {
    "provider." + Trim(id) + ".api-key"
  }

  lemma SecretIdIsInjectiveOnTrimmed(a: string, b: string)
    requires Trimmed(a) && Trimmed(b) && SecretId(a) == SecretId(b)
    ensures a == b
  {
    TrimOfTrimmed(a);
    TrimOfTrimmed(b);
    var prefix, suffix := "provider.", ".api-key";
    assert a == SecretId(a)[|prefix|..|SecretId(a)| - |suffix|];
    assert b == SecretId(b)[|prefix|..|SecretId(b)| - |suffix|];
  }

  predicate Acceptable(providers: seq<Provider>) {
    && (forall i :: 0 <= i < |providers| ==> ValidId(providers[i].id))
    && (forall i, j :: 0 <= i < j < |providers| ==> providers[i].id != providers[j].id)
  }

  function Ids(providers: seq<Provider>): set<string> {
    set p | p in providers :: p.id
  }

  /** The old providers that the new list drops, compared by raw id. */
  function Removed(old_: seq<Provider>, new_: seq<Provider>): seq<Provider> {
    if old_ == [] then []
    else if old_[0].id !in Ids(new_) then [old_[0]] + Removed(old_[1..], new_)
    else Removed(old_[1..], new_)
  }

  lemma {:induction false} RemovedIsTheDifference(old_: seq<Provider>, new_: seq<Provider>)
    ensures forall p :: p in Removed(old_, new_) <==> p in old_ && p.id !in Ids(new_)
  {
    if old_ != [] {
      RemovedIsTheDifference(old_[1..], new_);
      assert old_ == [old_[0]] + old_[1..];
    }
  }

  // ---------- the two stores ----------

  datatype Fault = Works | Fails | FailsAfterEffect

  /** What a crash would leave behind; `lost` are the secrets whose restoring `set` reported an error. */
  datatype Disk = Disk(row: Option<seq<Provider>>, secrets: map<string, string>, lost: set<string>)

  /** The stores, the faults still to come, and the disk after every operation so far. */
  datatype Vault = Vault(disk: Disk, faults: seq<Fault>, trail: seq<Disk>) {

    function NextFault(): Fault {
      if faults == [] then Works else faults[0]
    }

    function After(d: Disk): Vault {
      Vault(d, if faults == [] then [] else faults[1..], trail + [d])
    }

    /** One row of one table: SQLite writes it entirely or not at all. */
    function WriteRow(providers: seq<Provider>): Vault {
      After(if NextFault().Works? then disk.(row := Some(providers)) else disk)
    }

    function Delete(id: string): Vault {
      After(if NextFault().Fails? then disk else disk.(secrets := disk.secrets - {id}))
    }

    function Restore(id: string, secret: string): Vault {
      var written := if NextFault().Fails? then disk else disk.(secrets := disk.secrets[id := secret]);
      After(if NextFault().Works? then written else written.(lost := written.lost + {id}))
    }

    function Read(): Vault {
      After(disk)
    }
  }

  function Stored(secrets: map<string, string>, id: string): Option<string> {
    if id in secrets then Some(secrets[id]) else None
  }

  function Listed(row: Option<seq<Provider>>): seq<Provider> {
    if row.Some? then row.value else []
  }

  datatype Credential = Credential(id: string, secret: Option<string>)

  /** `Refused` stops before the first write; `Undone` reports whether recovery was complete. */
  datatype Outcome = Done | Refused | Undone(complete: bool)

  datatype Collected = Collected(ok: bool, vault: Vault, credentials: seq<Credential>)

  function Collect(v: Vault, removed: seq<Provider>): Collected
    decreases |removed|
  {
    if removed == [] then Collected(true, v, [])
    else if !v.NextFault().Works? then Collected(false, v.Read(), [])
    else
      var id := SecretId(removed[0].id);
      var rest := Collect(v.Read(), removed[1..]);
      Collected(rest.ok, rest.vault, [Credential(id, Stored(v.disk.secrets, id))] + rest.credentials)
  }

  function RestoreAll(v: Vault, credentials: seq<Credential>): Vault
    decreases |credentials|
  {
    if credentials == [] then v
    else if credentials[0].secret.None? then RestoreAll(v, credentials[1..])
    else RestoreAll(v.Restore(credentials[0].id, credentials[0].secret.value), credentials[1..])
  }

  /** Whether a restoring `set` fails on the way; each failure becomes a recovery error. */
  predicate RestoreFails(v: Vault, credentials: seq<Credential>)
    decreases |credentials|
  {
    if credentials == [] then false
    else if credentials[0].secret.None? then RestoreFails(v, credentials[1..])
    else
      !v.NextFault().Works?
      || RestoreFails(v.Restore(credentials[0].id, credentials[0].secret.value), credentials[1..])
  }

  function Undo(v: Vault, old_: seq<Provider>, credentials: seq<Credential>): (Outcome, Vault) {
    var restored := RestoreAll(v, credentials);
    (Undone(!RestoreFails(v, credentials) && restored.NextFault().Works?), restored.WriteRow(old_))
  }

  /** The deletes still to do; `all` is what an undo restores. */
  function DeleteAll(v: Vault, old_: seq<Provider>, all: seq<Credential>, rest: seq<Credential>): (Outcome, Vault)
    decreases |rest|
  {
    if rest == [] then (Done, v)
    else if v.NextFault().Works? then DeleteAll(v.Delete(rest[0].id), old_, all, rest[1..])
    else Undo(v.Delete(rest[0].id), old_, all)
  }

  /**
    The whole command. `stored` is the list as read back: a failing read is taken for an
    empty one. `write` is the list parsed from the request, if it parsed.
   */
  function SetProviders(v: Vault, stored: seq<Provider>, write: Option<seq<Provider>>): (Outcome, Vault) {
    if !Acceptable(stored) || write.None? || !Acceptable(write.value) then (Refused, v)
    else
      var collected := Collect(v, Removed(stored, write.value));
      if !collected.ok then (Refused, collected.vault)
      else
        var written := collected.vault.WriteRow(write.value);
        if !collected.vault.NextFault().Works? then (Refused, written)
        else DeleteAll(written, stored, collected.credentials, collected.credentials)
  }

  // ---------- the command, step by step ----------

  class Stores {
    var row: Option<seq<Provider>>
    var secrets: map<string, string>
    var faults: seq<Fault>
    ghost var lost: set<string>
    ghost var trail: seq<Disk>

    ghost function Snapshot(): Vault
      reads this
    {
      Vault(Disk(row, secrets, lost), faults, trail)
    }

    constructor (row: Option<seq<Provider>>, secrets: map<string, string>, faults: seq<Fault>)
      ensures Snapshot() == Vault(Disk(row, secrets, {}), faults, [])
    {
      this.row, this.secrets, this.faults := row, secrets, faults;
      lost, trail := {}, [];
    }

    method TakeFault() returns (fault: Fault)
      modifies this`faults
      ensures fault == old(Snapshot()).NextFault()
      ensures faults == if old(faults) == [] then [] else old(faults)[1..]
    {
      fault := Works;
      if faults != [] {
        fault, faults := faults[0], faults[1..];
      }
    }

    method WriteRow(providers: seq<Provider>) returns (ok: bool)
      modifies this
      ensures Snapshot() == old(Snapshot()).WriteRow(providers)
      ensures ok <==> old(Snapshot()).NextFault().Works?
    {
      var fault := TakeFault();
      if fault.Works? {
        row := Some(providers);
      }
      trail := trail + [Disk(row, secrets, lost)];
      ok := fault.Works?;
    }

    method Get(id: string) returns (ok: bool, secret: Option<string>)
      modifies this
      ensures Snapshot() == old(Snapshot()).Read()
      ensures ok <==> old(Snapshot()).NextFault().Works?
      ensures secret == Stored(old(secrets), id)
    {
      var fault := TakeFault();
      secret := Stored(secrets, id);
      trail := trail + [Disk(row, secrets, lost)];
      ok := fault.Works?;
    }

    method Delete(id: string) returns (ok: bool)
      modifies this
      ensures Snapshot() == old(Snapshot()).Delete(id)
      ensures ok <==> old(Snapshot()).NextFault().Works?
    {
      var fault := TakeFault();
      if !fault.Fails? {
        secrets := secrets - {id};
      }
      trail := trail + [Disk(row, secrets, lost)];
      ok := fault.Works?;
    }

    method Restore(id: string, secret: string) returns (ok: bool)
      modifies this
      ensures Snapshot() == old(Snapshot()).Restore(id, secret)
      ensures ok <==> old(Snapshot()).NextFault().Works?
    {
      var fault := TakeFault();
      if !fault.Fails? {
        secrets := secrets[id := secret];
      }
      if !fault.Works? {
        lost := lost + {id};
      }
      trail := trail + [Disk(row, secrets, lost)];
      ok := fault.Works?;
    }

    method SetProviderMetadata(stored: seq<Provider>, write: Option<seq<Provider>>) returns (outcome: Outcome)
      modifies this
      ensures (outcome, Snapshot()) == SetProviders(old(Snapshot()), stored, write)
    {
      if !Acceptable(stored) || write.None? || !Acceptable(write.value) { return Refused; }
      var removed := Removed(stored, write.value);
      var collected, credentials := CollectCredentials(removed);
      if !collected { return Refused; }
      var written := WriteRow(write.value);
      if !written { return Refused; }
      outcome := DeleteCredentials(stored, credentials);
    }

    method CollectCredentials(removed: seq<Provider>) returns (ok: bool, credentials: seq<Credential>)
      modifies this
      ensures var collected := Collect(old(Snapshot()), removed);
              && ok == collected.ok && Snapshot() == collected.vault
              && (ok ==> credentials == collected.credentials)
    {
      credentials := [];
      for i := 0 to |removed|
        invariant var before, rest := Collect(old(Snapshot()), removed), Collect(Snapshot(), removed[i..]);
                  && before.ok == rest.ok && before.vault == rest.vault
                  && (before.ok ==> before.credentials == credentials + rest.credentials)
      {
        var id := SecretId(removed[i].id);
        assert removed[i..][1..] == removed[i + 1..];
        var secret;
        ok, secret := Get(id);
        if !ok { return; }
        credentials := credentials + [Credential(id, secret)];
      }
      ok := true;
    }

    method DeleteCredentials(stored: seq<Provider>, credentials: seq<Credential>) returns (outcome: Outcome)
      modifies this
      ensures (outcome, Snapshot()) == DeleteAll(old(Snapshot()), stored, credentials, credentials)
    {
      for i := 0 to |credentials|
        invariant DeleteAll(old(Snapshot()), stored, credentials, credentials)
                  == DeleteAll(Snapshot(), stored, credentials, credentials[i..])
      {
        assert credentials[i..][1..] == credentials[i + 1..];
        var deleted := Delete(credentials[i].id);
        if !deleted {
          outcome := Recover(stored, credentials);
          return;
        }
      }
      outcome := Done;
    }

    method Recover(stored: seq<Provider>, credentials: seq<Credential>) returns (outcome: Outcome)
      modifies this
      ensures (outcome, Snapshot()) == Undo(old(Snapshot()), stored, credentials)
    {
      var complete := true;
      for i := 0 to |credentials|
        invariant RestoreAll(old(Snapshot()), credentials) == RestoreAll(Snapshot(), credentials[i..])
        invariant RestoreFails(old(Snapshot()), credentials)
                  <==> !complete || RestoreFails(Snapshot(), credentials[i..])
      {
        assert credentials[i..][1..] == credentials[i + 1..];
        if credentials[i].secret.Some? {
          var ok := Restore(credentials[i].id, credentials[i].secret.value);
          if !ok {
            complete := false;
          }
        }
      }
      var written := WriteRow(stored);
      outcome := Undone(complete && written);
    }
  }
}
