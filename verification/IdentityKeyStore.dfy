/** The identity key operations of the store, for all contacts.  Each method is
    one task on the identity queue of its contact. */
module IdentityKeyStores {
  import opened Common
  import I = IdentityKeys

  class IdentityKeyStore {
    const ourServiceIds: set<string>
    var identityKeys: map<string, I.IdentityKey>    // the cache
    var rows: map<string, I.IdentityKey>            // the database
    var previousKeys: map<string, Bytes>
    var keyChanges: multiset<string>                // the events emitted

    constructor (ourServiceIds: set<string>, rows: map<string, I.IdentityKey>, previousKeys: map<string, Bytes>)
      ensures this.ourServiceIds == ourServiceIds
      ensures identityKeys == rows && this.rows == rows && this.previousKeys == previousKeys && keyChanges == multiset{}
    {
      this.ourServiceIds, identityKeys, this.rows := ourServiceIds, rows, rows;
      this.previousKeys, keyChanges := previousKeys, multiset{};
    }

    ghost function Contact(id: string): I.Contact
      reads this
    {
      I.Contact(id in ourServiceIds,
                if id in identityKeys then Some(identityKeys[id]) else None,
                if id in rows then Some(rows[id]) else None,
                if id in previousKeys then Some(previousKeys[id]) else None,
                keyChanges[id])
    }

    twostate predicate OthersSame(id: string)
      reads this
    {
      forall other :: other != id ==> Contact(other) == old(Contact(other))
    }

    method WriteKey(id: string, r: I.IdentityKey, writes: bool) returns (ok: bool)
      modifies this`identityKeys, this`rows
      ensures ok == writes && Contact(id) == I.Saved(old(Contact(id)), r, writes) && OthersSame(id)
    {
      if writes {
        rows := rows[id := r];
        identityKeys := identityKeys[id := r];
      }
      return writes;
    }

    method CheckPreviousKey(id: string, publicKey: Bytes)
      modifies this`previousKeys, this`keyChanges
      ensures Contact(id) == I.CheckPreviousKey(old(Contact(id)), publicKey) && OthersSame(id)
    {
      if id in previousKeys {
        if previousKeys[id] != publicKey {
          keyChanges := keyChanges + multiset{id};
        }
        previousKeys := previousKeys - {id};
      }
    }

    method Approve(id: string, approval: bool, writes: bool) returns (ok: bool)
      requires id in identityKeys
      modifies this`identityKeys, this`rows
      ensures ok == writes && Contact(id) == I.Approved(old(Contact(id)), approval, writes) && OthersSame(id)
    {
      var identityRecord := identityKeys[id].(nonblockingApproval := approval);
      identityKeys := identityKeys[id := identityRecord];
      ok := WriteKey(id, identityRecord, writes);
    }

    method SaveIdentity(id: string, publicKey: Bytes, approval: bool, noOverwrite: bool, now: nat, writes: bool)
      returns (outcome: I.Outcome)
      modifies this
      ensures var e := I.SaveIdentity(publicKey, approval, noOverwrite, now, writes);
              Contact(id) == I.Step(old(Contact(id)), e) && outcome == I.OutcomeOf(old(Contact(id)), e)
      ensures OthersSame(id)
    {
      if id !in identityKeys || identityKeys[id].publicKey.None? {
        var ok := WriteKey(id, I.IdentityKey(Some(publicKey), true, now, I.DEFAULT, approval), writes);
        if !ok {
          return I.Threw;
        }
        CheckPreviousKey(id, publicKey);
        return I.Returned(false);
      }
      if noOverwrite {
        return I.Returned(false);
      }
      var identityRecord := identityKeys[id];
      if identityRecord.publicKey.value != publicKey {
        if id in ourServiceIds {
          return I.Returned(false);
        }
        var previousStatus := identityRecord.verified;
        var verifiedStatus :=
          if previousStatus == I.VERIFIED || previousStatus == I.UNVERIFIED then I.UNVERIFIED else I.DEFAULT;
        var ok := WriteKey(id, I.IdentityKey(Some(publicKey), false, now, verifiedStatus, approval), writes);
        if !ok {
          return I.Threw;
        }
        keyChanges := keyChanges + multiset{id};
        return I.Returned(true);
      }
      if I.ApprovalRequired(identityRecord, now) {
        var ok := Approve(id, approval, writes);
        return if ok then I.Returned(false) else I.Threw;
      }
      return I.Returned(false);
    }

    method SetApproval(id: string, approval: bool, writes: bool) returns (outcome: I.Outcome)
      modifies this`identityKeys, this`rows
      ensures var e := I.SetApproval(approval, writes);
              Contact(id) == I.Step(old(Contact(id)), e) && outcome == I.OutcomeOf(old(Contact(id)), e)
      ensures OthersSame(id)
    {
      if id !in identityKeys {
        return I.Threw;
      }
      var ok := Approve(id, approval, writes);
      outcome := if ok then I.Returned(false) else I.Threw;
    }

    method SetVerified(id: string, status: int, firstUse: Option<bool>, approval: Option<bool>, writes: bool)
      returns (outcome: I.Outcome)
      modifies this`identityKeys, this`rows
      ensures var e := I.SetVerified(status, firstUse, approval, writes);
              Contact(id) == I.Step(old(Contact(id)), e) && outcome == I.OutcomeOf(old(Contact(id)), e)
      ensures OthersSame(id)
    {
      if !I.ValidStatus(status) || id !in identityKeys || !I.ValidKey(identityKeys[id]) {
        return I.Threw;
      }
      var next := identityKeys[id].(verified := status);
      if firstUse.Some? {
        next := next.(firstUse := firstUse.value);
      }
      if approval.Some? {
        next := next.(nonblockingApproval := approval.value);
      }
      var ok := WriteKey(id, next, writes);
      outcome := if ok then I.Returned(false) else I.Threw;
    }

    method UpdateIdentityAfterSync(id: string, status: int, publicKey: Bytes, now: nat, writes: bool)
      returns (outcome: I.Outcome)
      modifies this
      ensures var e := I.Sync(status, publicKey, now, writes);
              Contact(id) == I.Step(old(Contact(id)), e) && outcome == I.OutcomeOf(old(Contact(id)), e)
      ensures OthersSame(id)
    {
      if !I.ValidStatus(status) {
        return I.Threw;
      }
      var identityRecord := if id in identityKeys then Some(identityKeys[id]) else None;
      var hadEntry := identityRecord.Some?;
      var keyMatches := hadEntry && identityRecord.value.publicKey == Some(publicKey);
      var statusMatches := keyMatches && identityRecord.value.verified == status;
      if !statusMatches {
        var next := I.IdentityKey(Some(publicKey), !hadEntry, now, status, true);
        if !I.ValidKey(next) {
          return I.Threw;
        }
        var ok := WriteKey(id, next, writes);
        if !ok {
          return I.Threw;
        }
      }
      if !hadEntry {
        CheckPreviousKey(id, publicKey);
      } else if !keyMatches {
        keyChanges := keyChanges + multiset{id};
      }
      if status == I.VERIFIED && (!hadEntry || identityRecord.value.verified != I.VERIFIED) {
        return I.Returned(true);
      }
      if status != I.VERIFIED && hadEntry && identityRecord.value.verified == I.VERIFIED {
        return I.Returned(true);
      }
      return I.Returned(false);
    }

    method IsTrustedForSending(id: string, publicKey: Bytes, now: nat) returns (trusted: bool)
      ensures trusted == I.IsTrustedForSending(Contact(id), publicKey, now)
    {
      if id !in identityKeys {
        if id in previousKeys && previousKeys[id] != publicKey {
          return false;
        }
        return true;
      }
      var existing := identityKeys[id].publicKey;
      if existing.None? {
        return true;
      }
      if existing.value != publicKey {
        return false;
      }
      if identityKeys[id].verified == I.UNVERIFIED {
        return false;
      }
      if I.ApprovalRequired(identityKeys[id], now) {
        return false;
      }
      return true;
    }
  }
}
