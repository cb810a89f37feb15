/** The user config on disk, and `getSQLKey` on it. */
module UserConfigs {
  import opened Common
  import opened SqlKey

  class UserConfig {
    var cachedValue: Config
    var disk: Config
    var writesLeft: nat    // the writes that succeed before the application stops

    /** What a start of the application reads. */
    constructor (disk: Config, writesLeft: nat)
      ensures cachedValue == disk && this.disk == disk && this.writesLeft == writesLeft
    {
      cachedValue, this.disk, this.writesLeft := disk, disk, writesLeft;
    }

    /** One atomic write of the file; a write that fails throws and changes nothing. */
    method Set(newCachedValue: Config) returns (ok: bool)
      modifies this
      ensures ok == (old(writesLeft) > 0)
      ensures ok ==> disk == newCachedValue && cachedValue == newCachedValue && writesLeft == old(writesLeft) - 1
      ensures !ok ==> disk == old(disk) && cachedValue == old(cachedValue) && writesLeft == 0
    {
      if writesLeft == 0 {
        return false;
      }
      writesLeft := writesLeft - 1;
      disk := newCachedValue;
      cachedValue := newCachedValue;
      return true;
    }

    method GetSQLKey(env: Environment) returns (r: Outcome)
      requires cachedValue == disk
      modifies this
      ensures (disk, r) == Start(old(disk), env, old(writesLeft)) && cachedValue == disk
    {
      var legacyKeyValue, modernKeyValue := cachedValue.key, cachedValue.encryptedKey;
      var previousBackend := if env.isLinux then cachedValue.safeStorageBackend else Absent;
      var isEncryptionAvailable := env.canEncrypt && (!env.isLinux || env.backend != Some(BASIC_TEXT));
      if env.isLinux && previousBackend.Text? && Some(previousBackend.text) != env.backend {
        return Threw;
      }

      var key: string;
      var update := false;
      if modernKeyValue.Encrypted? {
        if !isEncryptionAvailable || modernKeyValue.context != env.context {
          return Threw;
        }
        key := modernKeyValue.key;
        if legacyKeyValue != Absent {
          var ok := Set(cachedValue.(key := Absent));
          if !ok {
            return Stopped;
          }
        }
        if env.isLinux && previousBackend == Absent {
          var ok := Set(cachedValue.(safeStorageBackend := AsEntry(env.backend)));
          if !ok {
            return Stopped;
          }
        }
      } else if legacyKeyValue.Text? {
        key := legacyKeyValue.text;
        update := isEncryptionAvailable;
      } else {
        key := env.newKey;
        update := true;
      }

      if !update {
        return Returned(key);
      }
      r := UpdateKey(env, key, isEncryptionAvailable);
    }

    method UpdateKey(env: Environment, key: string, isEncryptionAvailable: bool) returns (r: Outcome)
      requires cachedValue == disk
      modifies this
      ensures var plan := if isEncryptionAvailable then AdoptEncryption(old(disk), env, key)
                          else Plan(key, [old(disk).(key := Text(key))]);
              var n := if old(writesLeft) < |plan.writes| then old(writesLeft) else |plan.writes|;
              && disk == ([old(disk)] + plan.writes)[n]
              && r == if n < |plan.writes| then Stopped else Returned(key)
      ensures cachedValue == disk
    {
      if isEncryptionAvailable {
        var ok := Set(cachedValue.(encryptedKey := Encrypted(env.context, key)));
        if !ok {
          return Stopped;
        }
        ok := Set(cachedValue.(key := Absent));
        if !ok {
          return Stopped;
        }
        if env.isLinux && env.backend.Some? && env.backend.value != "" {
          ok := Set(cachedValue.(safeStorageBackend := Text(env.backend.value)));
          if !ok {
            return Stopped;
          }
        }
      } else {
        var ok := Set(cachedValue.(key := Text(key)));
        if !ok {
          return Stopped;
        }
      }
      return Returned(key);
    }
  }
}
