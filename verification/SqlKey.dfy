/** The database key over any number of starts of the application.

    The key is kept in the user config: in plain text, or encrypted by the
    operating system.  A start may be cut short between two config writes, and
    encryption may come, go, or change its backend from one start to the next. */
module SqlKey {
  import opened Common

  /** A config entry; `Absent` covers null and undefined, `Other` is no string. */
  datatype Entry = Absent | Text(text: string) | Other

  /** A ciphertext can be decrypted in the context it was made in. */
  datatype Secret = NoSecret | NotText | Encrypted(context: string, key: string)

  datatype Config = Config(key: Entry, encryptedKey: Secret, safeStorageBackend: Entry)

  const EMPTY_CONFIG := Config(Absent, NoSecret, Absent)

  /** What one start finds: the selected backend is known on Linux only, and
      `newKey` is what `generateSQLKey` would return. */
  datatype Environment = Environment(
    isLinux: bool,
    canEncrypt: bool,
    backend: Option<string>,
    context: string,
    newKey: string)

  const BASIC_TEXT := "basic_text"

  /** What `getSQLKey` comes to. */
  datatype Outcome = Returned(key: string) | Threw | Stopped

  predicate EncryptionAvailable(env: Environment) {
    env.canEncrypt && (!env.isLinux || env.backend != Some(BASIC_TEXT))
  }

  predicate BackendChanged(c: Config, env: Environment) {
    env.isLinux && c.safeStorageBackend.Text? && Some(c.safeStorageBackend.text) != env.backend
  }

  function AsEntry(o: Option<string>): Entry {
    if o.Some? then Text(o.value) else Absent
  }

  /** The key to return, and the config as it is after each write. */
  datatype Plan = Fails | Plan(key: string, writes: seq<Config>)

  function AdoptEncryption(c: Config, env: Environment, key: string): Plan {
    var c1 := c.(encryptedKey := Encrypted(env.context, key));
    var c2 := c1.(key := Absent);
    if env.isLinux && env.backend.Some? && env.backend.value != ""
    then Plan(key, [c1, c2, c2.(safeStorageBackend := Text(env.backend.value))])
    else Plan(key, [c1, c2])
  }

  function UseEncrypted(c: Config, env: Environment): Plan
    requires c.encryptedKey.Encrypted?
  {
    if !EncryptionAvailable(env) || c.encryptedKey.context != env.context then Fails
    else
      var first := if c.key != Absent then [c.(key := Absent)] else [];
      var later := c.(key := Absent, safeStorageBackend := AsEntry(env.backend));
      Plan(c.encryptedKey.key, if env.isLinux && c.safeStorageBackend == Absent then first + [later] else first)
  }

  function PlanFor(c: Config, env: Environment): Plan {
    if BackendChanged(c, env) then Fails
    else if c.encryptedKey.Encrypted? then UseEncrypted(c, env)
    else
      var key := if c.key.Text? then c.key.text else env.newKey;
      if EncryptionAvailable(env) then AdoptEncryption(c, env, key)
      else if c.key.Text? then Plan(key, [])
      else Plan(key, [c.(key := Text(key))])
  }

  /** One start that gets to make `writes` config writes: the config on disk when
      it ends, and the outcome. */
  function Start(disk: Config, env: Environment, writes: nat): (Config, Outcome) {
    var plan := PlanFor(disk, env);
    if plan.Fails? then (disk, Threw)
    else if writes < |plan.writes| then (([disk] + plan.writes)[writes], Stopped)
    else (([disk] + plan.writes)[|plan.writes|], Returned(plan.key))
  }

  // ---------------------------------------------------------------- one start

  /** The key that is on disk, in whichever form. */
  function KeyOnDisk(c: Config): Option<string> {
    if c.encryptedKey.Encrypted? then Some(c.encryptedKey.key)
    else if c.key.Text? then Some(c.key.text) else None
  }

  /** The two forms do not disagree. */
  predicate Consistent(c: Config) {
    c.encryptedKey.Encrypted? && c.key.Text? ==> c.key.text == c.encryptedKey.key
  }

  /** Wherever a start is cut short: a key on disk stays there, and a key is only
      returned when it is on disk. */
  lemma StartKeepsKey(disk: Config, env: Environment, writes: nat)
    requires Consistent(disk)
    ensures var (after, outcome) := Start(disk, env, writes);
            && Consistent(after)
            && (KeyOnDisk(disk).Some? ==> KeyOnDisk(after) == KeyOnDisk(disk))
            && (outcome.Returned? ==> KeyOnDisk(after) == Some(outcome.key))
  {
    var plan := PlanFor(disk, env);
    if plan.Plan? {
      PlannedWritesKeepKey(disk, env, if writes < |plan.writes| then writes else |plan.writes|);
    }
  }

  lemma PlannedWritesKeepKey(disk: Config, env: Environment, k: nat)
    requires Consistent(disk) && PlanFor(disk, env).Plan? && k <= |PlanFor(disk, env).writes|
    ensures var plan := PlanFor(disk, env);
            var c := ([disk] + plan.writes)[k];
            && Consistent(c)
            && (KeyOnDisk(disk).Some? ==> KeyOnDisk(c) == KeyOnDisk(disk) == Some(plan.key))
            && (k == |plan.writes| ==> KeyOnDisk(c) == Some(plan.key))
  {
  }

  /** A start throws exactly when the backend is known to have changed, or the key
      is encrypted and cannot be decrypted here; no write is made then. */
  lemma ThrowsExactlyWhen(disk: Config, env: Environment, writes: nat)
    ensures Start(disk, env, writes).1 == Threw <==>
              || (env.isLinux && disk.safeStorageBackend.Text? && env.backend != Some(disk.safeStorageBackend.text))
              || (disk.encryptedKey.Encrypted?
                  && (!env.canEncrypt || (env.isLinux && env.backend == Some("basic_text"))
                      || disk.encryptedKey.context != env.context))
    ensures Start(disk, env, writes).1 == Threw ==> Start(disk, env, writes).0 == disk
  {
  }

  /** A start that returns where encryption is available leaves no plain key. */
  lemma EncryptionIsAdopted(disk: Config, env: Environment, writes: nat)
    requires env.canEncrypt && (env.isLinux ==> env.backend != Some("basic_text"))
    requires Start(disk, env, writes).1.Returned?
    ensures var after := Start(disk, env, writes).0;
            after.key == Absent && after.encryptedKey == Encrypted(env.context, Start(disk, env, writes).1.key)
  {
    var plan := PlanFor(disk, env);
    var all := [disk] + plan.writes;
    assert |plan.writes| > 0 ==> all[|plan.writes|] == plan.writes[|plan.writes| - 1];
  }

  /** Which key a start returns, how many writes it makes, and what it leaves: where
      the key can be encrypted it is, else it stays in plain text; the backend is
      saved when the key is first encrypted, or if it was not known. */
  lemma ReturnedExactly(disk: Config, env: Environment, writes: nat)
    requires Start(disk, env, writes).1 != Threw
    ensures var available := env.canEncrypt && (env.isLinux ==> env.backend != Some("basic_text"));
            var key := if disk.encryptedKey.Encrypted? then disk.encryptedKey.key
                       else if disk.key.Text? then disk.key.text else env.newKey;
            var hasBackend := env.backend.Some? && env.backend.value != "";
            var savesBackend := env.isLinux && if disk.encryptedKey.Encrypted? then disk.safeStorageBackend == Absent
                                               else available && hasBackend;
            var needed := (if !disk.encryptedKey.Encrypted? && available then 2
                           else if disk.encryptedKey.Encrypted? && disk.key == Absent then 0
                           else if !disk.encryptedKey.Encrypted? && disk.key.Text? then 0 else 1)
                          + (if savesBackend then 1 else 0);
            && Start(disk, env, writes).1 == (if writes >= needed then Returned(key) else Stopped)
            && var after := Start(disk, env, writes).0;
            && (writes == 0 ==> after == disk)
            && (0 < writes < needed ==>
                  after == disk.(encryptedKey := if disk.encryptedKey.Encrypted? then disk.encryptedKey
                                                 else Encrypted(env.context, key),
                                 key := if disk.encryptedKey.Encrypted? || writes == 2 then Absent else disk.key))
            && (writes >= needed ==>
                  && after.encryptedKey == (if disk.encryptedKey.Encrypted? || !available then disk.encryptedKey
                                            else Encrypted(env.context, key))
                  && after.key == (if available then Absent else Text(key))
                  && after.safeStorageBackend ==
                     (if !savesBackend then disk.safeStorageBackend
                      else if env.backend.Some? then Text(env.backend.value) else Absent))
  {
  }

  /** After a start that returned, a start that finds the same never throws, and if it
      can make one write returns the same key, whatever new key it might make up. */
  lemma SameEnvironmentReturnsAgain(disk: Config, env: Environment, writes: nat, newKey: string, again: nat)
    requires Start(disk, env, writes).1.Returned?
    ensures var after := Start(disk, env, writes).0;
            var (last, outcome) := Start(after, env.(newKey := newKey), again);
            && outcome != Threw
            && (again > 0 ==> outcome == Start(disk, env, writes).1)
            && last.key == after.key && last.encryptedKey == after.encryptedKey
            && (last != after ==> env.isLinux && env.backend == Some(""))
  {
    ReturnedExactly(disk, env, writes);
    ThrowsExactlyWhen(disk, env, writes);
    var after := Start(disk, env, writes).0;
    ThrowsExactlyWhen(after, env.(newKey := newKey), again);
    ReturnedExactly(after, env.(newKey := newKey), again);
  }

  /** Where the key was encrypted, a later start fails exactly when the backend is
      another one, known by then, or encryption is gone, or it is a context in which
      the key cannot be decrypted. */
  lemma LaterStartThrowsExactlyWhen(disk: Config, env: Environment, writes: nat, other: Environment, again: nat)
    requires Start(disk, env, writes).1.Returned? && env.canEncrypt && !disk.encryptedKey.Encrypted?
    requires env.isLinux && env.backend.Some? && env.backend.value != "basic_text" && env.backend.value != ""
    ensures var after := Start(disk, env, writes).0;
            && after.safeStorageBackend == Text(env.backend.value)
            && (Start(after, other, again).1 == Threw <==>
                  || !other.canEncrypt || other.context != env.context
                  || (other.isLinux && other.backend != env.backend))
  {
    ReturnedExactly(disk, env, writes);
    ThrowsExactlyWhen(Start(disk, env, writes).0, other, again);
  }

  // --------------------------------------------------------------- all starts

  type Starting = (Environment, nat)

  function After(disk: Config, starts: seq<Starting>): Config {
    if starts == [] then disk
    else Start(After(disk, starts[..|starts| - 1]), starts[|starts| - 1].0, starts[|starts| - 1].1).0
  }

  function OutcomeOf(disk: Config, starts: seq<Starting>, k: nat): Outcome
    requires k < |starts|
  {
    Start(After(disk, starts[..k]), starts[k].0, starts[k].1).1
  }

  lemma {:induction false} KeyStays(disk: Config, starts: seq<Starting>)
    requires Consistent(disk)
    ensures Consistent(After(disk, starts))
    ensures KeyOnDisk(disk).Some? ==> KeyOnDisk(After(disk, starts)) == KeyOnDisk(disk)
  {
    if starts != [] {
      var init := starts[..|starts| - 1];
      KeyStays(disk, init);
      StartKeepsKey(After(disk, init), starts[|starts| - 1].0, starts[|starts| - 1].1);
    }
  }

  lemma {:induction false} AfterJoin(disk: Config, a: seq<Starting>, b: seq<Starting>)
    ensures After(disk, a + b) == After(After(disk, a), b)
  {
    if b == [] {
      assert a + b == a;
    } else {
      assert (a + b)[..|a + b| - 1] == a + b[..|b| - 1];
      AfterJoin(disk, a, b[..|b| - 1]);
    }
  }

  /** Once a key is on disk, every later start throws, is cut short, or returns it. */
  lemma LaterStartsReturnTheKey(disk: Config, starts: seq<Starting>, i: nat, j: nat)
    requires Consistent(disk) && i <= j < |starts|
    requires KeyOnDisk(After(disk, starts[..i])).Some?
    ensures OutcomeOf(disk, starts, j).Returned? ==>
              Some(OutcomeOf(disk, starts, j).key) == KeyOnDisk(After(disk, starts[..i]))
  {
    var later := After(disk, starts[..i]);
    KeyStays(disk, starts[..i]);
    AfterJoin(disk, starts[..i], starts[i..j]);
    assert starts[..i] + starts[i..j] == starts[..j];
    KeyStays(later, starts[i..j]);
    StartKeepsKey(After(disk, starts[..j]), starts[j].0, starts[j].1);
  }

  /** No two starts return different keys. */
  lemma AllStartsAgree(disk: Config, starts: seq<Starting>, i: nat, j: nat)
    requires Consistent(disk) && i < j < |starts|
    requires OutcomeOf(disk, starts, i).Returned? && OutcomeOf(disk, starts, j).Returned?
    ensures OutcomeOf(disk, starts, i) == OutcomeOf(disk, starts, j)
  {
    KeyStays(disk, starts[..i]);
    StartKeepsKey(After(disk, starts[..i]), starts[i].0, starts[i].1);
    assert starts[..i + 1][..i] == starts[..i];
    LaterStartsReturnTheKey(disk, starts, i + 1, j);
  }

  /** The first start that gets to write anything leaves a key, and never throws. */
  lemma FirstStartLeavesKey(env: Environment, writes: nat)
    ensures var (after, outcome) := Start(EMPTY_CONFIG, env, writes);
            && (if writes == 0 then after == EMPTY_CONFIG && outcome == Stopped
                else Consistent(after) && KeyOnDisk(after) == Some(env.newKey))
            && outcome != Threw && (outcome.Returned? ==> outcome.key == env.newKey)
  {
  }

  /** From an empty config on, every start that returns gives the key that the first
      start to write anything made up. */
  lemma FirstKeyForEver(starts: seq<Starting>, i: nat, j: nat)
    requires i <= j < |starts| && starts[i].1 > 0 && (forall k :: 0 <= k < i ==> starts[k].1 == 0)
    ensures OutcomeOf(EMPTY_CONFIG, starts, j).Returned? ==> OutcomeOf(EMPTY_CONFIG, starts, j).key == starts[i].0.newKey
  {
    NothingWritten(starts[..i]);
    FirstStartLeavesKey(starts[i].0, starts[i].1);
    if i < j {
      assert starts[..i + 1][..i] == starts[..i];
      LaterStartsReturnTheKey(EMPTY_CONFIG, starts, i + 1, j);
    }
  }

  lemma {:induction false} NothingWritten(starts: seq<Starting>)
    requires forall k :: 0 <= k < |starts| ==> starts[k].1 == 0
    ensures After(EMPTY_CONFIG, starts) == EMPTY_CONFIG
  {
    if starts != [] {
      NothingWritten(starts[..|starts| - 1]);
      FirstStartLeavesKey(starts[|starts| - 1].0, 0);
    }
  }
}
