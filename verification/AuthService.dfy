/** AuthService as an object: fields in memory, a disk changed one file operation at a time, and a journal of
    the disks a crash could leave behind. */
module AuthServices {
  import opened Wrappers
  import opened AuthFiles
  import opened AuthAccess
  import opened AuthOps
  import opened AuthRetry

  class AuthService {
    const names: seq<string>
    var disk: Disk
    /** The record loaded from auth.json. */
    var auth: Option<Key>
    var unlocked: bool
    var encKey: Option<Key>
    /** The failed attempts and the lockout of the record. */
    const limiter: RetryLimiter
    /** Every disk so far, one for each file operation. */
    ghost var journal: seq<Disk>

    /** Without a password there is nothing to unlock and no key. */
    ghost predicate Valid()
      reads this
    {
      auth.None? ==> unlocked && encKey.None?
    }

    function View(): Service
      reads this
    {
      Service(disk, auth, unlocked, encKey)
    }

    /** What a method did: the file operations, in order, and the state it left. */
    twostate predicate Did(r: Done)
      reads this
    {
      && Valid()
      && journal == old(journal) + r.trace
      && View() == r.end
    }

    /** init, on whatever disk the last run left. */
    constructor (names: seq<string>, onDisk: Disk, limiter: RetryLimiter)
      ensures Valid() && this.names == names && this.limiter == limiter
      ensures journal == Start(names, onDisk).trace && View() == Start(names, onDisk).end
    {
      this.names := names;
      this.limiter := limiter;
      disk := onDisk;
      auth := onDisk.auth;
      unlocked := false;
      encKey := None;
      journal := [];
      new;
      hide Start;
      StartParts(names, onDisk);
      Begin();
    }

    /** init, once the record has been read. */
    method Begin()
      requires journal == [] && auth == disk.auth && !unlocked && encKey.None?
      modifies this
      ensures Valid()
      ensures var t := RecoverTrace(names, old(disk));
              var r := Resume(names, Last(old(disk), t));
              if old(auth).None? then journal == t && View() == Service(Last(old(disk), t), None, true, None)
              else journal == t + r.trace && View() == r.end
    {
      hide RecoverTrace, Resume, Last;
      RecoverFromCrash();
      assert journal == RecoverTrace(names, old(disk));
      if auth.None? {
        unlocked := true;
      } else {
        ResumeRememberedKey();
      }
    }

    /** One atomic change of the disk. */
    method Apply(d: Disk)
      modifies this`disk, this`journal
      ensures disk == d && journal == old(journal) + [d]
    {
      disk := d;
      journal := journal + [d];
    }

    method RemoveSides(f: string)
      modifies this`disk, this`journal
      ensures journal == old(journal) + Sweep(old(disk), f) && disk == Last(old(disk), Sweep(old(disk), f))
    {
      Apply(disk.(sides := disk.sides - {f + "-wal"}));
      Apply(disk.(sides := disk.sides - {f + "-shm"}));
    }

    /** One file of each loop. */
    method RecoverFileAt(f: string)
      requires auth == disk.auth
      modifies this`disk, this`journal
      ensures disk.auth == auth
      ensures journal == old(journal) + RecoverFile(old(disk), f) && disk == Last(old(disk), RecoverFile(old(disk), f))
    {
      var p := disk.File(f);
      if p.base.Some? && p.enc.Some? {
        if auth.Some? {
          Apply(disk.Put(f, p.(base := None)));
          RemoveSides(f);
        } else {
          Apply(disk.Put(f, p.(enc := None)));
        }
      }
    }

    method EncryptFileAt(f: string, key: Key)
      modifies this`disk, this`journal
      ensures journal == old(journal) + EncryptFile(old(disk), f, key)
      ensures disk == Last(old(disk), EncryptFile(old(disk), f, key))
    {
      var base := disk.File(f).base;
      if base.Some? {
        var sealed_ := SealedFile(key, base.value);
        Apply(disk.Put(f, Pair(base, Some(sealed_))));
        Apply(disk.Put(f, Pair(None, Some(sealed_))));
        RemoveSides(f);
      }
    }

    method DecryptFileAt(f: string, key: Key) returns (ok: bool)
      modifies this`disk, this`journal
      ensures ok == DecryptFile(old(disk), f, key).ok
      ensures journal == old(journal) + DecryptFile(old(disk), f, key).trace
      ensures disk == Last(old(disk), DecryptFile(old(disk), f, key).trace)
    {
      var enc := disk.File(f).enc;
      if enc.None? {
        return true;
      }
      if enc.value.key != key {
        return false;
      }
      Apply(disk.Put(f, Pair(Some(enc.value.content), enc)));
      Apply(disk.Put(f, Pair(Some(enc.value.content), None)));
      return true;
    }

    method CleanupFileAt(f: string)
      modifies this`disk, this`journal
      ensures journal == old(journal) + CleanupFile(old(disk), f) && disk == Last(old(disk), CleanupFile(old(disk), f))
    {
      var p := disk.File(f);
      if p.enc.Some? {
        Apply(disk.Put(f, p.(enc := None)));
      }
    }

    method RecoverFromCrash()
      requires auth == disk.auth
      modifies this`disk, this`journal
      ensures disk.auth == auth
      ensures journal == old(journal) + RecoverTrace(names, old(disk))
      ensures disk == Last(old(disk), RecoverTrace(names, old(disk)))
    {
      ghost var d := disk;
      for i := 0 to |names|
        invariant disk.auth == auth
        invariant journal == old(journal) + RecoverTrace(names[..i], d)
        invariant disk == Last(d, RecoverTrace(names[..i], d))
      {
        hide RecoverFile, RecoverTrace, Last;
        ghost var t, e := RecoverTrace(names[..i], d), disk;
        RecoverFileAt(names[i]);
        RecoverNext(names, i, d);
        Associates(old(journal), t, RecoverFile(e, names[i]));
      }
      assert names[..|names|] == names;
    }

    /** Stops before the n-th file if its sealed copy cannot be written. */
    method EncryptConfigFiles(key: Key, n: nat)
      requires n <= |names|
      modifies this`disk, this`journal
      ensures journal == old(journal) + EncryptTrace(names[..n], old(disk), key)
      ensures disk == Last(old(disk), EncryptTrace(names[..n], old(disk), key))
    {
      ghost var d := disk;
      for i := 0 to n
        invariant journal == old(journal) + EncryptTrace(names[..i], d, key)
        invariant disk == Last(d, EncryptTrace(names[..i], d, key))
      {
        hide EncryptFile, EncryptTrace, Last;
        ghost var t, e := EncryptTrace(names[..i], d, key), disk;
        EncryptFileAt(names[i], key);
        EncryptNext(names, i, d, key);
        Associates(old(journal), t, EncryptFile(e, names[i], key));
      }
    }

    method DecryptConfigFiles(key: Key) returns (ok: bool)
      modifies this`disk, this`journal
      ensures ok == DecryptTrace(names, old(disk), key).ok
      ensures journal == old(journal) + DecryptTrace(names, old(disk), key).trace
      ensures disk == Last(old(disk), DecryptTrace(names, old(disk), key).trace)
    {
      ghost var d := disk;
      for i := 0 to |names|
        invariant DecryptTrace(names[..i], d, key).ok
        invariant journal == old(journal) + DecryptTrace(names[..i], d, key).trace
        invariant disk == Last(d, DecryptTrace(names[..i], d, key).trace)
      {
        hide DecryptFile, Last;
        assert names[..i + 1][..i] == names[..i];
        ghost var e := disk;
        ok := DecryptFileAt(names[i], key);
        LastOfTwo(d, DecryptTrace(names[..i], d, key).trace, DecryptFile(e, names[i], key).trace);
        if !ok {
          StopsThere(names, i + 1, d, key);
          return;
        }
      }
      assert names[..|names|] == names;
      return true;
    }

    method CleanupEncryptedFiles()
      modifies this`disk, this`journal
      ensures journal == old(journal) + CleanupTrace(names, old(disk))
      ensures disk == Last(old(disk), CleanupTrace(names, old(disk)))
    {
      ghost var d := disk;
      for i := 0 to |names|
        invariant journal == old(journal) + CleanupTrace(names[..i], d)
        invariant disk == Last(d, CleanupTrace(names[..i], d))
      {
        hide CleanupFile, Last;
        assert names[..i + 1][..i] == names[..i];
        ghost var e := disk;
        CleanupFileAt(names[i]);
        LastOfTwo(d, CleanupTrace(names[..i], d), CleanupFile(e, names[i]));
      }
      assert names[..|names|] == names;
    }

    method HasEncryptedConfig() returns (found: bool)
      ensures found == HasEncrypted(names, disk)
    {
      for i := 0 to |names|
        invariant forall j :: 0 <= j < i ==> disk.File(names[j]).enc.None?
      {
        if disk.File(names[i]).enc.Some? {
          return true;
        }
      }
      return false;
    }

    method RememberKey(key: Key)
      modifies this`disk, this`journal
      ensures journal == old(journal) + RememberTrace(old(disk), key)
      ensures disk == Last(old(disk), RememberTrace(old(disk), key))
    {
      if disk.hasStore {
        Apply(disk.(remembered := Some(Whole(key))));
      }
    }

    method ForgetRememberedKey()
      modifies this`disk, this`journal
      ensures journal == old(journal) + ForgetTrace(old(disk)) && disk == Last(old(disk), ForgetTrace(old(disk)))
    {
      if disk.hasStore {
        Apply(disk.(remembered := None));
      }
    }

    method SaveAuthData()
      modifies this`disk, this`journal
      ensures disk == old(disk).(auth := auth) && journal == old(journal) + [disk]
    {
      Apply(disk.(auth := auth));
    }

    method ResumeRememberedKey()
      requires auth == disk.auth && auth.Some? && !unlocked && encKey.None?
      modifies this`disk, this`journal, this`unlocked, this`encKey
      ensures var r := Resume(names, old(disk)); journal == old(journal) + r.trace && View() == r.end
    {
      hide HasEncrypted;
      var found := HasEncryptedConfig();
      if !disk.hasStore || !found {
        return;
      }
      if disk.remembered.None? {
        return;
      }
      if disk.remembered.value.WrongLength? {
        ForgetRememberedKey();
        return;
      }
      var key := disk.remembered.value.key;
      ghost var e := disk;
      var ok := DecryptConfigFiles(key);
      DecryptKeepsRecords(names, |names|, e, key);
      WholeList(names);
      if !ok {
        ForgetRememberedKey();
        return;
      }
      encKey := Some(key);
      unlocked := true;
    }

    method SetupPassword(password: string, salt: string) returns (error: Error)
      requires Valid()
      modifies this
      ensures Did(Setup(old(View()), password, salt)) && error == Setup(old(View()), password, salt).error
    {
      if auth.Some? {
        return AlreadySetup;
      }
      if |password| < 4 {
        return PasswordTooShort;
      }
      var key := Key(password, salt);
      auth := Some(key);
      SaveAuthData();
      encKey := Some(key);
      unlocked := true;
      RememberKey(key);
      return NoError;
    }

    /** unlock, begun at `now`: refused during a lockout without touching anything; otherwise it does what Unlock
        says, a wrong password is recorded and a session opened clears the record. */
    method UnlockWith(password: string, now: int, over: nat) returns (error: Error)
      requires Valid() && limiter.Valid() && limiter.clock <= now
      modifies this, limiter
      ensures limiter.Valid() && 0 <= limiter.failedAttempts <= 9
      ensures old(auth.Some? && !unlocked) ==>
        (error.Locked? <==> old(limiter.lockoutUntil.Some? && now < limiter.lockoutUntil.value))
      ensures error.Locked? ==>
        && old(auth.Some? && !unlocked) && Did(Done([], old(View()), error)) && limiter.checks == old(limiter.checks)
        && now + error.retryAfter == old(limiter.lockoutUntil).value
      ensures !error.Locked? ==>
        && Did(Unlock(names, old(View()), password)) && error == Unlock(names, old(View()), password).error
        && limiter.checks == (if error.InvalidPassword? then old(limiter.checks) + [limiter.clock]
                              else if error.NoError? && !old(unlocked) then []
                              else old(limiter.checks))
      ensures old(auth.Some? && !unlocked && auth.value.password != password) && !error.Locked? ==>
        && error.InvalidPassword? && !unlocked && encKey == old(encKey) && disk.files == old(disk.files)
        && limiter.checks == old(limiter.checks) + [limiter.clock]
    {
      if auth.None? {
        return NotSetup;
      }
      if unlocked {
        return NoError;
      }
      var retryAfter := limiter.Admit(now, over);
      if retryAfter.Some? {
        return Locked(retryAfter.value);
      }
      if auth.value.password != password {
        limiter.RecordFailure();
        SaveAuthData();
        return InvalidPassword;
      }
      error := OpenFiles(password);
      if error.NoError? {
        limiter.RecordSuccess();
      }
    }

    /** unlock after a correct password. */
    method OpenFiles(password: string) returns (error: Error)
      requires Valid() && auth.Some? && !unlocked && auth.value.password == password
      modifies this
      ensures Did(Unlock(names, old(View()), password)) && error == Unlock(names, old(View()), password).error
    {
      var key := auth.value;
      hide DecryptTrace, RememberTrace, Last;
      ghost var t := DecryptTrace(names, disk, key).trace;
      var ok := DecryptConfigFiles(key);
      if !ok {
        return DecryptFailed;
      }
      ghost var e := disk;
      SaveAuthData();
      LastIs(e, t, e);
      LastOfTwo(e, t + [e], RememberTrace(e, key));
      encKey := Some(key);
      unlocked := true;
      RememberKey(key);
      return NoError;
    }

    /** A file that cannot be sealed ends the loop, and the session all the same. */
    method LockInternal(failing: Failure)
      requires Valid()
      modifies this
      ensures Did(Suspend(names, old(View()), failing))
    {
      if !unlocked || encKey.None? {
        return;
      }
      EncryptConfigFiles(encKey.value, Sealable(names, failing));
      encKey := None;
      unlocked := false;
    }

    method SuspendSession(failing: Failure)
      requires Valid()
      modifies this
      ensures Did(Suspend(names, old(View()), failing))
    {
      if unlocked {
        LockInternal(failing);
      }
    }

    method LockSession(failing: Failure)
      requires Valid()
      modifies this
      ensures Did(Lock(names, old(View()), failing))
    {
      if unlocked {
        LockInternal(failing);
      }
      ForgetRememberedKey();
    }

    method OpenPlaintextSession() returns (error: Error)
      requires Valid()
      modifies this
      ensures Did(OpenPlaintext(names, old(View()))) && error == OpenPlaintext(names, old(View())).error
    {
      if auth.None? || unlocked {
        unlocked := true;
        return NoError;
      }
      var found := HasEncryptedConfig();
      if found {
        return NotUnlocked;
      }
      unlocked := true;
      return NoError;
    }

    method ChangePasswordTo(oldPassword: string, newPassword: string, salt: string, failing: Failure)
      returns (error: Error)
      requires Valid()
      modifies this
      ensures Did(ChangePassword(names, old(View()), oldPassword, newPassword, salt, failing))
      ensures error == ChangePassword(names, old(View()), oldPassword, newPassword, salt, failing).error
      ensures old(auth.Some? && unlocked && auth.value.password != oldPassword) ==>
        error.InvalidPassword? && journal == old(journal) && View() == old(View())
    {
      ChangeIsGuarded(names, View(), oldPassword, newPassword, salt, failing);
      if auth.None? {
        return NotSetup;
      }
      if !unlocked {
        return NotUnlocked;
      }
      if auth.value.password != oldPassword {
        return InvalidPassword;
      }
      if |newPassword| < 4 {
        return PasswordTooShort;
      }
      error := ReplaceKey(Key(newPassword, salt), failing);
    }

    /** changePassword after its checks: the sealing and its catch block. */
    method ReplaceKey(key: Key, failing: Failure) returns (error: Error)
      requires Valid() && unlocked && auth.Some?
      modifies this
      ensures Did(Replacement(names, old(View()), key, failing))
      ensures error == Replacement(names, old(View()), key, failing).error
    {
      hide EncryptTrace, DecryptTrace, ForgetTrace, Last;
      var n := Sealable(names, failing);
      ForgetRememberedKey();
      EncryptConfigFiles(key, n);
      if n < |names| {
        var ok := DecryptConfigFiles(key);
        if !ok {
          encKey := None;
          unlocked := false;
        }
        return WriteFailed;
      }
      assert names[..n] == names;
      error := SaveNewKey(key, failing);
    }

    /** The saving of the new hash, its catch block, and what follows. */
    method SaveNewKey(key: Key, failing: Failure) returns (error: Error)
      requires Valid() && unlocked && auth.Some?
      modifies this
      ensures Valid() && unlocked
      ensures var saved := if failing.Saving? then old(disk) else old(disk).(auth := Some(key));
              var t := DecryptTrace(names, saved, key);
              && journal == old(journal) + (if failing.Saving? then [] else [saved]) + t.trace
              && disk == Last(saved, t.trace)
              && error == (if failing.Saving? || failing.Permissions? then WriteFailed
                           else if t.ok then NoError else DecryptFailed)
              && auth == (if error.WriteFailed? then old(auth) else Some(key))
              && encKey == (if error.NoError? then Some(key) else old(encKey))
    {
      hide DecryptTrace, Last;
      var oldHash := auth;
      auth := Some(key);
      if !failing.Saving? {
        SaveAuthData();
      }
      if failing.Saving? || failing.Permissions? {
        auth := oldHash;
        var _ := DecryptConfigFiles(key);
        return WriteFailed;
      }
      var ok := DecryptConfigFiles(key);
      if !ok {
        return DecryptFailed;
      }
      encKey := Some(key);
      return NoError;
    }

    method RemovePasswordNow(password: string) returns (error: Error)
      requires Valid()
      modifies this
      ensures Did(RemovePassword(names, old(View()), password))
      ensures error == RemovePassword(names, old(View()), password).error
      ensures old(auth.Some? && unlocked && auth.value.password != password) ==>
        error.InvalidPassword? && journal == old(journal) && View() == old(View())
    {
      RemoveIsGuarded(names, View(), password);
      if auth.None? {
        return NotSetup;
      }
      if !unlocked {
        return NotUnlocked;
      }
      if auth.value.password != password {
        return InvalidPassword;
      }
      CleanupEncryptedFiles();
      auth := None;
      Apply(disk.(auth := None));
      encKey := None;
      unlocked := true;
      return NoError;
    }
  }

  lemma LastIs(d: Disk, t: seq<Disk>, e: Disk)
    ensures Last(d, t + [e]) == e
  {
  }

  lemma Associates(j: seq<Disk>, t: seq<Disk>, u: seq<Disk>)
    ensures (j + t) + u == j + (t + u)
  {
  }

  lemma {:induction false} StopsThere(names: seq<string>, n: nat, d: Disk, key: Key)
    requires n <= |names| && !DecryptTrace(names[..n], d, key).ok
    ensures DecryptTrace(names, d, key) == DecryptTrace(names[..n], d, key)
    decreases |names| - n
  {
    if n == |names| {
      assert names[..n] == names;
    } else {
      assert names[..n + 1][..n] == names[..n];
      StopsThere(names, n + 1, d, key);
    }
  }
}
