/** The operations of AuthService as lists of file operations, and what a crash between any two of them costs. */
module AuthOps {
  import opened Wrappers
  import opened AuthFiles

  datatype Error =
    | NoError | NotSetup | AlreadySetup | PasswordTooShort | NotUnlocked | InvalidPassword | DecryptFailed
    | WriteFailed | Locked(retryAfter: int)

  /** A running service: the disk and what it holds in memory; `auth` is the record it loaded or last saved. */
  datatype Service = Service(disk: Disk, auth: Option<Key>, unlocked: bool, encKey: Option<Key>)

  /** A write that throws: the sealed copy of the n-th file, the new hash, or, once it has been written, the
      permissions of its file. */
  datatype Failure = NoFailure | Sealing(n: nat) | Saving | Permissions

  /** The disks after each file operation, the service at the end, and the error thrown. */
  datatype Done = Done(trace: seq<Disk>, end: Service, error: Error)

  function RememberTrace(d: Disk, key: Key): seq<Disk> {
    if d.hasStore then [d.Remember(key)] else []
  }

  function ForgetTrace(d: Disk): seq<Disk> {
    if d.hasStore then [d.Forget()] else []
  }

  function CleanupFile(d: Disk, f: string): seq<Disk> {
    if d.File(f).enc.Some? then [d.Put(f, d.File(f).(enc := None))] else []
  }

  function CleanupTrace(names: seq<string>, d: Disk): seq<Disk> {
    if names == [] then []
    else
      var n := |names| - 1;
      var t := CleanupTrace(names[..n], d);
      t + CleanupFile(Last(d, t), names[n])
  }

  predicate HasEncrypted(names: seq<string>, d: Disk) {
    exists i :: 0 <= i < |names| && d.File(names[i]).enc.Some?
  }

  function Failed(s: Service, error: Error): Done {
    Done([], s, error)
  }

  /** resumeRememberedKey, on a locked service. */
  function Resume(names: seq<string>, d: Disk): Done {
    if !d.hasStore || !HasEncrypted(names, d) || d.remembered.None? then
      Done([], Service(d, d.auth, false, None), NoError)
    else if d.remembered.value.WrongLength? then
      Done([d.Forget()], Service(d.Forget(), d.auth, false, None), NoError)
    else
      var key := d.remembered.value.key;
      var u := DecryptTrace(names, d, key);
      var r := Last(d, u.trace);
      if u.ok then Done(u.trace, Service(r, d.auth, true, Some(key)), NoError)
      else Done(u.trace + [r.Forget()], Service(r.Forget(), d.auth, false, None), NoError)
  }

  /** init: recovery, then an attempt with the remembered key. */
  function Start(names: seq<string>, d: Disk): Done {
    var t := RecoverTrace(names, d);
    var e := Last(d, t);
    if d.auth.None? then Done(t, Service(e, None, true, None), NoError)
    else
      var r := Resume(names, e);
      Done(t + r.trace, r.end, NoError)
  }

  lemma StartParts(names: seq<string>, d: Disk)
    ensures var t := RecoverTrace(names, d);
            var r := Resume(names, Last(d, t));
            Start(names, d) == if d.auth.None? then Done(t, Service(Last(d, t), None, true, None), NoError)
                               else Done(t + r.trace, r.end, NoError)
  {
  }

  function Setup(s: Service, password: string, salt: string): Done {
    if s.auth.Some? then Failed(s, AlreadySetup)
    else if |password| < 4 then Failed(s, PasswordTooShort)
    else
      var key := Key(password, salt);
      var saved := s.disk.(auth := Some(key));
      var t := [saved] + RememberTrace(saved, key);
      Done(t, Service(Last(saved, t), Some(key), true, Some(key)), NoError)
  }

  /** unlock, from the password check on; the checks before it only delay or refuse. The attempt counters are
      part of the saved record and not of this view of it. */
  function Unlock(names: seq<string>, s: Service, password: string): Done {
    if s.auth.None? then Failed(s, NotSetup)
    else if s.unlocked then Done([], s, NoError)
    else if s.auth.value.password != password then
      var saved := s.disk.(auth := s.auth);
      Done([saved], s.(disk := saved), InvalidPassword)
    else
      var key := s.auth.value;
      var t := DecryptTrace(names, s.disk, key);
      var e := Last(s.disk, t.trace);
      if !t.ok then Done(t.trace, s.(disk := e), DecryptFailed)
      else
        var saved := e.(auth := s.auth);
        var u := t.trace + [saved] + RememberTrace(saved, key);
        Done(u, Service(Last(saved, u), s.auth, true, Some(key)), NoError)
  }

  /** How many files are sealed before a sealed copy cannot be written. */
  function Sealable(names: seq<string>, failing: Failure): (n: nat)
    ensures n <= |names|
  {
    if failing.Sealing? && failing.n < |names| then failing.n else |names|
  }

  /** suspend, and the first half of lock. A sealed copy that cannot be written ends the sealing, and the session
      all the same. */
  function Suspend(names: seq<string>, s: Service, failing: Failure): Done {
    if !s.unlocked || s.encKey.None? then Done([], s, NoError)
    else
      var t := EncryptTrace(names[..Sealable(names, failing)], s.disk, s.encKey.value);
      Done(t, Service(Last(s.disk, t), s.auth, false, None), NoError)
  }

  function Lock(names: seq<string>, s: Service, failing: Failure): Done {
    var r := Suspend(names, s, failing);
    var t := ForgetTrace(r.end.disk);
    Done(r.trace + t, r.end.(disk := Last(r.end.disk, t)), NoError)
  }

  function OpenPlaintext(names: seq<string>, s: Service): Done {
    if s.auth.None? || s.unlocked then Done([], s.(unlocked := true), NoError)
    else if HasEncrypted(names, s.disk) then Failed(s, NotUnlocked)
    else Done([], s.(unlocked := true), NoError)
  }

  /** changePassword: forget the old key, seal everything under the new one, save the new hash, open again. */
  function ChangePassword(names: seq<string>, s: Service, oldPassword: string, newPassword: string, salt: string,
                          failing: Failure): Done {
    if s.auth.None? then Failed(s, NotSetup)
    else if !s.unlocked then Failed(s, NotUnlocked)
    else if s.auth.value.password != oldPassword then Failed(s, InvalidPassword)
    else if |newPassword| < 4 then Failed(s, PasswordTooShort)
    else Replacement(names, s, Key(newPassword, salt), failing)
  }

  function Replacement(names: seq<string>, s: Service, key: Key, failing: Failure): Done {
    if failing.Permissions? then ChangeDivided(names, s, key)
    else if Undoes(names, failing) then ChangeAborted(names, s, key, Sealable(names, failing))
    else ChangeTo(names, s, key)
  }

  /** The failures after which the old hash is still the one on disk. */
  predicate Undoes(names: seq<string>, failing: Failure) {
    failing.Saving? || Sealable(names, failing) < |names|
  }

  /** The two catch blocks: whatever was sealed is opened again, and the old key stays unless that fails too. */
  function ChangeAborted(names: seq<string>, s: Service, key: Key, n: nat): Done
    requires n <= |names|
  {
    var t0 := ForgetTrace(s.disk);
    var d0 := Last(s.disk, t0);
    var t1 := EncryptTrace(names[..n], d0, key);
    var d1 := Last(d0, t1);
    var u := DecryptTrace(names, d1, key);
    var e := Last(d1, u.trace);
    Done(t0 + t1 + u.trace, if u.ok || n == |names| then s.(disk := e) else Service(e, s.auth, false, None),
         WriteFailed)
  }

  function ChangeTo(names: seq<string>, s: Service, key: Key): Done {
    var t0 := ForgetTrace(s.disk);
    var d0 := Last(s.disk, t0);
    var t1 := EncryptTrace(names, d0, key);
    var d2 := Last(d0, t1).(auth := Some(key));
    var u := DecryptTrace(names, d2, key);
    var e := Last(d2, u.trace);
    if u.ok then Done(t0 + t1 + [d2] + u.trace, Service(e, Some(key), true, Some(key)), NoError)
    else Done(t0 + t1 + [d2] + u.trace, Service(e, Some(key), s.unlocked, s.encKey), DecryptFailed)
  }

  /** The permissions cannot be set: the disk is that of a complete change, the memory that before it. */
  function ChangeDivided(names: seq<string>, s: Service, key: Key): Done {
    var r := ChangeTo(names, s, key);
    Done(r.trace, s.(disk := r.end.disk), WriteFailed)
  }

  function RemovePassword(names: seq<string>, s: Service, password: string): Done {
    if s.auth.None? then Failed(s, NotSetup)
    else if !s.unlocked then Failed(s, NotUnlocked)
    else if s.auth.value.password != password then Failed(s, InvalidPassword)
    else
      var t := CleanupTrace(names, s.disk);
      var e := Last(s.disk, t).(auth := None);
      Done(t + [e], Service(e, None, true, None), NoError)
  }

  // ---- invariant -------------------------------------------------------------------------------

  /** While unlocked the files are plaintext; a key in memory is that of the record in memory; and the record in
      memory is the one on disk, except in a session left by a change that could not set the permissions. */
  ghost predicate Sane(names: seq<string>, s: Service, c: Contents) {
    && Recoverable(names, s.disk, c)
    && (s.unlocked ==> Plain(names, s.disk, c))
    && (s.encKey.Some? ==> s.auth == s.encKey)
    && (s.auth.None? ==> s.unlocked)
    && (!Agrees(s) ==> s.unlocked && s.auth.Some?)
  }

  predicate Agrees(s: Service) {
    s.auth == s.disk.auth
  }

  /** Nothing is lost: a crash after any file operation leaves a recoverable disk, and so does the end. */
  ghost predicate Safe(names: seq<string>, r: Done, c: Contents) {
    AllRecoverable(names, r.trace, c) && Sane(names, r.end, c)
  }

  lemma WholeList(names: seq<string>)
    ensures names[..|names|] == names
  {
  }

  lemma HoldsIsRecoverable(names: seq<string>, d: Disk, t: seq<Disk>, c: Contents, key: Key)
    requires AllHold(names, t, c, key) && Holds(names, Last(d, t), c, key)
    requires forall i :: 0 <= i < |t| ==> SameRecords(d, t[i])
    requires d.auth.Some? ==> d.auth.value == key
    ensures AllRecoverable(names, t, c) && Recoverable(names, Last(d, t), c) && SameRecords(d, Last(d, t))
  {
  }

  lemma StartSafe(names: seq<string>, d: Disk, c: Contents)
    requires Distinct(names) && Recoverable(names, d, c)
    ensures Safe(names, Start(names, d), c) && Start(names, d).end.disk.auth == d.auth && Agrees(Start(names, d).end)
  {
    WholeList(names);
    var key := if d.auth.Some? then d.auth.value else Key("", "");
    RecoverKeeps(names, |names|, d, c, key);
    var t := RecoverTrace(names, d);
    HoldsIsRecoverable(names, d, t, c, key);
    hide RecoverTrace, Resume;
    if d.auth.Some? {
      ResumeIsSafe(names, Last(d, t), c);
    }
  }

  lemma ResumeIsSafe(names: seq<string>, d: Disk, c: Contents)
    requires Distinct(names) && Recoverable(names, d, c) && d.auth.Some?
    ensures Safe(names, Resume(names, d), c) && Resume(names, d).end.disk.auth == d.auth && Agrees(Resume(names, d).end)
  {
    hide Plain, SealedOrPlain;
    RecordsDoNotMatter(names, d, d.Forget(), c);
    if d.hasStore && HasEncrypted(names, d) && d.remembered.Some? && d.remembered.value.Whole? {
      ResumeSafe(names, d, c, d.auth.value, d.remembered.value.key);
    }
  }

  /** Only the key on record opens the files; any other leaves them as they are. */
  lemma ResumeSafe(names: seq<string>, e: Disk, c: Contents, key: Key, tried: Key)
    requires Distinct(names) && SealedOrPlain(names, e, c, key) && e.auth == Some(key) && HasEncrypted(names, e)
    ensures var u := DecryptTrace(names, e, tried);
            && AllRecoverable(names, u.trace, c) && SameRecords(e, Last(e, u.trace))
            && (u.ok ==> tried == key && Plain(names, Last(e, u.trace), c))
            && (!u.ok ==> u.trace == [])
  {
    WholeList(names);
    if tried == key {
      DecryptRestores(names, |names|, e, c, key);
    } else {
      WrongKeyChangesNothing(names, |names|, e, c, key, tried);
    }
  }

  lemma SetupSafe(names: seq<string>, s: Service, password: string, salt: string, c: Contents)
    requires Sane(names, s, c)
    ensures Safe(names, Setup(s, password, salt), c)
  {
  }

  lemma UnlockSafe(names: seq<string>, s: Service, password: string, c: Contents)
    requires Distinct(names) && Sane(names, s, c)
    ensures Safe(names, Unlock(names, s, password), c)
    ensures s.auth.Some? && s.auth.value.password == password ==>
              Unlock(names, s, password).error.NoError? && Unlock(names, s, password).end.unlocked
  {
    if s.auth.Some? && !s.unlocked {
      if s.auth.value.password == password {
        OpeningSafe(names, s, c);
      } else {
        assert s.disk.(auth := s.auth) == s.disk;
      }
      hide DecryptTrace, Plain, SealedOrPlain;
    }
  }

  /** unlock with the right password, even where another record is on disk. */
  lemma OpeningSafe(names: seq<string>, s: Service, c: Contents)
    requires Distinct(names) && s.auth.Some? && !s.unlocked && SealedOrPlain(names, s.disk, c, s.auth.value)
    ensures var r := Unlock(names, s, s.auth.value.password);
            && r.error.NoError? && r.end.unlocked && r.end.auth == s.auth && r.end.encKey == s.auth && Agrees(r.end)
            && Plain(names, r.end.disk, c) && Recoverable(names, r.end.disk, c)
            && (Agrees(s) ==> AllRecoverable(names, r.trace, c))
  {
    WholeList(names);
    var key := s.auth.value;
    DecryptRestores(names, |names|, s.disk, c, key);
    var t := DecryptTrace(names, s.disk, key).trace;
    var e := Last(s.disk, t);
    var saved := e.(auth := s.auth);
    var r := Unlock(names, s, key.password);
    assert r.trace == t + ([saved] + RememberTrace(saved, key));
    assert r.end.disk == saved || r.end.disk == saved.Remember(key);
    hide DecryptTrace, Plain, SealedOrPlain, Unlock, Last;
    PlainElsewhere(names, e, saved, c);
    PlainElsewhere(names, e, saved.Remember(key), c);
    if Agrees(s) {
      AllMembers(names, s.disk, t, c, key);
    }
  }

  lemma PlainElsewhere(names: seq<string>, d: Disk, e: Disk, c: Contents)
    requires d.files == e.files && Plain(names, d, c)
    ensures Plain(names, e, c) && Recoverable(names, e, c)
  {
    assert forall f :: d.File(f) == e.File(f);
  }

  lemma AllMembers(names: seq<string>, d: Disk, trace: seq<Disk>, c: Contents, key: Key)
    requires AllSealedOrPlain(names, d, trace, c, key) && d.auth == Some(key)
    ensures AllRecoverable(names, trace, c)
  {
    hide SealedOrPlain, Plain;
  }

  lemma RecordsDoNotMatter(names: seq<string>, d: Disk, e: Disk, c: Contents)
    requires d.files == e.files && d.auth == e.auth
    ensures Plain(names, d, c) <==> Plain(names, e, c)
    ensures Recoverable(names, d, c) <==> Recoverable(names, e, c)
    ensures forall key :: SealedOrPlain(names, d, c, key) <==> SealedOrPlain(names, e, c, key)
  {
    assert forall f :: d.File(f) == e.File(f);
  }

  lemma SuspendSafe(names: seq<string>, s: Service, failing: Failure, c: Contents)
    requires Distinct(names) && Sane(names, s, c) && Agrees(s)
    ensures Safe(names, Suspend(names, s, failing), c) && Agrees(Suspend(names, s, failing).end)
  {
    if s.unlocked && s.encKey.Some? {
      var n := Sealable(names, failing);
      EncryptKeeps(names, n, s.disk, c, s.encKey.value);
      var e := Last(s.disk, EncryptTrace(names[..n], s.disk, s.encKey.value));
      PartlySealed(names, n, s.disk, e, c, s.encKey.value);
      hide EncryptTrace, Plain, SealedOrPlain;
    }
  }

  lemma LockSafe(names: seq<string>, s: Service, failing: Failure, c: Contents)
    requires Distinct(names) && Sane(names, s, c) && Agrees(s)
    ensures Safe(names, Lock(names, s, failing), c) && Agrees(Lock(names, s, failing).end)
  {
    SuspendSafe(names, s, failing, c);
    hide Suspend, Plain, SealedOrPlain;
    var e := Suspend(names, s, failing).end.disk;
    RecordsDoNotMatter(names, e, e.Forget(), c);
  }

  /** Which plaintext a locked session leaves behind: that of the file whose sealed copy could not be written and of
      those after it. So a lock leaves none exactly if it could seal every file there is. */
  lemma PlaintextLeft(names: seq<string>, s: Service, failing: Failure, c: Contents, i: nat)
    requires Distinct(names) && Sane(names, s, c) && s.unlocked && s.encKey.Some? && i < |names|
    ensures var r := Lock(names, s, failing).end;
            && !r.unlocked && r.encKey.None?
            && (r.disk.File(names[i]).base.Some? <==> i >= Sealable(names, failing) && names[i] in c)
  {
    var n := Sealable(names, failing);
    EncryptKeeps(names, n, s.disk, c, s.encKey.value);
    hide EncryptTrace;
    assert names[i] in names[..n] <==> i < n;
  }

  lemma {:induction false} NoEncrypted(names: seq<string>, d: Disk, c: Contents)
    requires SealedOrPlain(names, d, c, Key("", "")) || Recoverable(names, d, c)
    requires !HasEncrypted(names, d)
    ensures Plain(names, d, c)
  {
    forall f | f in names
      ensures d.File(f) == Pair(Latest(c, f), None)
    {
      var i :| 0 <= i < |names| && names[i] == f;
    }
  }

  lemma OpenPlaintextSafe(names: seq<string>, s: Service, c: Contents)
    requires Sane(names, s, c)
    ensures Safe(names, OpenPlaintext(names, s), c)
  {
    if s.auth.Some? && !s.unlocked && !HasEncrypted(names, s.disk) {
      NoEncrypted(names, s.disk, c);
    }
  }

  lemma {:induction false} NothingToClean(names: seq<string>, n: nat, d: Disk, c: Contents)
    requires n <= |names| && Plain(names, d, c)
    ensures CleanupTrace(names[..n], d) == []
  {
    if n > 0 {
      NothingToClean(names, n - 1, d, c);
      assert names[..n][..n - 1] == names[..n - 1];
    }
  }

  lemma RemovePasswordSafe(names: seq<string>, s: Service, password: string, c: Contents)
    requires Sane(names, s, c)
    ensures Safe(names, RemovePassword(names, s, password), c)
  {
    if s.unlocked {
      NothingToClean(names, |names|, s.disk, c);
      WholeList(names);
    }
  }

  // ---- changePassword --------------------------------------------------------------------------

  /** The disk after i file operations. */
  function After(d: Disk, trace: seq<Disk>, i: nat): Disk
    requires i <= |trace|
  {
    if i == 0 then d else trace[i - 1]
  }

  /** What the complete change does: everything is plaintext again, under the new password. */
  lemma ChangeCompletes(names: seq<string>, s: Service, key: Key, c: Contents)
    requires Distinct(names) && Plain(names, s.disk, c)
    ensures var r := ChangeTo(names, s, key);
            && r.error.NoError? && r.end.disk.auth == Some(key) && r.end.encKey == Some(key) && r.end.unlocked
            && Agrees(r.end)
            && Plain(names, r.end.disk, c) && Sane(names, r.end, c)
  {
    ChangeParts(names, s, key, c);
  }

  lemma ChangeParts(names: seq<string>, s: Service, key: Key, c: Contents)
    requires Distinct(names) && Plain(names, s.disk, c)
    ensures var t0 := ForgetTrace(s.disk);
            var d0 := Last(s.disk, t0);
            var t1 := EncryptTrace(names, d0, key);
            var d2 := Last(d0, t1).(auth := Some(key));
            var u := DecryptTrace(names, d2, key);
            && Plain(names, d0, c) && d0.auth == s.disk.auth && (d0.hasStore ==> d0.remembered == None)
            && AllSealedOrPlain(names, d0, t1, c, key)
            && SealedOrPlain(names, d2, c, key)
            && u.ok && AllSealedOrPlain(names, d2, u.trace, c, key)
            && Plain(names, Last(d2, u.trace), c) && Last(d2, u.trace).auth == Some(key)
  {
    WholeList(names);
    var d0 := Last(s.disk, ForgetTrace(s.disk));
    RecordsDoNotMatter(names, s.disk, d0, c);
    EncryptKeeps(names, |names|, d0, c, key);
    var t1 := EncryptTrace(names, d0, key);
    var d1 := Last(d0, t1);
    var d2 := d1.(auth := Some(key));
    PlainIsRecoverable(names, d0, c);
    assert SealedOrPlain(names, d1, c, key);
    assert forall f :: d1.File(f) == d2.File(f);
    DecryptRestores(names, |names|, d2, c, key);
  }

  /** At every point of a change each file survives, as plaintext or sealed under the new key. */
  lemma ChangeKeepsFiles(names: seq<string>, s: Service, key: Key, c: Contents, i: nat)
    requires Distinct(names) && Plain(names, s.disk, c)
    requires i <= |ChangeTo(names, s, key).trace|
    ensures SealedOrPlain(names, After(s.disk, ChangeTo(names, s, key).trace, i), c, key)
  {
    hide EncryptTrace, DecryptTrace, SealedOrPlain, Plain;
    ChangeParts(names, s, key, c);
    PlainIsRecoverable(names, s.disk, c);
    PlainIsRecoverable(names, Last(s.disk, ForgetTrace(s.disk)), c);
  }

  /** A change that cannot write everything is undone: the files are plaintext, and the old password, key and
      session remain. */
  lemma AbortedChangeIsUndone(names: seq<string>, s: Service, key: Key, n: nat, c: Contents)
    requires Distinct(names) && n <= |names| && Plain(names, s.disk, c)
    ensures var r := ChangeAborted(names, s, key, n);
            && Plain(names, r.end.disk, c) && r.end == s.(disk := r.end.disk) && r.end.disk.auth == s.disk.auth
            && (r.trace != [] ==> r.end.disk == r.trace[|r.trace| - 1]) && (r.trace == [] ==> r.end.disk == s.disk)
  {
    WholeList(names);
    var d0 := Last(s.disk, ForgetTrace(s.disk));
    RecordsDoNotMatter(names, s.disk, d0, c);
    EncryptKeeps(names, n, d0, c, key);
    var d1 := Last(d0, EncryptTrace(names[..n], d0, key));
    PartlySealed(names, n, d0, d1, c, key);
    DecryptRestores(names, |names|, d1, c, key);
    hide EncryptTrace, DecryptTrace, Plain, SealedOrPlain, EncryptedUpTo;
  }

  lemma PartlySealed(names: seq<string>, n: nat, d: Disk, e: Disk, c: Contents, key: Key)
    requires n <= |names| && Plain(names, d, c) && EncryptedUpTo(names[..n], d, e, c, key)
    ensures SealedOrPlain(names, e, c, key)
  {
  }

  // ---- restoring after a crash -----------------------------------------------------------------

  /** Starting again and unlocking with the password on record brings every file back. */
  ghost predicate Restores(names: seq<string>, d: Disk, c: Contents) {
    var s := Start(names, d).end;
    match d.auth
    case None => s.unlocked && Plain(names, s.disk, c)
    case Some(key) =>
      var u := Unlock(names, s, key.password);
      u.error.NoError? && u.end.unlocked && Plain(names, u.end.disk, c)
  }

  lemma RecoverableRestores(names: seq<string>, d: Disk, c: Contents)
    requires Distinct(names) && Recoverable(names, d, c)
    ensures Restores(names, d, c)
  {
    StartSafe(names, d, c);
    hide Start;
    var s := Start(names, d).end;
    if d.auth.Some? {
      UnlockSafe(names, s, d.auth.value.password, c);
      hide Unlock;
    }
  }

  /** Files sealed under a key that is not on record stay sealed. */
  lemma LostKey(names: seq<string>, d: Disk, c: Contents, key: Key)
    requires Distinct(names) && SealedOrPlain(names, d, c, key)
    requires d.auth.Some? && d.auth.value != key && (d.hasStore ==> d.remembered.None?)
    requires SomeSealed(names, d)
    ensures !Restores(names, d, c)
    ensures Unlock(names, Start(names, d).end, d.auth.value.password).error.DecryptFailed?
  {
    WholeList(names);
    RecoverKeeps(names, |names|, d, c, key);
    var e := Last(d, RecoverTrace(names, d));
    hide RecoverTrace;
    var f :| f in names && d.File(f).enc.Some?;
    assert e.File(f).enc.Some?;
    WrongKeyChangesNothing(names, |names|, e, c, key, d.auth.value);
    hide DecryptTrace, SealedOrPlain;
    assert Start(names, d).end == Service(e, d.auth, false, None);
  }

  /** A crash during a change: the files can be restored with the password on record exactly when no file has
      been sealed yet or the new hash has been saved. In between, the files are sealed under a key whose salt
      was only in memory. */
  lemma CrashDuringChange(names: seq<string>, s: Service, key: Key, c: Contents, i: nat)
    requires Distinct(names) && Plain(names, s.disk, c) && s.disk.auth.Some? && s.disk.auth.value != key
    requires i <= |ChangeTo(names, s, key).trace|
    ensures var forgotten := |ForgetTrace(s.disk)|;
            var saved := forgotten + |EncryptTrace(names, Last(s.disk, ForgetTrace(s.disk)), key)| + 1;
            Restores(names, After(s.disk, ChangeTo(names, s, key).trace, i), c) <==> i <= forgotten || i >= saved
  {
    hide *;
    ChangeParts(names, s, key, c);
    ChangeAt(names, s, key, i);
    var d := After(s.disk, ChangeTo(names, s, key).trace, i);
    var d0 := Last(s.disk, ForgetTrace(s.disk));
    var t1 := EncryptTrace(names, d0, key);
    if i <= |ForgetTrace(s.disk)| {
      PlainIsRecoverable(names, d, c);
      RecoverableRestores(names, d, c);
    } else if i <= |ForgetTrace(s.disk)| + |t1| {
      WholeList(names);
      SomethingSealed(names, |names|, d0, key);
      MemberOf(names, d0, t1, c, key, i - |ForgetTrace(s.disk)| - 1);
      LostKey(names, d, c, key);
    } else {
      ChangeKeepsFiles(names, s, key, c, i);
      SavedIsRecoverable(names, d, c, key);
      RecoverableRestores(names, d, c);
    }
  }

  /** An unlocked service over one plaintext file, without a key store. */
  function OneFile(f: string, content: string, key: Key): Service {
    Service(Disk(map[f := Pair(Some(content), None)], {}, Some(key), None, false), Some(key), true, Some(key))
  }

  /** One plaintext file and no key store: a crash after the first operation of a change loses it. */
  lemma OneFileLost(f: string, content: string, oldKey: Key, newKey: Key)
    requires oldKey != newKey
    ensures var s := OneFile(f, content, oldKey);
            var c := map[f := content];
            && Sane([f], s, c) && |ChangeTo([f], s, newKey).trace| >= 1
            && !Restores([f], After(s.disk, ChangeTo([f], s, newKey).trace, 1), c)
  {
    var s := OneFile(f, content, oldKey);
    OneFileSealed(f, s.disk, newKey);
    CrashDuringChange([f], s, newKey, map[f := content], 1);
    hide Restores;
  }

  lemma OneFileSealed(f: string, d: Disk, key: Key)
    requires d.File(f).base.Some?
    ensures EncryptTrace([f], d, key) == EncryptFile(d, f, key) && |EncryptTrace([f], d, key)| == 4
  {
    assert [f][..0] == [] && [f][..1] == [f];
    assert EncryptTrace([f][..0], d, key) == [];
  }

  lemma MemberOf(names: seq<string>, d: Disk, trace: seq<Disk>, c: Contents, key: Key, i: nat)
    requires AllSealedOrPlain(names, d, trace, c, key) && i < |trace|
    ensures SealedOrPlain(names, trace[i], c, key) && trace[i].auth == d.auth
    ensures trace[i].hasStore == d.hasStore && trace[i].remembered == d.remembered
  {
  }

  lemma SavedIsRecoverable(names: seq<string>, d: Disk, c: Contents, key: Key)
    requires SealedOrPlain(names, d, c, key) && d.auth == Some(key)
    ensures Recoverable(names, d, c)
  {
  }

  /** Which part of the change the disk after i operations belongs to. */
  lemma ChangeAt(names: seq<string>, s: Service, key: Key, i: nat)
    requires i <= |ChangeTo(names, s, key).trace|
    ensures var t0 := ForgetTrace(s.disk);
            var d0 := Last(s.disk, t0);
            var t1 := EncryptTrace(names, d0, key);
            var d := After(s.disk, ChangeTo(names, s, key).trace, i);
            && (i <= |t0| ==> d == s.disk || d == d0)
            && (|t0| < i <= |t0| + |t1| ==> d == t1[i - |t0| - 1])
            && (i > |t0| + |t1| ==> d.auth == Some(key))
  {
    var t0 := ForgetTrace(s.disk);
    var d0 := Last(s.disk, t0);
    var t1 := EncryptTrace(names, d0, key);
    var d2 := Last(d0, t1).(auth := Some(key));
    DecryptKeepsRecords(names, |names|, d2, key);
    WholeList(names);
    ForgetIsShort(s.disk);
    hide EncryptTrace, DecryptTrace, ForgetTrace;
    var u := DecryptTrace(names, d2, key).trace;
    var trace := t0 + t1 + [d2] + u;
    assert ChangeTo(names, s, key).trace == trace;
    var k := |t0| + |t1|;
    if i > k + 1 {
      assert trace[i - 1] == u[i - k - 2];
    } else if i == k + 1 {
      assert trace[i - 1] == d2;
    } else if i > |t0| {
      assert trace[i - 1] == t1[i - |t0| - 1];
    } else if i > 0 {
      assert trace[i - 1] == t0[i - 1];
    }
  }

  lemma ForgetIsShort(d: Disk)
    ensures |ForgetTrace(d)| <= 1
  {
  }

  ghost predicate AllSameRecords(d: Disk, trace: seq<Disk>) {
    forall i :: 0 <= i < |trace| ==> SameRecords(d, trace[i])
  }

  lemma DecryptFileRecords(d: Disk, e: Disk, f: string, key: Key)
    requires SameRecords(d, e)
    ensures AllSameRecords(d, DecryptFile(e, f, key).trace)
  {
  }

  lemma {:induction false} DecryptKeepsRecords(names: seq<string>, n: nat, d: Disk, key: Key)
    requires n <= |names|
    ensures AllSameRecords(d, DecryptTrace(names[..n], d, key).trace)
  {
    if n > 0 {
      DecryptKeepsRecords(names, n - 1, d, key);
      assert names[..n][..n - 1] == names[..n - 1];
      var t := DecryptTrace(names[..n - 1], d, key);
      DecryptFileRecords(d, Last(d, t.trace), names[n - 1], key);
      hide DecryptFile;
    }
  }

  /** A crash during a change that is being undone: the files can be restored exactly when no file has been sealed
      yet or the undoing has ended. */
  lemma CrashDuringAbort(names: seq<string>, s: Service, key: Key, n: nat, c: Contents, i: nat)
    requires Distinct(names) && n <= |names| && Plain(names, s.disk, c) && s.disk.auth.Some? && s.disk.auth.value != key
    requires i <= |ChangeAborted(names, s, key, n).trace|
    ensures Restores(names, After(s.disk, ChangeAborted(names, s, key, n).trace, i), c)
      <==> i <= |ForgetTrace(s.disk)| || i == |ChangeAborted(names, s, key, n).trace|
  {
    hide *;
    AbortParts(names, s, key, n, c);
    AbortAt(names, s, key, n, i);
    AbortedChangeIsUndone(names, s, key, n, c);
    var d := After(s.disk, ChangeAborted(names, s, key, n).trace, i);
    var d0 := Last(s.disk, ForgetTrace(s.disk));
    var t1 := EncryptTrace(names[..n], d0, key);
    var u := DecryptTrace(names, Last(d0, t1), key).trace;
    var k := |ForgetTrace(s.disk)| + |t1|;
    if i <= |ForgetTrace(s.disk)| || i == |ChangeAborted(names, s, key, n).trace| {
      PlainIsRecoverable(names, d, c);
      RecoverableRestores(names, d, c);
    } else if i <= k {
      SomethingSealed(names, n, d0, key);
      MemberOf(names, d0, t1, c, key, i - |ForgetTrace(s.disk)| - 1);
      LostKey(names, d, c, key);
    } else {
      WholeList(names);
      SealedUntilTheEnd(names, |names|, Last(d0, t1), key);
      MemberOf(names, Last(d0, t1), u, c, key, i - k - 1);
      LostKey(names, d, c, key);
    }
  }

  lemma AbortParts(names: seq<string>, s: Service, key: Key, n: nat, c: Contents)
    requires Distinct(names) && n <= |names| && Plain(names, s.disk, c)
    ensures var d0 := Last(s.disk, ForgetTrace(s.disk));
            var t1 := EncryptTrace(names[..n], d0, key);
            var d1 := Last(d0, t1);
            && Plain(names, d0, c) && d0.auth == s.disk.auth && (d0.hasStore ==> d0.remembered == None)
            && d1.auth == d0.auth && d1.remembered == d0.remembered && d1.hasStore == d0.hasStore
            && AllSealedOrPlain(names, d0, t1, c, key)
            && AllSealedOrPlain(names, d1, DecryptTrace(names, d1, key).trace, c, key)
  {
    WholeList(names);
    var d0 := Last(s.disk, ForgetTrace(s.disk));
    RecordsDoNotMatter(names, s.disk, d0, c);
    EncryptKeeps(names, n, d0, c, key);
    var d1 := Last(d0, EncryptTrace(names[..n], d0, key));
    PartlySealed(names, n, d0, d1, c, key);
    DecryptRestores(names, |names|, d1, c, key);
    hide EncryptTrace, DecryptTrace, Plain, AllSealedOrPlain;
  }

  /** Which part of an undone change the disk after i operations belongs to. */
  lemma AbortAt(names: seq<string>, s: Service, key: Key, n: nat, i: nat)
    requires n <= |names| && i <= |ChangeAborted(names, s, key, n).trace|
    ensures var t0 := ForgetTrace(s.disk);
            var d0 := Last(s.disk, t0);
            var t1 := EncryptTrace(names[..n], d0, key);
            var u := DecryptTrace(names, Last(d0, t1), key).trace;
            var d := After(s.disk, ChangeAborted(names, s, key, n).trace, i);
            && |ChangeAborted(names, s, key, n).trace| == |t0| + |t1| + |u|
            && (i <= |t0| ==> d == s.disk || d == d0)
            && (|t0| < i <= |t0| + |t1| ==> d == t1[i - |t0| - 1])
            && (i > |t0| + |t1| ==> d == u[i - |t0| - |t1| - 1])
            && (i == |ChangeAborted(names, s, key, n).trace| ==> d == ChangeAborted(names, s, key, n).end.disk)
  {
    ForgetIsShort(s.disk);
    hide EncryptTrace, DecryptTrace, ForgetTrace;
  }

  // ---- a hash whose permissions cannot be set --------------------------------------------------

  /** The new hash is on disk, the old one in memory, and the files are plaintext. */
  lemma ChangeDivides(names: seq<string>, s: Service, key: Key, c: Contents)
    requires Distinct(names) && Sane(names, s, c) && s.unlocked && s.auth.Some?
    ensures var r := ChangeDivided(names, s, key);
            && r.error.WriteFailed? && r.trace == ChangeTo(names, s, key).trace && Sane(names, r.end, c)
            && r.end == s.(disk := r.end.disk) && r.end.disk.auth == Some(key)
            && (r.end.disk.hasStore ==> r.end.disk.remembered.None?)
  {
    ChangeCompletes(names, s, key, c);
    ChangeForgets(names, s, key);
    hide ChangeTo, Plain, SealedOrPlain;
  }

  lemma ChangeForgets(names: seq<string>, s: Service, key: Key)
    ensures var d := ChangeTo(names, s, key).end.disk; d.hasStore ==> d.remembered.None?
  {
    WholeList(names);
    var d0 := Last(s.disk, ForgetTrace(s.disk));
    var d1 := Last(d0, EncryptTrace(names, d0, key));
    EncryptKeepsRecords(names, |names|, d0, key);
    DecryptKeepsRecords(names, |names|, d1.(auth := Some(key)), key);
    hide EncryptTrace, DecryptTrace;
  }

  lemma {:induction false} EncryptKeepsRecords(names: seq<string>, n: nat, d: Disk, key: Key)
    requires n <= |names|
    ensures SameRecords(d, Last(d, EncryptTrace(names[..n], d, key)))
  {
    if n > 0 {
      EncryptKeepsRecords(names, n - 1, d, key);
      assert names[..n][..n - 1] == names[..n - 1];
    }
  }

  /** A lock after such a change seals the files under the old key while the disk names the new one. A restart then
      restores them with the password on record exactly if there was no file to seal; the same process can still open
      them with the old password, and that brings the old hash back to the disk. */
  lemma LockAfterDivision(names: seq<string>, s: Service, key: Key, failing: Failure, c: Contents)
    requires Distinct(names) && Sane(names, s, c) && s.unlocked && s.encKey.Some? && s.auth != Some(key)
    ensures var r := ChangeDivided(names, s, key).end;
            var l := Lock(names, r, failing).end;
            && Restores(names, r.disk, c)
            && (Restores(names, l.disk, c) <==> forall f :: f in names[..Sealable(names, failing)] ==> f !in c)
            && Opens(names, l, s.auth, c)
  {
    ChangeDivides(names, s, key, c);
    var r := ChangeDivided(names, s, key).end;
    RecoverableRestores(names, r.disk, c);
    hide ChangeDivided, Restores, Opens, Lock;
    DividedLock(names, r, key, failing, c);
    OpensAgain(names, r, failing, c);
  }

  /** unlock with the password in memory succeeds, and puts its record on disk. */
  ghost predicate Opens(names: seq<string>, s: Service, record: Option<Key>, c: Contents) {
    record.Some? &&
    var u := Unlock(names, s, record.value.password);
    u.error.NoError? && Plain(names, u.end.disk, c) && u.end.disk.auth == record
  }

  lemma OpensAgain(names: seq<string>, s: Service, failing: Failure, c: Contents)
    requires Distinct(names) && Sane(names, s, c) && s.unlocked && s.encKey.Some?
    ensures Opens(names, Lock(names, s, failing).end, s.auth, c)
  {
    LockedFiles(names, s, failing, c);
    var l := Lock(names, s, failing).end;
    hide Lock, SealedOrPlain, Plain, Sane, Unlock;
    OpeningSafe(names, l, c);
  }

  /** What a lock leaves, whatever record is on disk. */
  lemma LockedFiles(names: seq<string>, s: Service, failing: Failure, c: Contents)
    requires Distinct(names) && Sane(names, s, c) && s.unlocked && s.encKey.Some?
    ensures var l := Lock(names, s, failing).end;
            && l.auth == s.auth == s.encKey && !l.unlocked && l.disk.auth == s.disk.auth
            && l.disk.hasStore == s.disk.hasStore && (l.disk.hasStore ==> l.disk.remembered.None?)
            && SealedOrPlain(names, l.disk, c, s.encKey.value)
            && (SomeSealed(names, l.disk) <==> !forall f :: f in names[..Sealable(names, failing)] ==> f !in c)
            && (!SomeSealed(names, l.disk) ==> Plain(names, l.disk, c))
  {
    var n := Sealable(names, failing);
    EncryptKeeps(names, n, s.disk, c, s.encKey.value);
    var e := Last(s.disk, EncryptTrace(names[..n], s.disk, s.encKey.value));
    PartlySealed(names, n, s.disk, e, c, s.encKey.value);
    var l := Lock(names, s, failing).end;
    hide EncryptTrace, Last;
    assert forall f :: l.disk.File(f) == e.File(f);
    WhichAreSealed(names, n, s.disk, e, c, s.encKey.value);
  }

  lemma WhichAreSealed(names: seq<string>, n: nat, d: Disk, e: Disk, c: Contents, key: Key)
    requires n <= |names| && Plain(names, d, c) && EncryptedUpTo(names[..n], d, e, c, key)
    ensures SomeSealed(names, e) <==> !forall f :: f in names[..n] ==> f !in c
    ensures !SomeSealed(names, e) ==> Plain(names, e, c)
  {
    assert forall f :: f in names[..n] ==> f in names;
  }

  lemma DividedLock(names: seq<string>, s: Service, key: Key, failing: Failure, c: Contents)
    requires Distinct(names) && Sane(names, s, c) && s.unlocked && s.encKey.Some?
    requires s.disk.auth == Some(key) && s.auth != Some(key)
    ensures Restores(names, Lock(names, s, failing).end.disk, c)
      <==> forall f :: f in names[..Sealable(names, failing)] ==> f !in c
  {
    LockedFiles(names, s, failing, c);
    var d := Lock(names, s, failing).end.disk;
    hide Lock, SealedOrPlain, Plain, Sane, Restores;
    if SomeSealed(names, d) {
      LostKey(names, d, c, s.encKey.value);
    } else {
      PlainIsRecoverable(names, d, c);
      RecoverableRestores(names, d, c);
    }
  }
}
