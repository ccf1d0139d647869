/** What the operations of AuthService answer and to whom: which password or key opens the files, what each call leaves
    on record, and what a refused call leaves alone. */
module AuthAccess {
  import opened Wrappers
  import opened AuthFiles
  import opened AuthOps

  /** The files, their side files and the remembered key are untouched, on every disk of the trace and at the end. */
  ghost predicate FilesKept(d: Disk, r: Done) {
    && SameFiles(d, r.end.disk)
    && forall i :: 0 <= i < |r.trace| ==> SameFiles(d, r.trace[i])
  }

  predicate SameFiles(d: Disk, e: Disk) {
    e.files == d.files && e.sides == d.sides && e.remembered == d.remembered && e.hasStore == d.hasStore
  }

  /** Nothing at all has happened. */
  predicate Untouched(s: Service, r: Done) {
    r.trace == [] && r.end == s
  }

  // ---- unlock ----------------------------------------------------------------------------------

  /** A password other than the one on record opens nothing. */
  lemma WrongPasswordIsRefused(names: seq<string>, s: Service, password: string)
    requires s.auth.Some? && !s.unlocked && password != s.auth.value.password
    ensures var r := Unlock(names, s, password);
            && r.error.InvalidPassword? && !r.end.unlocked && r.end.encKey == s.encKey && r.end.auth == s.auth
            && FilesKept(s.disk, r)
  {
  }

  /** A locked service is opened by the password on record and by no other. It then has the key in memory and in the
      key store, and the record on disk. */
  lemma UnlocksExactly(names: seq<string>, s: Service, password: string, c: Contents)
    requires Distinct(names) && Sane(names, s, c) && !s.unlocked
    ensures s.auth.Some?
    ensures var r := Unlock(names, s, password);
            && (r.end.unlocked <==> password == s.auth.value.password)
            && (r.error.NoError? <==> password == s.auth.value.password)
            && (r.error.InvalidPassword? <==> password != s.auth.value.password)
            && (r.end.unlocked ==>
                  && Plain(names, r.end.disk, c) && r.end.encKey == s.auth && r.end.disk.auth == s.auth
                  && (s.disk.hasStore ==> r.end.disk.remembered == Some(Whole(s.auth.value))))
  {
    if password == s.auth.value.password {
      OpeningSafe(names, s, c);
      OpeningRemembers(names, s);
    } else {
      WrongPasswordIsRefused(names, s, password);
    }
    hide Unlock, Plain;
  }

  lemma OpeningRemembers(names: seq<string>, s: Service)
    requires s.auth.Some? && !s.unlocked
    ensures var r := Unlock(names, s, s.auth.value.password);
            r.error.NoError? && s.disk.hasStore ==> r.end.disk.remembered == Some(Whole(s.auth.value))
  {
    var key := s.auth.value;
    WholeList(names);
    DecryptKeepsRecords(names, |names|, s.disk, key);
    var t := DecryptTrace(names, s.disk, key).trace;
    var saved := Last(s.disk, t).(auth := s.auth);
    hide DecryptTrace;
    var u := t + [saved] + RememberTrace(saved, key);
    assert Last(saved, u) == if saved.hasStore then saved.Remember(key) else saved;
  }

  lemma UnlockNeedsALock(names: seq<string>, s: Service, password: string)
    requires s.auth.None? || s.unlocked
    ensures Untouched(s, Unlock(names, s, password))
    ensures Unlock(names, s, password).error == if s.auth.None? then NotSetup else NoError
  {
  }

  // ---- setupPassword, changePassword, removePassword -------------------------------------------

  /** A password can be set up exactly if there is none and it has four characters; it is then on record, in memory and
      in the key store, and no file has changed. */
  lemma SetupAnswers(s: Service, password: string, salt: string)
    ensures var r, key := Setup(s, password, salt), Key(password, salt);
            && (r.error.AlreadySetup? <==> s.auth.Some?)
            && (r.error.PasswordTooShort? <==> s.auth.None? && |password| < 4)
            && (r.error.NoError? <==> s.auth.None? && |password| >= 4)
            && (!r.error.NoError? ==> Untouched(s, r))
            && (r.error.NoError? ==>
                  && r.end.auth == Some(key) && r.end.disk.auth == Some(key) && r.end.encKey == Some(key)
                  && r.end.unlocked && r.end.disk.files == s.disk.files && r.end.disk.sides == s.disk.sides
                  && (s.disk.hasStore ==> r.end.disk.remembered == Some(Whole(key))))
  {
  }

  /** The checks of changePassword, in their order; a change that is refused leaves everything as it is. */
  lemma ChangeIsGuarded(names: seq<string>, s: Service, oldPassword: string, newPassword: string, salt: string,
                        failing: Failure)
    ensures var r := ChangePassword(names, s, oldPassword, newPassword, salt, failing);
            && (r.error.NotSetup? <==> s.auth.None?)
            && (r.error.NotUnlocked? <==> s.auth.Some? && !s.unlocked)
            && (r.error.InvalidPassword? <==> s.auth.Some? && s.unlocked && oldPassword != s.auth.value.password)
            && (r.error.PasswordTooShort? <==>
                  s.auth.Some? && s.unlocked && oldPassword == s.auth.value.password && |newPassword| < 4)
            && (!Untouched(s, r) ==>
                  s.auth.Some? && s.unlocked && oldPassword == s.auth.value.password && |newPassword| >= 4)
  {
    hide EncryptTrace, DecryptTrace, ForgetTrace;
  }

  /** What an admitted change leaves: the new key everywhere; or, where a sealed copy or the hash could not be written,
      the old one everywhere; or, where only the permissions could not be set, the new one on disk alone. The files are
      plaintext and the session stays open in any case. */
  lemma ChangeAnswers(names: seq<string>, s: Service, newPassword: string, salt: string, failing: Failure, c: Contents)
    requires Distinct(names) && Sane(names, s, c) && s.unlocked && s.auth.Some? && |newPassword| >= 4
    ensures var r := ChangePassword(names, s, s.auth.value.password, newPassword, salt, failing);
            var written := !failing.Saving? && !(failing.Sealing? && failing.n < |names|);
            && r.end.unlocked && Plain(names, r.end.disk, c)
            && (r.error == if written && !failing.Permissions? then NoError else WriteFailed)
            && r.end.disk.auth == (if written then Some(Key(newPassword, salt)) else s.disk.auth)
            && r.end.auth == (if r.error.NoError? then Some(Key(newPassword, salt)) else s.auth)
            && r.end.encKey == (if r.error.NoError? then Some(Key(newPassword, salt)) else s.encKey)
  {
    var key := Key(newPassword, salt);
    ChangeCompletes(names, s, key, c);
    ChangeDivides(names, s, key, c);
    AbortedChangeIsUndone(names, s, key, Sealable(names, failing), c);
    hide ChangeTo, ChangeAborted, ChangeDivided, Plain;
    AbortFails(names, s, key, failing);
  }

  lemma AbortFails(names: seq<string>, s: Service, key: Key, failing: Failure)
    ensures ChangeAborted(names, s, key, Sealable(names, failing)).error == WriteFailed
  {
    hide EncryptTrace, DecryptTrace, ForgetTrace;
  }

  /** removePassword needs an open session and the password on record; a refused call leaves everything as it is. */
  lemma RemoveIsGuarded(names: seq<string>, s: Service, password: string)
    ensures var r := RemovePassword(names, s, password);
            && (r.error.NotSetup? <==> s.auth.None?)
            && (r.error.NotUnlocked? <==> s.auth.Some? && !s.unlocked)
            && (r.error.InvalidPassword? <==> s.auth.Some? && s.unlocked && password != s.auth.value.password)
            && (r.error.NoError? <==> s.auth.Some? && s.unlocked && password == s.auth.value.password)
            && (!r.error.NoError? ==> Untouched(s, r))
            && (r.error.NoError? ==>
                  r.end.unlocked && r.end.auth.None? && r.end.disk.auth.None? && r.end.encKey.None?)
  {
    hide CleanupTrace;
  }

  /** It removes every sealed copy and no plaintext. */
  lemma RemoveCleans(names: seq<string>, s: Service, f: string)
    requires Distinct(names) && s.auth.Some? && s.unlocked
    ensures var r := RemovePassword(names, s, s.auth.value.password);
            r.end.disk.File(f) == if f in names then s.disk.File(f).(enc := None) else s.disk.File(f)
  {
    WholeList(names);
    Cleans(names, |names|, s.disk, f);
    hide CleanupTrace;
  }

  lemma {:induction false} Cleans(names: seq<string>, n: nat, d: Disk, f: string)
    requires Distinct(names) && n <= |names|
    ensures Last(d, CleanupTrace(names[..n], d)).File(f)
      == if f in names[..n] then d.File(f).(enc := None) else d.File(f)
  {
    if n > 0 {
      assert forall g :: g in names[..n] <==> g in names[..n - 1] || g == names[n - 1];
      Cleans(names, n - 1, d, f);
      assert names[..n][..n - 1] == names[..n - 1];
      var t := CleanupTrace(names[..n - 1], d);
      LastOfTwo(d, t, CleanupFile(Last(d, t), names[n - 1]));
      hide Last, Distinct;
      CleansOne(Last(d, t), names[n - 1], f);
    }
  }

  lemma CleansOne(d: Disk, g: string, f: string)
    ensures Last(d, CleanupFile(d, g)).File(f) == if f == g then d.File(f).(enc := None) else d.File(f)
  {
  }

  // ---- lock, suspend, openPlaintextSession -----------------------------------------------------

  /** A session with a key is locked; one without stays open. lock forgets the remembered key, suspend keeps it. */
  lemma LockAnswers(names: seq<string>, s: Service, failing: Failure)
    ensures var l, u := Lock(names, s, failing).end, Suspend(names, s, failing).end;
            && (l.unlocked <==> s.unlocked && s.encKey.None?) && (u.unlocked <==> s.unlocked && s.encKey.None?)
            && (s.unlocked ==> l.encKey.None? && u.encKey.None?)
            && l.auth == s.auth && l.disk.auth == s.disk.auth && u.auth == s.auth && u.disk.auth == s.disk.auth
            && (s.disk.hasStore ==> l.disk.remembered.None?)
            && u.disk.remembered == s.disk.remembered
            && (!s.unlocked || s.encKey.None? ==> Untouched(s, Suspend(names, s, failing)))
  {
    if s.unlocked && s.encKey.Some? {
      EncryptKeepsRecords(names, Sealable(names, failing), s.disk, s.encKey.value);
    }
    hide EncryptTrace;
  }

  /** A locked service opens without a password exactly if no file is sealed; nothing is written in any case. */
  lemma OpenPlaintextAnswers(names: seq<string>, s: Service)
    ensures var r := OpenPlaintext(names, s);
            && (r.error.NotUnlocked? <==> s.auth.Some? && !s.unlocked && SomeSealed(names, s.disk))
            && (!r.error.NotUnlocked? ==> r.error.NoError?)
            && r.trace == [] && r.end == s.(unlocked := !r.error.NotUnlocked?)
  {
    SealedByName(names, s.disk);
    hide HasEncrypted, SomeSealed;
  }

  lemma SealedByName(names: seq<string>, d: Disk)
    ensures HasEncrypted(names, d) <==> SomeSealed(names, d)
  {
    if SomeSealed(names, d) {
      var f :| f in names && d.File(f).enc.Some?;
      var i :| 0 <= i < |names| && names[i] == f;
      assert d.File(names[i]).enc.Some?;
    }
  }

  // ---- starting --------------------------------------------------------------------------------

  /** The files open with a key exactly if every sealed one was sealed under it. */
  ghost predicate AllUnder(names: seq<string>, d: Disk, key: Key) {
    forall f :: f in names && d.File(f).enc.Some? ==> d.File(f).enc.value.key == key
  }

  lemma {:induction false} OpensExactly(names: seq<string>, n: nat, d: Disk, key: Key)
    requires Distinct(names) && n <= |names|
    ensures DecryptTrace(names[..n], d, key).ok <==> AllUnder(names[..n], d, key)
  {
    if n > 0 {
      var f := names[n - 1];
      assert f !in names[..n - 1];
      assert forall g :: g in names[..n] <==> g in names[..n - 1] || g == f;
      OpensExactly(names, n - 1, d, key);
      OpeningLeavesOthers(names, n - 1, d, key, f);
      assert names[..n][..n - 1] == names[..n - 1];
      hide Distinct, Last;
    }
  }

  /** A start after which the session is open without a password: there is none on record, or a remembered key opens
      every sealed file, of which there is one. A remembered key that does not is forgotten. */
  lemma ResumesExactly(names: seq<string>, d: Disk)
    requires Distinct(names)
    ensures var r := Resume(names, d);
            var tried := d.hasStore && SomeSealed(names, d) && d.remembered.Some?;
            && (r.end.unlocked <==>
                  tried && d.remembered.value.Whole? && AllUnder(names, d, d.remembered.value.key))
            && r.end.encKey == (if r.end.unlocked then Some(d.remembered.value.key) else None)
            && r.end.auth == d.auth && r.error.NoError?
            && r.end.disk.remembered == (if tried && !r.end.unlocked then None else d.remembered)
  {
    SealedByName(names, d);
    if d.remembered.Some? && d.remembered.value.Whole? {
      WholeList(names);
      OpensExactly(names, |names|, d, d.remembered.value.key);
      DecryptKeepsRecords(names, |names|, d, d.remembered.value.key);
    }
    hide DecryptTrace, HasEncrypted, SomeSealed, AllUnder;
  }

  /** Recovery keeps one copy of a file that has two: the sealed one if a password is on record, else the plaintext. */
  lemma {:induction false} RecoversEach(names: seq<string>, n: nat, d: Disk, f: string)
    requires Distinct(names) && n <= |names|
    ensures var e := Last(d, RecoverTrace(names[..n], d));
            && e.auth == d.auth
            && e.File(f) == (if f !in names[..n] || d.File(f).base.None? || d.File(f).enc.None? then d.File(f)
                             else if d.auth.Some? then Pair(None, d.File(f).enc) else Pair(d.File(f).base, None))
  {
    if n > 0 {
      assert names[n - 1] !in names[..n - 1];
      assert forall g :: g in names[..n] <==> g in names[..n - 1] || g == names[n - 1];
      RecoversEach(names, n - 1, d, f);
      RecoverNext(names, n - 1, d);
      var e := Last(d, RecoverTrace(names[..n - 1], d));
      hide RecoverTrace, Last, Distinct;
      RecoversOne(e, names[n - 1], f);
      hide RecoverFile;
    }
  }

  lemma RecoversOne(d: Disk, g: string, f: string)
    ensures var e := Last(d, RecoverFile(d, g));
            && e.auth == d.auth
            && e.File(f) == (if f != g || d.File(f).base.None? || d.File(f).enc.None? then d.File(f)
                             else if d.auth.Some? then Pair(None, d.File(f).enc) else Pair(d.File(f).base, None))
  {
  }

  lemma {:induction false} RecoverRecords(names: seq<string>, n: nat, d: Disk)
    requires n <= |names|
    ensures SameRecords(d, Last(d, RecoverTrace(names[..n], d)))
  {
    if n > 0 {
      RecoverRecords(names, n - 1, d);
      RecoverNext(names, n - 1, d);
      RecoverOneRecords(Last(d, RecoverTrace(names[..n - 1], d)), names[n - 1]);
      hide RecoverTrace, RecoverFile, Last;
    }
  }

  lemma RecoverOneRecords(d: Disk, f: string)
    ensures SameRecords(d, Last(d, RecoverFile(d, f)))
  {
  }

  /** A session is open after a start exactly if there is no password on record, or a remembered key opens every
      sealed file, of which there is one. */
  lemma StartsOpenExactly(names: seq<string>, d: Disk)
    requires Distinct(names)
    ensures var r := Start(names, d);
            && (r.end.unlocked <==>
                  || d.auth.None?
                  || (&& d.hasStore && SomeSealed(names, d) && d.remembered.Some? && d.remembered.value.Whole?
                      && AllUnder(names, d, d.remembered.value.key)))
            && r.end.auth == d.auth
            && r.end.encKey == if r.end.unlocked && d.auth.Some? then Some(d.remembered.value.key) else None
  {
    StartParts(names, d);
    WholeList(names);
    RecoverRecords(names, |names|, d);
    var e := Last(d, RecoverTrace(names, d));
    forall f
      ensures d.auth.Some? ==> e.File(f).enc == d.File(f).enc
    {
      RecoversEach(names, |names|, d, f);
    }
    hide RecoverTrace, Start, Last;
    ResumesExactly(names, e);
    hide Resume;
  }
}
