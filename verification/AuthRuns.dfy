/** Whole runs of AuthService: operations, edits of the unlocked files, restarts, and crashes between any two
    file operations. */
module AuthRuns {
  import opened Wrappers
  import opened AuthFiles
  import opened AuthOps

  datatype Event =
    | StartUp
    | SetUp(password: string, salt: string)
    | UnlockBy(password: string)
    | LockUp(failing: Failure)
    | SuspendIt(failing: Failure)
    | OpenAsPlaintext
    | Change(oldPassword: string, newPassword: string, newSalt: string, failing: Failure)
    | Remove(password: string)
    | Edit(file: string, content: string)

  /** No process, or a running one. */
  datatype State = Off(disk: Disk) | On(service: Service) {
    function OnDisk(): Disk {
      if Off? then disk else service.disk
    }
  }

  /** The state and the contents the files ought to have. */
  datatype Config = Config(state: State, contents: Contents)

  /** The application writes a config file atomically, and only while it is unlocked. */
  function EditFile(s: Service, f: string, content: string): Done {
    var d := s.disk.Put(f, Pair(Some(content), s.disk.File(f).enc));
    Done([d], s.(disk := d), NoError)
  }

  /** A session whose hash could not be given its permissions is not locked: what that costs is LockAfterDivision. */
  ghost predicate Enabled(names: seq<string>, s: State, e: Event) {
    match s
    case Off(_) => e.StartUp?
    case On(service) =>
      && !e.StartUp? && (e.Edit? ==> service.unlocked && e.file in names)
      && (e.LockUp? || e.SuspendIt? ==> Agrees(service))
  }

  function Effect(names: seq<string>, s: State, e: Event): Done
    requires s.Off? <==> e.StartUp?
  {
    match e
    case StartUp => Start(names, s.disk)
    case SetUp(p, salt) => Setup(s.service, p, salt)
    case UnlockBy(p) => Unlock(names, s.service, p)
    case LockUp(failing) => Lock(names, s.service, failing)
    case SuspendIt(failing) => Suspend(names, s.service, failing)
    case OpenAsPlaintext => OpenPlaintext(names, s.service)
    case Change(o, n, salt, failing) => ChangePassword(names, s.service, o, n, salt, failing)
    case Remove(p) => RemovePassword(names, s.service, p)
    case Edit(f, content) => EditFile(s.service, f, content)
  }

  /** The only unsafe moment: between the first sealed file of a password change and the saving of the new hash,
      or the end of the undoing if a write fails before that. */
  ghost predicate SafeCut(names: seq<string>, s: State, e: Event, cut: nat) {
    e.Change? && s.On? ==>
      var forgotten := ForgetTrace(s.service.disk);
      var key := Key(e.newPassword, e.newSalt);
      || cut <= |forgotten|
      || (if Undoes(names, e.failing) then cut == |Effect(names, s, e).trace|
          else cut > |forgotten| + |EncryptTrace(names, Last(s.service.disk, forgotten), key)|)
  }

  /** An event completes, or the process dies after `cut` of its file operations. */
  ghost predicate Completes(names: seq<string>, a: Config, e: Event, b: Config) {
    && Enabled(names, a.state, e)
    && b.state == On(Effect(names, a.state, e).end)
    && b.contents == if e.Edit? then a.contents[e.file := e.content] else a.contents
  }

  ghost predicate Crashes(names: seq<string>, a: Config, e: Event, cut: nat, b: Config) {
    && Enabled(names, a.state, e)
    && cut <= |Effect(names, a.state, e).trace| && SafeCut(names, a.state, e, cut)
    && b.state == Off(After(a.state.OnDisk(), Effect(names, a.state, e).trace, cut))
    && b.contents == if e.Edit? && cut > 0 then a.contents[e.file := e.content] else a.contents
  }

  datatype Fate = Finished | DiesAfter(operations: nat)

  ghost predicate StepBy(names: seq<string>, a: Config, e: Event, fate: Fate, b: Config) {
    match fate
    case Finished => Completes(names, a, e, b)
    case DiesAfter(cut) => Crashes(names, a, e, cut, b)
  }

  ghost predicate Step(names: seq<string>, a: Config, b: Config) {
    exists e, fate :: StepBy(names, a, e, fate, b)
  }

  ghost predicate Run(names: seq<string>, run: seq<Config>) {
    forall i, j :: 0 <= i < j < |run| && j == i + 1 ==> Step(names, run[i], run[j])
  }

  ghost predicate Invariant(names: seq<string>, a: Config) {
    match a.state
    case Off(d) => Recoverable(names, d, a.contents)
    case On(s) => Sane(names, s, a.contents)
  }

  lemma EditSafe(names: seq<string>, s: Service, f: string, content: string, c: Contents)
    requires Sane(names, s, c) && s.unlocked && f in names
    ensures Sane(names, EditFile(s, f, content).end, c[f := content])
  {
    var d := EditFile(s, f, content).end.disk;
    assert forall g :: d.File(g) == if g == f then Pair(Some(content), s.disk.File(f).enc) else s.disk.File(g);
    PlainIsRecoverable(names, d, c[f := content]);
  }

  /** Every event keeps the files recoverable if it completes. */
  lemma EffectSafe(names: seq<string>, a: Config, e: Event)
    requires Distinct(names) && Enabled(names, a.state, e) && Invariant(names, a) && !e.Edit?
    ensures Sane(names, Effect(names, a.state, e).end, a.contents)
    ensures !e.Change? ==> AllRecoverable(names, Effect(names, a.state, e).trace, a.contents)
  {
    hide Sane, Recoverable, Plain, Start, Setup, Unlock, Lock, Suspend, OpenPlaintext, ChangePassword, RemovePassword;
    match e
    case StartUp => StartSafe(names, a.state.disk, a.contents);
    case SetUp(p, salt) => SetupSafe(names, a.state.service, p, salt, a.contents);
    case UnlockBy(p) => UnlockSafe(names, a.state.service, p, a.contents);
    case LockUp(failing) => LockSafe(names, a.state.service, failing, a.contents);
    case SuspendIt(failing) => SuspendSafe(names, a.state.service, failing, a.contents);
    case OpenAsPlaintext => OpenPlaintextSafe(names, a.state.service, a.contents);
    case Change(o, n, salt, failing) => ChangeSafe(names, a.state.service, o, n, salt, failing, a.contents);
    case Remove(p) => RemovePasswordSafe(names, a.state.service, p, a.contents);
  }

  lemma ChangeSafe(names: seq<string>, s: Service, o: string, n: string, salt: string, failing: Failure, c: Contents)
    requires Distinct(names) && Sane(names, s, c)
    ensures Sane(names, ChangePassword(names, s, o, n, salt, failing).end, c)
  {
    if s.unlocked && s.auth.Some? {
      var key := Key(n, salt);
      ChangeCompletes(names, s, key, c);
      ChangeDivides(names, s, key, c);
      AbortedChangeIsUndone(names, s, key, Sealable(names, failing), c);
      PlainIsRecoverable(names, ChangeAborted(names, s, key, Sealable(names, failing)).end.disk, c);
      hide ChangeTo, ChangeAborted, ChangeDivided, Recoverable, Plain;
    }
  }

  /** Nothing is lost by a crash during a change outside its unsafe part. */
  lemma ChangeCutSafe(names: seq<string>, s: Service, o: string, n: string, salt: string, failing: Failure, cut: nat,
                      c: Contents)
    requires Distinct(names) && Sane(names, s, c)
    requires cut <= |ChangePassword(names, s, o, n, salt, failing).trace|
    requires SafeCut(names, On(s), Change(o, n, salt, failing), cut)
    ensures Recoverable(names, After(s.disk, ChangePassword(names, s, o, n, salt, failing).trace, cut), c)
  {
    if cut > 0 && ChangePassword(names, s, o, n, salt, failing).trace != [] {
      hide ChangeTo, ChangeAborted, Plain, Recoverable;
      var key := Key(n, salt);
      if Undoes(names, failing) {
        AbortEnds(names, s, key, Sealable(names, failing), cut, c);
      } else {
        ChangeReached(names, s, key, cut, c);
      }
    }
  }

  lemma ChangeReached(names: seq<string>, s: Service, key: Key, cut: nat, c: Contents)
    requires Distinct(names) && Plain(names, s.disk, c) && Recoverable(names, s.disk, c)
    requires 0 < cut <= |ChangeTo(names, s, key).trace|
    requires var forgotten := ForgetTrace(s.disk);
             cut <= |forgotten| || cut > |forgotten| + |EncryptTrace(names, Last(s.disk, forgotten), key)|
    ensures Recoverable(names, After(s.disk, ChangeTo(names, s, key).trace, cut), c)
  {
    ChangeAt(names, s, key, cut);
    ChangeParts(names, s, key, c);
    ChangeKeepsFiles(names, s, key, c, cut);
    hide EncryptTrace, DecryptTrace, ChangeTo;
    var d0 := Last(s.disk, ForgetTrace(s.disk));
    PlainIsRecoverable(names, d0, c);
    hide Plain, SealedOrPlain;
  }

  lemma AbortEnds(names: seq<string>, s: Service, key: Key, n: nat, cut: nat, c: Contents)
    requires Distinct(names) && n <= |names| && Plain(names, s.disk, c)
    requires cut <= |ForgetTrace(s.disk)| || cut == |ChangeAborted(names, s, key, n).trace|
    requires cut <= |ChangeAborted(names, s, key, n).trace|
    ensures Recoverable(names, After(s.disk, ChangeAborted(names, s, key, n).trace, cut), c)
  {
    AbortedChangeIsUndone(names, s, key, n, c);
    var d0 := Last(s.disk, ForgetTrace(s.disk));
    RecordsDoNotMatter(names, s.disk, d0, c);
    hide EncryptTrace, DecryptTrace, Plain, Recoverable;
    var d := After(s.disk, ChangeAborted(names, s, key, n).trace, cut);
    assert d == s.disk || d == d0 || d == ChangeAborted(names, s, key, n).end.disk;
    hide ChangeAborted;
    PlainIsRecoverable(names, d, c);
  }

  lemma AllRecoverableAt(names: seq<string>, d: Disk, trace: seq<Disk>, c: Contents, cut: nat)
    requires Recoverable(names, d, c) && AllRecoverable(names, trace, c) && cut <= |trace|
    ensures Recoverable(names, After(d, trace, cut), c)
  {
  }

  lemma CompletesKeeps(names: seq<string>, a: Config, e: Event, b: Config)
    requires Distinct(names) && Invariant(names, a) && Completes(names, a, e, b)
    ensures Invariant(names, b)
  {
    hide Sane, Recoverable;
    if e.Edit? {
      EditSafe(names, a.state.service, e.file, e.content, a.contents);
    } else {
      EffectSafe(names, a, e);
    }
  }

  lemma SaneIsRecoverable(names: seq<string>, s: Service, c: Contents)
    requires Sane(names, s, c)
    ensures Recoverable(names, s.disk, c)
  {
  }

  lemma CrashKeeps(names: seq<string>, a: Config, e: Event, cut: nat, b: Config)
    requires Distinct(names) && Invariant(names, a) && Crashes(names, a, e, cut, b)
    ensures Invariant(names, b)
  {
    hide Sane, Recoverable, SafeCut, AllRecoverable;
    hide Start, Setup, Unlock, Lock, Suspend, OpenPlaintext, ChangePassword, RemovePassword;
    if a.state.On? {
      SaneIsRecoverable(names, a.state.service, a.contents);
    }
    if e.Edit? {
      EditSafe(names, a.state.service, e.file, e.content, a.contents);
      SaneIsRecoverable(names, EditFile(a.state.service, e.file, e.content).end, a.contents[e.file := e.content]);
    } else if e.Change? {
      ChangeCutSafe(names, a.state.service, e.oldPassword, e.newPassword, e.newSalt, e.failing, cut, a.contents);
    } else {
      EffectSafe(names, a, e);
      AllRecoverableAt(names, a.state.OnDisk(), Effect(names, a.state, e).trace, a.contents, cut);
    }
  }

  lemma {:induction false} RunKeeps(names: seq<string>, run: seq<Config>, n: nat)
    requires Distinct(names) && Run(names, run) && n < |run| && Invariant(names, run[0])
    ensures Invariant(names, run[n])
  {
    hide Invariant, Completes, Crashes;
    if n > 0 {
      RunKeeps(names, run, n - 1);
      var a, b := run[n - 1], run[n];
      assert Step(names, a, b);
      var e, fate :| StepBy(names, a, e, fate, b);
      match fate
      case Finished => CompletesKeeps(names, a, e, b);
      case DiesAfter(cut) => CrashKeeps(names, a, e, cut, b);
    }
  }

  /** The promise over all runs: from plaintext files without a password, whatever is done, whichever write fails and
      wherever the process dies - except inside the unsafe part of a password change, and without locking a session
      whose hash could not be given its permissions - starting again and unlocking with the password on record
      restores the latest contents of every file. */
  lemma EveryRunRestores(names: seq<string>, run: seq<Config>)
    requires Distinct(names) && Run(names, run) && run != []
    requires run[0].state.Off? && run[0].state.disk.auth.None? && Plain(names, run[0].state.disk, run[0].contents)
    ensures Restores(names, run[|run| - 1].state.OnDisk(), run[|run| - 1].contents)
  {
    RunKeeps(names, run, |run| - 1);
    var last := run[|run| - 1];
    RecoverableRestores(names, last.state.OnDisk(), last.contents);
  }
}
