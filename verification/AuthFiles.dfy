/** What AuthService leaves on disk: the config files as plaintext or sealed, the password record and the
    remembered key. Every operation is a list of atomic file operations, and a crash may stop it after any of
    them. */
module AuthFiles {
  import opened Wrappers

  /** The key derived from a password and the salt inside its hash; the hash itself verifies only that password. */
  datatype Key = Key(password: string, salt: string)

  /** Authenticated encryption: a sealed file opens only with the key it was sealed under. */
  datatype SealedFile = SealedFile(key: Key, content: string)

  /** A config file and its ".enc" companion. */
  datatype Pair = Pair(base: Option<string>, enc: Option<SealedFile>)

  /** What the key store holds for this directory: a key, or bytes of another length. */
  datatype StoredKey = Whole(key: Key) | WrongLength

  /** `auth` is auth.json: the stored hash, or None when authentication is not enabled. `sides` names the
      database's side files that exist: a file's name followed by "-wal" or "-shm". */
  datatype Disk = Disk(files: map<string, Pair>, sides: set<string>, auth: Option<Key>, remembered: Option<StoredKey>,
                       hasStore: bool) {
    function File(f: string): Pair {
      if f in files then files[f] else Pair(None, None)
    }

    function Put(f: string, p: Pair): Disk {
      this.(files := files[f := p])
    }

    function DropSide(name: string): Disk {
      this.(sides := sides - {name})
    }

    function Remember(k: Key): Disk {
      if hasStore then this.(remembered := Some(Whole(k))) else this
    }

    function Forget(): Disk {
      if hasStore then this.(remembered := None) else this
    }
  }

  /** The disk after the last of the operations, each recorded by the disk it leaves. */
  function Last(d: Disk, trace: seq<Disk>): Disk {
    if trace == [] then d else trace[|trace| - 1]
  }

  // ---- the three file loops --------------------------------------------------------------------

  /** Remove the two side files of a file, present or not. */
  function Sweep(d: Disk, f: string): (t: seq<Disk>)
    ensures |t| == 2 && forall i :: 0 <= i < 2 ==> t[i].files == d.files && SameRecords(d, t[i])
  {
    [d.DropSide(f + "-wal"), d.DropSide(f + "-wal").DropSide(f + "-shm")]
  }

  /** Write the sealed copy, then remove the plaintext and its side files. */
  function EncryptFile(d: Disk, f: string, key: Key): seq<Disk> {
    match d.File(f).base
    case None => []
    case Some(c) =>
      var written := d.Put(f, Pair(Some(c), Some(SealedFile(key, c))));
      var removed := written.Put(f, Pair(None, Some(SealedFile(key, c))));
      [written, removed] + Sweep(removed, f)
  }

  function EncryptTrace(names: seq<string>, d: Disk, key: Key): seq<Disk> {
    if names == [] then []
    else
      var n := |names| - 1;
      var t := EncryptTrace(names[..n], d, key);
      t + EncryptFile(Last(d, t), names[n], key)
  }

  lemma LastOfTwo(d: Disk, t: seq<Disk>, u: seq<Disk>)
    ensures Last(Last(d, t), u) == Last(d, t + u)
  {
  }

  lemma EncryptNext(names: seq<string>, i: nat, d: Disk, key: Key)
    requires i < |names|
    ensures var t := EncryptTrace(names[..i], d, key);
            var u := EncryptFile(Last(d, t), names[i], key);
            && EncryptTrace(names[..i + 1], d, key) == t + u
            && Last(d, EncryptTrace(names[..i + 1], d, key)) == Last(Last(d, t), u)
  {
    hide EncryptFile;
    assert names[..i + 1][..i] == names[..i];
  }

  /** A trace, and whether it reached its end without an error. */
  datatype Tried = Tried(trace: seq<Disk>, ok: bool)

  /** Open the sealed copy, write the plaintext, then remove the sealed copy. */
  function DecryptFile(d: Disk, f: string, key: Key): Tried {
    match d.File(f).enc
    case None => Tried([], true)
    case Some(s) =>
      if s.key != key then Tried([], false)
      else
        var written := d.Put(f, Pair(Some(s.content), Some(s)));
        Tried([written, written.Put(f, Pair(Some(s.content), None))], true)
  }

  function DecryptTrace(names: seq<string>, d: Disk, key: Key): Tried {
    if names == [] then Tried([], true)
    else
      var n := |names| - 1;
      var t := DecryptTrace(names[..n], d, key);
      if !t.ok then t
      else
        var u := DecryptFile(Last(d, t.trace), names[n], key);
        Tried(t.trace + u.trace, u.ok)
  }

  /** Where both copies exist: with a password the sealed one is kept, otherwise the plaintext. */
  function RecoverFile(d: Disk, f: string): seq<Disk> {
    var p := d.File(f);
    if p.base.None? || p.enc.None? then []
    else if d.auth.Some? then [d.Put(f, p.(base := None))] + Sweep(d.Put(f, p.(base := None)), f)
    else [d.Put(f, p.(enc := None))]
  }

  function RecoverTrace(names: seq<string>, d: Disk): seq<Disk> {
    if names == [] then []
    else
      var n := |names| - 1;
      var t := RecoverTrace(names[..n], d);
      t + RecoverFile(Last(d, t), names[n])
  }

  lemma RecoverNext(names: seq<string>, i: nat, d: Disk)
    requires i < |names|
    ensures var t := RecoverTrace(names[..i], d);
            var u := RecoverFile(Last(d, t), names[i]);
            && RecoverTrace(names[..i + 1], d) == t + u
            && Last(d, RecoverTrace(names[..i + 1], d)) == Last(Last(d, t), u)
  {
    hide RecoverFile;
    assert names[..i + 1][..i] == names[..i];
  }

  // ---- what must survive -----------------------------------------------------------------------

  /** The latest contents of each file that exists. */
  type Contents = map<string, string>

  function Latest(c: Contents, f: string): Option<string> {
    if f in c then Some(c[f]) else None
  }

  /** A sealed copy, if there is one, holds the latest contents under this key; otherwise the plaintext does. */
  predicate FileOk(p: Pair, latest: Option<string>, key: Key) {
    match p.enc
    case Some(s) => s.key == key && latest == Some(s.content)
    case None => p.base == latest
  }

  ghost predicate SealedOrPlain(names: seq<string>, d: Disk, c: Contents, key: Key) {
    forall f :: f in names ==> FileOk(d.File(f), Latest(c, f), key)
  }

  ghost predicate Plain(names: seq<string>, d: Disk, c: Contents) {
    forall f :: f in names ==> d.File(f) == Pair(Latest(c, f), None)
  }

  /** The latest contents can be restored with the password on record. */
  ghost predicate Recoverable(names: seq<string>, d: Disk, c: Contents) {
    match d.auth
    case Some(key) => SealedOrPlain(names, d, c, key)
    case None => Plain(names, d, c)
  }

  ghost predicate AllRecoverable(names: seq<string>, trace: seq<Disk>, c: Contents) {
    forall i :: 0 <= i < |trace| ==> Recoverable(names, trace[i], c)
  }

  /** Everything but the files is as before. */
  predicate SameRecords(d: Disk, e: Disk) {
    d.auth == e.auth && d.remembered == e.remembered && d.hasStore == e.hasStore
  }

  lemma PlainIsRecoverable(names: seq<string>, d: Disk, c: Contents)
    requires Plain(names, d, c)
    ensures Recoverable(names, d, c) && forall key :: SealedOrPlain(names, d, c, key)
  {
  }

  // ---- encryption ------------------------------------------------------------------------------

  /** Files in `names` are sealed or absent, the others as before. */
  ghost predicate EncryptedUpTo(names: seq<string>, d: Disk, e: Disk, c: Contents, key: Key) {
    && SameRecords(d, e)
    && (forall f :: f !in names ==> e.File(f) == d.File(f))
    && (forall f :: f in names ==> FileOk(e.File(f), Latest(c, f), key) && e.File(f).base == None)
  }

  ghost predicate AllSealedOrPlain(names: seq<string>, d: Disk, trace: seq<Disk>, c: Contents, key: Key) {
    forall i :: 0 <= i < |trace| ==> SealedOrPlain(names, trace[i], c, key) && SameRecords(d, trace[i])
  }

  ghost predicate Distinct(names: seq<string>) {
    forall i, j :: 0 <= i < j < |names| ==> names[i] != names[j]
  }

  /** Sealing plaintext files under any key keeps each of them as plaintext or sealed under that key. */
  lemma {:induction false} EncryptKeeps(names: seq<string>, n: nat, d: Disk, c: Contents, key: Key)
    requires Distinct(names) && n <= |names| && Plain(names, d, c)
    ensures var t := EncryptTrace(names[..n], d, key);
            && AllSealedOrPlain(names, d, t, c, key)
            && EncryptedUpTo(names[..n], d, Last(d, t), c, key)
  {
    if n > 0 {
      hide EncryptFile, EncryptTrace, AllSealedOrPlain, EncryptedUpTo, Plain, Distinct, Last;
      EncryptKeeps(names, n - 1, d, c, key);
      EncryptNext(names, n - 1, d, key);
      var t := EncryptTrace(names[..n - 1], d, key);
      var u := EncryptFile(Last(d, t), names[n - 1], key);
      EncryptOne(names, n, d, Last(d, t), c, key);
      Joined(names, d, t, u, c, key);
    }
  }

  lemma Joined(names: seq<string>, d: Disk, t: seq<Disk>, u: seq<Disk>, c: Contents, key: Key)
    requires AllSealedOrPlain(names, d, t, c, key) && AllSealedOrPlain(names, d, u, c, key)
    ensures AllSealedOrPlain(names, d, t + u, c, key)
  {
    hide SealedOrPlain;
  }

  lemma EncryptOne(names: seq<string>, n: nat, d: Disk, e: Disk, c: Contents, key: Key)
    requires Distinct(names) && 0 < n <= |names| && Plain(names, d, c)
    requires EncryptedUpTo(names[..n - 1], d, e, c, key)
    ensures var u := EncryptFile(e, names[n - 1], key);
            && AllSealedOrPlain(names, d, u, c, key)
            && EncryptedUpTo(names[..n], d, Last(e, u), c, key)
  {
    var f := names[n - 1];
    assert f !in names[..n - 1];
    assert forall g :: g in names[..n] <==> g in names[..n - 1] || g == f;
    assert e.File(f) == Pair(Latest(c, f), None);
    hide Distinct, Sweep;
  }

  // ---- decryption ------------------------------------------------------------------------------

  ghost predicate DecryptedUpTo(names: seq<string>, d: Disk, e: Disk, c: Contents) {
    && SameRecords(d, e)
    && (forall f :: f !in names ==> e.File(f) == d.File(f))
    && Plain(names, e, c)
  }

  /** Opening with the right key restores every file, and at no point is one lost. */
  lemma {:induction false} DecryptRestores(names: seq<string>, n: nat, d: Disk, c: Contents, key: Key)
    requires Distinct(names) && n <= |names| && SealedOrPlain(names, d, c, key)
    ensures var t := DecryptTrace(names[..n], d, key);
            && t.ok && AllSealedOrPlain(names, d, t.trace, c, key)
            && DecryptedUpTo(names[..n], d, Last(d, t.trace), c)
  {
    if n > 0 {
      DecryptRestores(names, n - 1, d, c, key);
      assert names[..n][..n - 1] == names[..n - 1];
      var t := DecryptTrace(names[..n - 1], d, key);
      DecryptOne(names, n, d, Last(d, t.trace), c, key);
      hide DecryptFile, SealedOrPlain, DecryptedUpTo;
    }
  }

  lemma DecryptOne(names: seq<string>, n: nat, d: Disk, e: Disk, c: Contents, key: Key)
    requires Distinct(names) && 0 < n <= |names| && SealedOrPlain(names, d, c, key)
    requires DecryptedUpTo(names[..n - 1], d, e, c)
    ensures var u := DecryptFile(e, names[n - 1], key);
            && u.ok && AllSealedOrPlain(names, d, u.trace, c, key)
            && DecryptedUpTo(names[..n], d, Last(e, u.trace), c)
  {
    var f := names[n - 1];
    assert f !in names[..n - 1];
    assert forall g :: g in names[..n] <==> g in names[..n - 1] || g == f;
    assert e.File(f) == d.File(f);
  }

  /** With any other key nothing is written: the first sealed file already fails. */
  lemma {:induction false} WrongKeyChangesNothing(names: seq<string>, n: nat, d: Disk, c: Contents, key: Key,
                                                  other: Key)
    requires n <= |names| && SealedOrPlain(names, d, c, key) && other != key
    ensures var t := DecryptTrace(names[..n], d, other);
            t.trace == [] && (t.ok <==> forall f :: f in names[..n] ==> d.File(f).enc.None?)
  {
    if n > 0 {
      WrongKeyChangesNothing(names, n - 1, d, c, key, other);
      assert names[..n][..n - 1] == names[..n - 1];
      assert forall g :: g in names[..n] <==> g in names[..n - 1] || g == names[n - 1];
    }
  }

  // ---- recovery --------------------------------------------------------------------------------

  /** With a password on record, each file is plaintext or sealed under `key`; without, it is plaintext. */
  ghost predicate Holds(names: seq<string>, d: Disk, c: Contents, key: Key) {
    if d.auth.Some? then SealedOrPlain(names, d, c, key) else Plain(names, d, c)
  }

  ghost predicate AllHold(names: seq<string>, trace: seq<Disk>, c: Contents, key: Key) {
    forall i :: 0 <= i < |trace| ==> Holds(names, trace[i], c, key)
  }

  ghost predicate RecoveredUpTo(names: seq<string>, all: seq<string>, d: Disk, e: Disk, c: Contents, key: Key) {
    && SameRecords(d, e) && Holds(all, e, c, key)
    && (forall f :: f !in names ==> e.File(f) == d.File(f))
    && (forall f :: f in names ==> e.File(f).enc == d.File(f).enc && (e.File(f).enc.Some? ==> e.File(f).base == None))
  }

  /** recoverFromCrash drops only copies that are not needed. */
  lemma {:induction false} RecoverKeeps(names: seq<string>, n: nat, d: Disk, c: Contents, key: Key)
    requires Distinct(names) && n <= |names| && Holds(names, d, c, key)
    ensures var t := RecoverTrace(names[..n], d);
            && AllHold(names, t, c, key) && RecoveredUpTo(names[..n], names, d, Last(d, t), c, key)
            && forall i :: 0 <= i < |t| ==> SameRecords(d, t[i])
  {
    if n > 0 {
      RecoverKeeps(names, n - 1, d, c, key);
      assert names[..n][..n - 1] == names[..n - 1];
      var t := RecoverTrace(names[..n - 1], d);
      RecoverOne(names, n, d, Last(d, t), c, key);
      hide RecoverFile, Holds, RecoveredUpTo;
    }
  }

  lemma RecoverOne(names: seq<string>, n: nat, d: Disk, e: Disk, c: Contents, key: Key)
    requires Distinct(names) && 0 < n <= |names|
    requires RecoveredUpTo(names[..n - 1], names, d, e, c, key)
    ensures var u := RecoverFile(e, names[n - 1]);
            && AllHold(names, u, c, key) && RecoveredUpTo(names[..n], names, d, Last(e, u), c, key)
            && forall i :: 0 <= i < |u| ==> SameRecords(d, u[i])
  {
    var f := names[n - 1];
    assert f !in names[..n - 1];
    assert forall g :: g in names[..n] <==> g in names[..n - 1] || g == f;
  }

  ghost predicate SomeSealed(names: seq<string>, d: Disk) {
    exists f :: f in names && d.File(f).enc.Some?
  }

  /** From the first sealed file on, some file is sealed. */
  lemma {:induction false} SomethingSealed(names: seq<string>, n: nat, d: Disk, key: Key)
    requires Distinct(names) && n <= |names|
    ensures var t := EncryptTrace(names[..n], d, key);
            && (t != [] ==> SomeSealed(names[..n], Last(d, t)))
            && forall i :: 0 <= i < |t| ==> SomeSealed(names, t[i])
  {
    if n > 0 {
      hide EncryptFile, SomeSealed, Distinct;
      SomethingSealed(names, n - 1, d, key);
      assert names[..n][..n - 1] == names[..n - 1];
      var t := EncryptTrace(names[..n - 1], d, key);
      SealingOne(names, n, d, Last(d, t), key, t != []);
    }
  }

  lemma SealingOne(names: seq<string>, n: nat, d: Disk, e: Disk, key: Key, before: bool)
    requires Distinct(names) && 0 < n <= |names|
    requires before ==> SomeSealed(names[..n - 1], e)
    ensures var u := EncryptFile(e, names[n - 1], key);
            && (before || u != [] ==> SomeSealed(names[..n], Last(e, u)))
            && forall i :: 0 <= i < |u| ==> SomeSealed(names, u[i])
  {
    var f := names[n - 1];
    var u := EncryptFile(e, f, key);
    assert f in names && f in names[..n] && f !in names[..n - 1];
    if u != [] {
      assert forall i :: 0 <= i < |u| ==> u[i].File(f).enc.Some?;
    } else if before {
      var g :| g in names[..n - 1] && e.File(g).enc.Some?;
      assert g in names[..n];
    }
  }

  /** Opening the first files leaves a file that comes later as it is. */
  lemma {:induction false} OpeningLeavesOthers(names: seq<string>, n: nat, d: Disk, key: Key, f: string)
    requires n <= |names| && f !in names[..n]
    ensures var t := DecryptTrace(names[..n], d, key).trace;
            && Last(d, t).File(f) == d.File(f)
            && forall i :: 0 <= i < |t| ==> t[i].File(f) == d.File(f)
  {
    if n > 0 {
      assert names[n - 1] in names[..n];
      assert forall g :: g in names[..n - 1] ==> g in names[..n];
      OpeningLeavesOthers(names, n - 1, d, key, f);
      assert names[..n][..n - 1] == names[..n - 1];
      OpeningOneLeaves(Last(d, DecryptTrace(names[..n - 1], d, key).trace), names[n - 1], key, f);
      hide DecryptFile;
    }
  }

  lemma OpeningOneLeaves(d: Disk, g: string, key: Key, f: string)
    requires f != g
    ensures var u := DecryptFile(d, g, key).trace;
            Last(d, u).File(f) == d.File(f) && forall i :: 0 <= i < |u| ==> u[i].File(f) == d.File(f)
  {
  }

  /** Until the very last operation of opening, some file is still sealed. */
  lemma {:induction false} SealedUntilTheEnd(names: seq<string>, n: nat, d: Disk, key: Key)
    requires Distinct(names) && n <= |names|
    ensures var t := DecryptTrace(names[..n], d, key).trace; forall i :: 0 <= i < |t| - 1 ==> SomeSealed(names, t[i])
  {
    if n > 0 {
      var f := names[n - 1];
      assert names[..n][..n - 1] == names[..n - 1] && f !in names[..n - 1];
      SealedUntilTheEnd(names, n - 1, d, key);
      OpeningLeavesOthers(names, n - 1, d, key, f);
      var t := DecryptTrace(names[..n - 1], d, key);
      LastOpened(names, t.trace, d, Last(d, t.trace), f, key);
      hide DecryptFile, SomeSealed;
    }
  }

  lemma LastOpened(names: seq<string>, t: seq<Disk>, d: Disk, e: Disk, f: string, key: Key)
    requires f in names && e.File(f) == d.File(f) && forall i :: 0 <= i < |t| ==> t[i].File(f) == d.File(f)
    requires forall i :: 0 <= i < |t| - 1 ==> SomeSealed(names, t[i])
    ensures var u := DecryptFile(e, f, key).trace; forall i :: 0 <= i < |t + u| - 1 ==> SomeSealed(names, (t + u)[i])
  {
  }

  // ---- side files ------------------------------------------------------------------------------

  lemma EncryptSides(d: Disk, f: string, key: Key)
    ensures var u := Last(d, EncryptFile(d, f, key)).sides;
            u <= d.sides && (d.File(f).base.Some? ==> f + "-wal" !in u && f + "-shm" !in u)
  {
  }

  /** After sealing, no side file of a sealed file is left. */
  lemma {:induction false} SealingSweeps(names: seq<string>, n: nat, d: Disk, c: Contents, key: Key)
    requires Distinct(names) && n <= |names| && Plain(names, d, c)
    ensures Swept(names[..n], d, Last(d, EncryptTrace(names[..n], d, key)))
  {
    if n > 0 {
      hide EncryptFile, Plain, AllSealedOrPlain, FileOk, Distinct, Swept, EncryptedUpTo;
      SealingSweeps(names, n - 1, d, c, key);
      EncryptKeeps(names, n - 1, d, c, key);
      assert names[..n][..n - 1] == names[..n - 1];
      var t := EncryptTrace(names[..n - 1], d, key);
      assert Last(d, EncryptTrace(names[..n], d, key)) == Last(Last(d, t), EncryptFile(Last(d, t), names[n - 1], key));
      SweepOne(names, n, d, Last(d, t), c, key);
    }
  }

  /** No side file of those of `names` that have a plaintext on d. */
  ghost predicate Swept(names: seq<string>, d: Disk, e: Disk) {
    && e.sides <= d.sides
    && forall f :: f in names && d.File(f).base.Some? ==> f + "-wal" !in e.sides && f + "-shm" !in e.sides
  }

  lemma SweepOne(names: seq<string>, n: nat, d: Disk, e: Disk, c: Contents, key: Key)
    requires Distinct(names) && 0 < n <= |names| && Swept(names[..n - 1], d, e)
    requires EncryptedUpTo(names[..n - 1], d, e, c, key)
    ensures Swept(names[..n], d, Last(e, EncryptFile(e, names[n - 1], key)))
  {
    hide EncryptFile, FileOk;
    var f := names[n - 1];
    assert f !in names[..n - 1];
    assert forall g :: g in names[..n] <==> g in names[..n - 1] || g == f;
    EncryptSides(e, f, key);
  }

  /** The files whose side files recovery removes. */
  predicate RecoverySweeps(d: Disk, f: string) {
    d.auth.Some? && d.File(f).base.Some? && d.File(f).enc.Some?
  }

  /** Recovery leaves a side file exactly if it does not drop the file's plaintext in the same go. */
  lemma {:induction false} OrphanStays(names: seq<string>, n: nat, d: Disk, f: string, suffix: string)
    requires Distinct(names) && n <= |names| && suffix in ["-wal", "-shm"]
    ensures var e := Last(d, RecoverTrace(names[..n], d));
            && e.auth == d.auth && (f !in names[..n] ==> e.File(f) == d.File(f))
            && (f + suffix in e.sides <==> f + suffix in d.sides && !(f in names[..n] && RecoverySweeps(d, f)))
  {
    if n > 0 {
      var g := names[n - 1];
      assert g !in names[..n - 1];
      assert forall h :: h in names[..n] <==> h in names[..n - 1] || h == g;
      OrphanStays(names, n - 1, d, f, suffix);
      RecoverNext(names, n - 1, d);
      RecoverOneSides(Last(d, RecoverTrace(names[..n - 1], d)), g, f, suffix);
      hide RecoverFile, RecoverTrace, Last, Distinct;
    }
  }

  lemma RecoverOneSides(d: Disk, g: string, f: string, suffix: string)
    requires suffix in ["-wal", "-shm"]
    ensures var e := Last(d, RecoverFile(d, g));
            && e.auth == d.auth && (f != g ==> e.File(f) == d.File(f))
            && (f + suffix in e.sides <==> f + suffix in d.sides && !(f == g && RecoverySweeps(d, f)))
  {
    if f != g {
      SideNames(f, suffix, g, "-wal");
      SideNames(f, suffix, g, "-shm");
    }
  }

  /** A crash after the plaintext has been removed and before its side files have: recovery leaves them, whenever it
      runs. */
  lemma CrashLeavesOrphan(names: seq<string>, d: Disk, f: string, suffix: string, key: Key)
    requires Distinct(names) && suffix in ["-wal", "-shm"] && d.File(f).base.Some? && f + suffix in d.sides
    ensures |EncryptFile(d, f, key)| == 4
    ensures var e := EncryptFile(d, f, key)[1];
            e.File(f).base.None? && f + suffix in Last(e, RecoverTrace(names, e)).sides
    ensures RecoverySweeps(d, f) ==>
              var e := RecoverFile(d, f)[0];
              e.File(f).base.None? && f + suffix in Last(e, RecoverTrace(names, e)).sides
  {
    assert names[..|names|] == names;
    OrphanStays(names, |names|, EncryptFile(d, f, key)[1], f, suffix);
    if RecoverySweeps(d, f) {
      OrphanStays(names, |names|, RecoverFile(d, f)[0], f, suffix);
    }
  }

  /** The next sealing sweeps it: after opening and sealing again, no file that exists has a side file. */
  lemma NextSealingSweeps(names: seq<string>, d: Disk, c: Contents, key: Key, next: Key, f: string)
    requires Distinct(names) && SealedOrPlain(names, d, c, key) && f in names && f in c
    ensures var e := Last(d, DecryptTrace(names, d, key).trace);
            var s := Last(e, EncryptTrace(names, e, next)).sides;
            f + "-wal" !in s && f + "-shm" !in s
  {
    assert names[..|names|] == names;
    DecryptRestores(names, |names|, d, c, key);
    var e := Last(d, DecryptTrace(names, d, key).trace);
    SealingSweeps(names, |names|, e, c, next);
    hide EncryptTrace, DecryptTrace;
    assert e.File(f) == Pair(Latest(c, f), None);
  }

  lemma SideNames(f: string, a: string, g: string, b: string)
    requires f != g && |a| == |b|
    ensures f + a != g + b
  {
    assert f == (f + a)[..|f|] && g == (g + b)[..|g|];
  }
}
