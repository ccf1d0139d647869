/** What trimming, actions and composed paths come to, read off their results: which part of a text is kept, which of
    the three actions is meant, and which endpoint a path for rclone names. */
module FlowPaths {
  import opened FlowModels

  // ---- trimming --------------------------------------------------------------------------------

  /** s is spaces, the middle, spaces. */
  ghost predicate Around(s: string, i: nat, j: nat) {
    && i <= j <= |s|
    && (forall k :: 0 <= k < i ==> IsSpace(s[k])) && (forall k :: j <= k < |s| ==> IsSpace(s[k]))
  }

  lemma {:induction false} TrimLeftDrops(s: string) returns (i: nat)
    ensures i <= |s| && TrimLeft(s) == s[i..] && forall k :: 0 <= k < i ==> IsSpace(s[k])
  {
    if s != "" && IsSpace(s[0]) {
      var j := TrimLeftDrops(s[1..]);
      i := j + 1;
      assert forall k :: 0 < k < i ==> s[k] == s[1..][k - 1];
    } else {
      i := 0;
    }
  }

  lemma {:induction false} TrimRightDrops(s: string) returns (j: nat)
    ensures j <= |s| && TrimRight(s) == s[..j] && forall k :: j <= k < |s| ==> IsSpace(s[k])
  {
    j := |s|;
    if s != "" && IsSpace(s[|s| - 1]) {
      j := TrimRightDrops(s[..|s| - 1]);
      assert forall k :: j <= k < |s| - 1 ==> s[k] == s[..|s| - 1][k];
    }
  }

  /** Trimming cuts spaces off both ends and nothing else, and leaves none there. */
  lemma TrimKeepsTheMiddle(s: string) returns (i: nat, j: nat)
    ensures Around(s, i, j) && Trim(s) == s[i..j] && Trimmed(Trim(s))
  {
    TrimIsTrimmed(s);
    i := TrimLeftDrops(s);
    var k := TrimRightDrops(TrimLeft(s));
    j := i + k;
    assert forall m :: j <= m < |s| ==> s[m] == TrimLeft(s)[m - i];
  }

  /** The characters that count as spaces, by their code points. */
  lemma SpacesAre(c: char)
    ensures IsSpace(c) <==>
              || c as int in {0x9, 0x20, 0xA0, 0x1680, 0x202F, 0x205F, 0x3000}
              || 0x2000 <= c as int <= 0x200A
  {
  }

  // ---- actions ---------------------------------------------------------------------------------

  /** Only the two other actions are told from push. */
  lemma ActionsTold(a: string)
    ensures NormalizeAction(a) == "bi" <==> Trim(a) == "bi"
    ensures NormalizeAction(a) == "bi-resync" <==> Trim(a) == "bi-resync"
    ensures NormalizeAction(a) == "push" <==> Trim(a) !in ["bi", "bi-resync"]
  {
    ActionsAreTrimmed();
    TrimTwice(a);
    hide Trim;
  }

  /** The action column decides unless it is blank, then the text in sync_config unless that is blank; otherwise the
      action is push. Normalising writes the answer to both places and touches nothing else. */
  lemma ActionResolves(op: Operation)
    ensures var text := if "action" in op.syncConfig && op.syncConfig["action"].Text? then op.syncConfig["action"].text
                        else "";
            var written := if Trim(op.action) != "" then op.action else text;
            var r := ResolvedAction(op);
            && (r == "bi" <==> Trim(written) == "bi") && (r == "bi-resync" <==> Trim(written) == "bi-resync")
            && (r == "push" <==> Trim(written) !in ["bi", "bi-resync"])
            && WithNormalAction(op).action == r
            && WithNormalAction(op).syncConfig == op.syncConfig["action" := Text(r)]
            && WithNormalAction(op).(action := op.action, syncConfig := op.syncConfig) == op
  {
    ActionsTold(op.action);
    ActionsTold(ConfigAction(op));
    EmptyTrims();
    hide Trim, NormalizeAction;
  }

  lemma EmptyTrims()
    ensures Trim("") == ""
  {
  }

  // ---- paths -----------------------------------------------------------------------------------

  /** The root, or the path without the spaces around it. */
  lemma PathNormalised(path: string)
    ensures NormalizePath(path) == "/" <==> Trim(path) == "" || Trim(path) == "/"
    ensures Trim(path) != "" ==> NormalizePath(path) == Trim(path)
  {
    hide Trim;
  }

  /** An endpoint on a remote that rclone can be given: it has a name, not that of the local file system, and the name
      has no colon. */
  predicate OnRemote(remote: string) {
    Trim(remote) != "" && Trim(remote) != "local" && ':' !in Trim(remote)
  }

  /** What is before the first colon of a text and what is after it. */
  ghost predicate SplitsAtColon(s: string, a: string, b: string) {
    ':' !in a && s == a + ":" + b
  }

  lemma SplitOnce(s: string, a: string, b: string, c: string, d: string)
    requires SplitsAtColon(s, a, b) && SplitsAtColon(s, c, d)
    ensures a == c && b == d
  {
    assert s[|a|] == ':' && s[|c|] == ':';
    assert forall i :: 0 <= i < |a| ==> s[i] == a[i] && a[i] in a;
    assert forall i :: 0 <= i < |c| ==> s[i] == c[i] && c[i] in c;
    assert |a| == |c|;
    assert a == s[..|a|] && c == s[..|a|];
    assert b == s[|a| + 1..] && d == s[|a| + 1..];
  }

  /** The composed path of a remote endpoint is its remote, a colon, and its path, where the root is empty; that of any
      local endpoint is its path. */
  lemma ComposedPathIs(remote: string, path: string)
    ensures OnRemote(remote) ==>
              SplitsAtColon(ComposePath(remote, path), Trim(remote),
                            if NormalizePath(path) == "/" then "" else NormalizePath(path))
    ensures Trim(remote) == "" || Trim(remote) == "local" ==> ComposePath(remote, path) == NormalizePath(path)
  {
    PathNormalised(path);
    hide Trim, NormalizePath;
    assert ComposePath(remote, path) == Trim(remote) + ":" ==> ComposePath(remote, path) == Trim(remote) + ":" + "";
  }

  /** The same remote and the same path. */
  predicate SameEndpoint(r1: string, p1: string, r2: string, p2: string) {
    Trim(r1) == Trim(r2) && NormalizePath(p1) == NormalizePath(p2)
  }

  /** So two endpoints on remotes get the same path exactly if they are the same endpoint. */
  lemma PathTellsEndpoint(r1: string, p1: string, r2: string, p2: string)
    requires OnRemote(r1) && OnRemote(r2)
    ensures ComposePath(r1, p1) == ComposePath(r2, p2) <==> SameEndpoint(r1, p1, r2, p2)
  {
    ComposedPathIs(r1, p1);
    ComposedPathIs(r2, p2);
    if ComposePath(r1, p1) == ComposePath(r2, p2) {
      SplitOnce(ComposePath(r1, p1), Trim(r1), if NormalizePath(p1) == "/" then "" else NormalizePath(p1),
                Trim(r2), if NormalizePath(p2) == "/" then "" else NormalizePath(p2));
      NormalizePathTwice(p1);
      NormalizePathTwice(p2);
    } else if SameEndpoint(r1, p1, r2, p2) {
      ComposeDependsOnNormal(r1, p1, r2, p2);
    }
    hide Trim, NormalizePath, ComposePath;
  }
}
