/** Flow operations: actions, paths and the rules that decide what an operation executes. */
module FlowModels {
  /** A value of the untyped sync_config dictionary: text, or anything else. */
  datatype Value = Text(text: string) | Other(id: int)

  datatype Operation = Operation(
    id: string, flowID: string,
    sourceRemote: string, sourcePath: string, targetRemote: string, targetPath: string,
    action: string, syncConfig: map<string, Value>, isExpanded: bool, sortOrder: nat)

  /** The set CharacterSet.whitespaces: space separators and the tab. */
  predicate IsSpace(c: char) {
    || c == ' ' || c == '\t' || c == '\U{A0}' || c == '\U{1680}' || '\U{2000}' <= c <= '\U{200A}'
    || c == '\U{202F}' || c == '\U{205F}' || c == '\U{3000}'
  }

  function TrimLeft(s: string): string {
    if s != "" && IsSpace(s[0]) then TrimLeft(s[1..]) else s
  }

  function TrimRight(s: string): string {
    if s != "" && IsSpace(s[|s| - 1]) then TrimRight(s[..|s| - 1]) else s
  }

  function Trim(s: string): string {
    TrimRight(TrimLeft(s))
  }

  /** No space at either end. */
  predicate Trimmed(s: string) {
    s != "" ==> !IsSpace(s[0]) && !IsSpace(s[|s| - 1])
  }

  lemma {:induction false} TrimLeftStarts(s: string)
    ensures TrimLeft(s) != "" ==> !IsSpace(TrimLeft(s)[0])
  {
    if s != "" && IsSpace(s[0]) {
      TrimLeftStarts(s[1..]);
    }
  }

  lemma {:induction false} TrimRightEnds(s: string)
    ensures TrimRight(s) <= s
    ensures TrimRight(s) != "" ==> !IsSpace(TrimRight(s)[|TrimRight(s)| - 1])
  {
    if s != "" && IsSpace(s[|s| - 1]) {
      TrimRightEnds(s[..|s| - 1]);
    }
  }

  lemma TrimIsTrimmed(s: string)
    ensures Trimmed(Trim(s))
  {
    TrimLeftStarts(s);
    TrimRightEnds(TrimLeft(s));
  }

  lemma TrimmedStays(s: string)
    requires Trimmed(s)
    ensures Trim(s) == s
  {
  }

  lemma TrimTwice(s: string)
    ensures Trim(Trim(s)) == Trim(s)
  {
    TrimIsTrimmed(s);
    TrimmedStays(Trim(s));
  }

  predicate Blank(s: string) {
    Trim(s) == ""
  }

  // ---- actions ---------------------------------------------------------------------------------

  predicate IsValidAction(a: string) {
    Trim(a) in ["push", "bi", "bi-resync"]
  }

  /** FlowAction.normalize */
  function NormalizeAction(a: string): string {
    if IsValidAction(Trim(a)) then Trim(a) else "push"
  }

  function ConfigAction(op: Operation): string {
    if "action" in op.syncConfig && op.syncConfig["action"].Text? then op.syncConfig["action"].text else ""
  }

  function ResolvedAction(op: Operation): string {
    if !Blank(op.action) then NormalizeAction(op.action)
    else if !Blank(ConfigAction(op)) then NormalizeAction(ConfigAction(op))
    else "push"
  }

  /** FlowOperation.normalizeAction */
  function WithNormalAction(op: Operation): Operation {
    var a := ResolvedAction(op);
    op.(action := a, syncConfig := op.syncConfig["action" := Text(a)])
  }

  lemma ActionsAreTrimmed()
    ensures Trim("push") == "push" && Trim("bi") == "bi" && Trim("bi-resync") == "bi-resync"
  {
    TrimmedStays("push");
    TrimmedStays("bi");
    TrimmedStays("bi-resync");
  }

  lemma NormalizeTwice(a: string)
    ensures NormalizeAction(NormalizeAction(a)) == NormalizeAction(a)
    ensures NormalizeAction(a) in ["push", "bi", "bi-resync"] && !Blank(NormalizeAction(a))
  {
    ActionsAreTrimmed();
    TrimTwice(a);
    hide Trim;
  }

  lemma BlankIsPush(a: string)
    requires Blank(a)
    ensures NormalizeAction(a) == "push"
  {
    ActionsAreTrimmed();
    TrimTwice(a);
    hide Trim;
  }

  /** Normalising an operation keeps what it executes, and a second time changes nothing. */
  lemma NormalActionKeeps(op: Operation)
    ensures ResolvedAction(WithNormalAction(op)) == ResolvedAction(op)
    ensures WithNormalAction(WithNormalAction(op)) == WithNormalAction(op)
  {
    ActionsAreTrimmed();
    NormalizeTwice(op.action);
    NormalizeTwice(ConfigAction(op));
    hide Trim;
  }

  // ---- paths -----------------------------------------------------------------------------------

  function NormalizePath(path: string): string {
    if Blank(path) then "/" else Trim(path)
  }

  /** composePath: what rclone is given for an endpoint. */
  function ComposePath(remote: string, path: string): string {
    var p, r := Trim(path), Trim(remote);
    if r == "" || r == "local" then if p == "" then "/" else p
    else if p == "" || p == "/" then r + ":"
    else r + ":" + p
  }

  lemma NormalizePathTwice(path: string)
    ensures NormalizePath(NormalizePath(path)) == NormalizePath(path)
    ensures Trim(NormalizePath(path)) == NormalizePath(path)
    ensures NormalizePath(path) != ""
  {
    TrimTwice(path);
    TrimmedStays("/");
    hide Trim;
  }

  /** An endpoint's path depends only on its trimmed remote and normalised path. */
  lemma ComposeDependsOnNormal(r1: string, p1: string, r2: string, p2: string)
    requires Trim(r1) == Trim(r2) && NormalizePath(p1) == NormalizePath(p2)
    ensures ComposePath(r1, p1) == ComposePath(r2, p2)
  {
    hide Trim;
  }
}
