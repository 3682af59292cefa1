/** The files that Ingress resources are written to: one of its own for an Ingress with a
    host, and the shared default-server file for an Ingress with the empty host. */
module IngressFiles {
  import opened Text

  /** An Ingress, or a master with its minions, and the configuration rendered from it. */
  datatype Ingress = Ingress(emptyHost: bool, content: string)

  /** No Kubernetes name holds an underscore, so no Ingress has this file name. */
  const DEFAULT_SERVER := "_default-server"

  /** What is held in memory and what is on disk. */
  datatype State = State(ingresses: map<string, Ingress>, files: map<string, string>)

  predicate Active(s: State, name: string) { name in s.ingresses && s.ingresses[name].emptyHost }

  predicate NoneActive(s: State) { forall n :: n in s.ingresses ==> !s.ingresses[n].emptyHost }

  /** Writes the fallback server unless an empty-host Ingress is active. */
  function Synced(s: State, fallback: string, writeOk: bool): State {
    if NoneActive(s) && writeOk then s.(files := s.files[DEFAULT_SERVER := fallback]) else s
  }

  predicate SyncOk(s: State, writeOk: bool) { !NoneActive(s) || writeOk }

  datatype Op =
    | Put(name: string, ingress: Ingress, writeOk: bool, syncOk: bool)
    | Delete(name: string, syncOk: bool)

  predicate IsDedicated(name: string) { name != DEFAULT_SERVER }

  function PutBeforeSync(s: State, name: string, ing: Ingress): State {
    var written := s.files[(if ing.emptyHost then DEFAULT_SERVER else name) := ing.content];
    var moved := ing.emptyHost && name in s.ingresses && !s.ingresses[name].emptyHost;
    State(s.ingresses[name := ing], if moved then written - {name} else written)
  }

  function DeleteBeforeSync(s: State, name: string): State {
    State(s.ingresses - {name}, if Active(s, name) then s.files else s.files - {name})
  }

  function Step(s: State, fallback: string, op: Op): State {
    match op
    case Put(name, ing, writeOk, syncOk) => if writeOk then Synced(PutBeforeSync(s, name, ing), fallback, syncOk) else s
    case Delete(name, syncOk) => Synced(DeleteBeforeSync(s, name), fallback, syncOk)
  }

  /** Whether the operation reports success. */
  predicate Succeeds(s: State, op: Op) {
    match op
    case Put(name, ing, writeOk, syncOk) => writeOk && SyncOk(PutBeforeSync(s, name, ing), syncOk)
    case Delete(name, syncOk) => SyncOk(DeleteBeforeSync(s, name), syncOk)
  }

  class Configurator {
    var ingresses: map<string, Ingress>
    var files: map<string, string>
    const fallback: string

    ghost function Value(): State
      reads this
    {
      State(ingresses, files)
    }

    constructor (fallback: string)
      ensures this.fallback == fallback && Value() == Initial(fallback)
    {
      this.fallback := fallback;
      ingresses, files := map[], map[DEFAULT_SERVER := fallback];
    }

    method HasActiveEmptyHost() returns (r: bool)
      ensures r <==> !NoneActive(Value())
    {
      var left := ingresses.Keys;
      while left != {}
        invariant left <= ingresses.Keys
        invariant forall n :: n in ingresses && n !in left ==> !ingresses[n].emptyHost
        decreases |left|
      {
        var n :| n in left;
        if ingresses[n].emptyHost {
          return true;
        }
        left := left - {n};
      }
      r := false;
    }

    method SyncDefaultServer(writeOk: bool) returns (ok: bool)
      modifies this`files
      ensures Value() == Synced(old(Value()), fallback, writeOk) && (ok <==> SyncOk(old(Value()), writeOk))
    {
      var active := HasActiveEmptyHost();
      if active {
        return true;
      }
      if writeOk {
        files := files[DEFAULT_SERVER := fallback];
      }
      ok := writeOk;
    }

    method AddOrUpdate(name: string, ing: Ingress, writeOk: bool, syncOk: bool) returns (ok: bool)
      modifies this
      ensures Value() == Step(old(Value()), fallback, Put(name, ing, writeOk, syncOk))
      ensures ok <==> Succeeds(old(Value()), Put(name, ing, writeOk, syncOk))
    {
      hide NoneActive;
      var configName := if ing.emptyHost then DEFAULT_SERVER else name;
      if !writeOk {
        return false;
      }
      files := files[configName := ing.content];
      if ing.emptyHost && name in ingresses && !ingresses[name].emptyHost {
        files := files - {name};
      }
      ingresses := ingresses[name := ing];
      ok := SyncDefaultServer(syncOk);
    }

    method DeleteIngress(name: string, syncOk: bool) returns (ok: bool)
      modifies this
      ensures Value() == Step(old(Value()), fallback, Delete(name, syncOk))
      ensures ok <==> Succeeds(old(Value()), Delete(name, syncOk))
    {
      hide NoneActive;
      if name !in ingresses || !ingresses[name].emptyHost {
        files := files - {name};
      }
      ingresses := ingresses - {name};
      ok := SyncDefaultServer(syncOk);
    }
  }

  // ---- every run ----

  function Initial(fallback: string): State { State(map[], map[DEFAULT_SERVER := fallback]) }

  function Run(fallback: string, ops: seq<Op>): State {
    if |ops| == 0 then Initial(fallback) else Step(Run(fallback, ops[..|ops| - 1]), fallback, ops[|ops| - 1])
  }

  ghost predicate Names(ops: seq<Op>) {
    forall i :: 0 <= i < |ops| ==> IsDedicated(ops[i].name)
  }

  /** A dedicated file exists exactly for the Ingresses with a host, with their content. */
  ghost predicate FilesMatch(s: State) {
    forall n :: IsDedicated(n) ==>
      && (n in s.files <==> n in s.ingresses && !s.ingresses[n].emptyHost)
      && (n in s.files ==> s.files[n] == s.ingresses[n].content)
  }

  lemma StepFilesMatch(s: State, fallback: string, op: Op)
    requires FilesMatch(s) && IsDedicated(op.name)
    ensures FilesMatch(Step(s, fallback, op))
  {
    hide NoneActive;
  }

  /** It holds in every run, whatever writes fail and however many empty hosts there are. */
  lemma {:induction false} FilesAlwaysMatch(fallback: string, ops: seq<Op>)
    requires Names(ops)
    ensures FilesMatch(Run(fallback, ops))
  {
    if |ops| > 0 {
      FilesAlwaysMatch(fallback, ops[..|ops| - 1]);
      StepFilesMatch(Run(fallback, ops[..|ops| - 1]), fallback, ops[|ops| - 1]);
    }
  }

  predicate FailsToWrite(op: Op) { op.Put? && !op.writeOk }

  function Written(ops: seq<Op>): seq<Op> {
    if |ops| == 0 then []
    else Written(ops[..|ops| - 1]) + if FailsToWrite(ops[|ops| - 1]) then [] else [ops[|ops| - 1]]
  }

  lemma RunOneMore(fallback: string, ops: seq<Op>, op: Op)
    ensures Run(fallback, ops + [op]) == Step(Run(fallback, ops), fallback, op)
  {
    assert (ops + [op])[..|ops|] == ops;
  }

  /** A failed write of the own file is reported and changes neither memory nor disk: the run
      without it comes to the same state. */
  lemma {:induction false} FailedWriteChangesNothing(fallback: string, ops: seq<Op>)
    ensures Run(fallback, ops) == Run(fallback, Written(ops))
    ensures forall k :: 0 <= k < |ops| && FailsToWrite(ops[k]) ==> !Succeeds(Run(fallback, ops[..k]), ops[k])
  {
    if |ops| > 0 {
      var init, op := ops[..|ops| - 1], ops[|ops| - 1];
      FailedWriteChangesNothing(fallback, init);
      RunOneMore(fallback, Written(init), op);
      assert Written(init) + [] == Written(init);
      assert forall k :: 0 <= k < |init| ==> init[..k] == ops[..k] && init[k] == ops[k];
    }
  }

  ghost predicate AtMostOneActive(s: State) {
    forall a, b :: Active(s, a) && Active(s, b) ==> a == b
  }

  ghost predicate NeverTwoActive(fallback: string, ops: seq<Op>) {
    forall k :: 0 <= k <= |ops| ==> AtMostOneActive(Run(fallback, ops[..k]))
  }

  ghost predicate ServesActive(s: State) {
    DEFAULT_SERVER in s.files && forall n :: Active(s, n) ==> s.files[DEFAULT_SERVER] == s.ingresses[n].content
  }

  lemma StepServesActive(s: State, fallback: string, op: Op)
    requires ServesActive(s) && AtMostOneActive(Step(s, fallback, op)) && IsDedicated(op.name)
    ensures ServesActive(Step(s, fallback, op))
  {
    var t := Step(s, fallback, op);
    assert op.Put? && op.writeOk && op.ingress.emptyHost ==> Active(t, op.name);
    assert forall n :: Active(t, n) && n != op.name ==> Active(s, n);
    assert (exists n :: Active(t, n)) ==> !NoneActive(t);
    hide NoneActive;
  }

  lemma SuccessSyncs(s: State, fallback: string, op: Op)
    requires Succeeds(s, op) && IsDedicated(op.name)
    ensures var t := Step(s, fallback, op);
            NoneActive(t) ==> DEFAULT_SERVER in t.files && t.files[DEFAULT_SERVER] == fallback
  {
    assert forall u: State, files :: NoneActive(u) <==> NoneActive(State(u.ingresses, files));
    hide NoneActive;
  }

  /** In a run that never leaves two empty-host Ingresses active, the shared file serves the
      active one, even after failed writes; and after an operation that reports success it
      serves the fallback when there is none. */
  lemma {:induction false} DefaultServerCorrect(fallback: string, ops: seq<Op>)
    requires Names(ops) && NeverTwoActive(fallback, ops)
    ensures var s := Run(fallback, ops);
            && ServesActive(s)
            && (NoneActive(s) && (|ops| == 0 || Succeeds(Run(fallback, ops[..|ops| - 1]), ops[|ops| - 1])) ==>
                  s.files[DEFAULT_SERVER] == fallback)
  {
    if |ops| > 0 {
      var init, op := ops[..|ops| - 1], ops[|ops| - 1];
      var s := Run(fallback, init);
      forall k | 0 <= k <= |init|
        ensures AtMostOneActive(Run(fallback, init[..k]))
      {
        assert init[..k] == ops[..k];
      }
      assert ops[..|ops|] == ops;
      DefaultServerCorrect(fallback, init);
      hide Step, Succeeds, AtMostOneActive;
      StepServesActive(s, fallback, op);
      if Succeeds(s, op) {
        SuccessSyncs(s, fallback, op);
      }
    }
  }

  // ---- what is held ----

  /** What the operations say about an Ingress: it is as it was last written, unless it has been
      deleted since. */
  function Held(ops: seq<Op>, n: string): Option<Ingress> {
    if |ops| == 0 then None
    else
      var op := ops[|ops| - 1];
      if op.name == n && op.Delete? then None
      else if op.name == n && op.writeOk then Some(op.ingress)
      else Held(ops[..|ops| - 1], n)
  }

  /** Memory holds exactly that, in every run. */
  lemma {:induction false} MemoryExactly(fallback: string, ops: seq<Op>, n: string)
    ensures var s := Run(fallback, ops);
            Held(ops, n) == if n in s.ingresses then Some(s.ingresses[n]) else None
  {
    hide NoneActive;
    if |ops| > 0 {
      MemoryExactly(fallback, ops[..|ops| - 1], n);
    }
  }

  ghost predicate HoldsEmptyHost(ops: seq<Op>) { exists n :: Held(ops, n).Some? && Held(ops, n).value.emptyHost }

  lemma NoneActiveExactly(fallback: string, ops: seq<Op>)
    ensures NoneActive(Run(fallback, ops)) <==> !HoldsEmptyHost(ops)
  {
    forall n
      ensures var s := Run(fallback, ops); Held(ops, n) == if n in s.ingresses then Some(s.ingresses[n]) else None
    {
      MemoryExactly(fallback, ops, n);
    }
    hide Run, Held;
  }

  /** An operation reports success if and only if its own file was written and the default server is
      in order: some Ingress with the empty host is held, or the fallback could be written. */
  lemma SucceedsExactly(fallback: string, ops: seq<Op>, op: Op)
    ensures Succeeds(Run(fallback, ops), op) <==> !FailsToWrite(op) && (HoldsEmptyHost(ops + [op]) || op.syncOk)
  {
    RunOneMore(fallback, ops, op);
    NoneActiveExactly(fallback, ops + [op]);
    assert forall u: State, files :: NoneActive(u) <==> NoneActive(State(u.ingresses, files));
    hide NoneActive, Run, Held;
  }

  // ---- several empty hosts ----

  /** The content that the last successful write to the shared file by an Ingress stored. */
  function LastEmptyWrite(ops: seq<Op>): Option<string> {
    if |ops| == 0 then None
    else
      var op := ops[|ops| - 1];
      if op.Put? && op.writeOk && op.ingress.emptyHost then Some(op.ingress.content) else LastEmptyWrite(ops[..|ops| - 1])
  }

  /** In general, while any empty-host Ingress is active the shared file holds whatever the
      last of them to be written stored, whether or not that one is still active. */
  lemma {:induction false} LastWriterStays(fallback: string, ops: seq<Op>)
    requires Names(ops)
    ensures var s := Run(fallback, ops);
            !NoneActive(s) ==> DEFAULT_SERVER in s.files && Some(s.files[DEFAULT_SERVER]) == LastEmptyWrite(ops)
  {
    if |ops| > 0 {
      var init, op := ops[..|ops| - 1], ops[|ops| - 1];
      LastWriterStays(fallback, init);
      hide NoneActive;
      if !NoneActive(Run(fallback, ops)) {
        OnlyWritersActivate(Run(fallback, init), fallback, op);
      }
    }
  }

  lemma OnlyWritersActivate(s: State, fallback: string, op: Op)
    requires !NoneActive(Step(s, fallback, op)) && IsDedicated(op.name)
    ensures !(op.Put? && op.writeOk && op.ingress.emptyHost) ==> !NoneActive(s)
    ensures var t := if op.Delete? then DeleteBeforeSync(s, op.name) else if op.writeOk then PutBeforeSync(s, op.name, op.ingress) else s;
            Step(s, fallback, op) == t
  {
    var u := Step(s, fallback, op);
    var n :| n in u.ingresses && u.ingresses[n].emptyHost;
    if n in s.ingresses {
      assert n != op.name ==> s.ingresses[n] == u.ingresses[n];
    }
  }

  /** So the shared file is wrong exactly in this way: deleting the last of two writers
      leaves its content in place although the other is the only one active. */
  lemma StaleDefaultServer(fallback: string, a: string, b: string, x: Ingress, y: Ingress)
    requires IsDedicated(a) && IsDedicated(b) && a != b && x.emptyHost && y.emptyHost
    ensures var s := Run(fallback, [Put(a, x, true, true), Put(b, y, true, true), Delete(b, true)]);
            && Active(s, a) && s.ingresses == map[a := x]
            && DEFAULT_SERVER in s.files && s.files[DEFAULT_SERVER] == y.content
  {
    var ops := [Put(a, x, true, true), Put(b, y, true, true), Delete(b, true)];
    assert ops[..2] == [ops[0], ops[1]] && ops[..2][..1] == [ops[0]] && ops[..2][..1][..0] == [];
    var s0 := Initial(fallback);
    var s1 := Step(s0, fallback, ops[0]);
    assert s1.ingresses[a].emptyHost;
    var s2 := Step(s1, fallback, ops[1]);
    assert s2.ingresses[b].emptyHost;
    var s3 := Step(s2, fallback, ops[2]);
    assert s3.ingresses[a].emptyHost;
    assert Run(fallback, ops[..2][..1]) == s1 && Run(fallback, ops[..2]) == s2 && Run(fallback, ops) == s3;
    assert s3.ingresses == map[a := x];
  }
}
