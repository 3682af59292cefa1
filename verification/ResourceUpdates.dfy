/** Regenerating every resource after a shared input changes, and attributing the files that
    a batch validation excludes back to the resources that wrote them. */
module ResourceUpdates {
  import opened Text
  import IngressFiles
  import Names = ResourceNames
  import opened BatchIsolation

  // ---- applying the updates, with early exit ----

  /** Two failures in a row are taken as a broken shared input. */
  const THRESHOLD := 2

  /** An update and how attempting it ends: with its weight updates, or with an error. */
  datatype Task = Task(key: string, outcome: Option<seq<string>>)

  datatype Result = Result(weightUpdates: seq<string>, sharedInputFailure: bool, consecutiveFailures: nat, processedCount: nat)

  predicate Fails(t: Task) { t.outcome.None? }

  /** The failures at the end of the list. */
  function Trailing(tasks: seq<Task>): nat {
    if |tasks| == 0 || !Fails(tasks[|tasks| - 1]) then 0 else 1 + Trailing(tasks[..|tasks| - 1])
  }

  function FailedKeys(tasks: seq<Task>): set<string> { set t | t in tasks && Fails(t) :: t.key }

  function WeightUpdates(tasks: seq<Task>): seq<string> {
    if |tasks| == 0 then []
    else WeightUpdates(tasks[..|tasks| - 1]) + if Fails(tasks[|tasks| - 1]) then [] else tasks[|tasks| - 1].outcome.value
  }

  /** Two failures in a row that end before position `n`. */
  predicate PairBefore(tasks: seq<Task>, n: nat)
    requires n <= |tasks|
  {
    exists k :: 0 <= k && k + 1 < n && Fails(tasks[k]) && Fails(tasks[k + 1])
  }

  /** The prefix that is attempted: up to the end of the first pair of failures in a row
      when early exit is on, up to the first failure when errors are fatal, else everything. */
  ghost predicate Processes(tasks: seq<Task>, rollback: bool, earlyExit: bool, n: nat) {
    n <= |tasks| &&
    if !rollback then
      && (forall k :: 0 <= k < n - 1 ==> !Fails(tasks[k]))
      && (n < |tasks| ==> n > 0 && Fails(tasks[n - 1]))
    else if earlyExit then
      && (n > 0 ==> !PairBefore(tasks, n - 1))
      && (n < |tasks| ==> PairBefore(tasks, n))
    else n == |tasks|
  }

  lemma Snoc(tasks: seq<Task>, i: nat)
    requires i < |tasks|
    ensures Trailing(tasks[..i + 1]) == if Fails(tasks[i]) then 1 + Trailing(tasks[..i]) else 0
    ensures WeightUpdates(tasks[..i + 1]) == WeightUpdates(tasks[..i]) + if Fails(tasks[i]) then [] else tasks[i].outcome.value
    ensures FailedKeys(tasks[..i + 1]) == FailedKeys(tasks[..i]) + if Fails(tasks[i]) then {tasks[i].key} else {}
  {
    assert tasks[..i + 1][..i] == tasks[..i];
    assert forall t :: t in tasks[..i + 1] <==> t in tasks[..i] || t == tasks[i];
  }

  /** While there has been no pair, the trailing failures tell whether one ends here. */
  lemma TrailingPair(tasks: seq<Task>, i: nat)
    requires i < |tasks| && !PairBefore(tasks, i)
    ensures PairBefore(tasks, i + 1) <==> Trailing(tasks[..i + 1]) >= THRESHOLD
    ensures Trailing(tasks[..i + 1]) <= THRESHOLD
  {
    Snoc(tasks, i);
    if i > 0 {
      Snoc(tasks, i - 1);
      if Fails(tasks[i - 1]) && Fails(tasks[i - 1 + 1]) {
        assert PairBefore(tasks, i + 1);
      }
      if i > 1 {
        Snoc(tasks, i - 2);
        assert !(Fails(tasks[i - 2]) && Fails(tasks[i - 2 + 1]));
      }
    }
  }

  predicate AnyFails(tasks: seq<Task>) { exists k :: 0 <= k < |tasks| && Fails(tasks[k]) }

  lemma NothingApplied(tasks: seq<Task>)
    ensures Trailing(tasks[..0]) == 0 && WeightUpdates(tasks[..0]) == [] && FailedKeys(tasks[..0]) == {} && !PairBefore(tasks, 0)
  {
  }

  method ApplyResourceUpdates(tasks: seq<Task>, rollback: bool, earlyExit: bool, errors: set<string>)
    returns (r: Result, errors': set<string>, failed: bool)
    ensures Processes(tasks, rollback, earlyExit, r.processedCount)
    ensures var done := tasks[..r.processedCount];
            && (failed <==> !rollback && AnyFails(tasks))
            && errors' == errors + (if rollback then FailedKeys(done) else {})
            && r.weightUpdates == WeightUpdates(done)
            && (rollback ==> r.consecutiveFailures == if earlyExit then Trailing(done) else 0)
            && (r.sharedInputFailure <==> rollback && earlyExit && PairBefore(tasks, r.processedCount))
  {
    hide Trailing, WeightUpdates, FailedKeys, PairBefore;
    r, errors', failed := Result([], false, 0, 0), errors, false;
    NothingApplied(tasks);
    var i := 0;
    while i < |tasks| && !r.sharedInputFailure
      invariant 0 <= i <= |tasks| && r.processedCount == i
      invariant !rollback ==> forall k :: 0 <= k < i ==> !Fails(tasks[k])
      invariant rollback && earlyExit && i > 0 ==> !PairBefore(tasks, i - 1)
      invariant r.sharedInputFailure <==> rollback && earlyExit && PairBefore(tasks, i)
      invariant errors' == errors + (if rollback then FailedKeys(tasks[..i]) else {})
      invariant r.weightUpdates == WeightUpdates(tasks[..i])
      invariant r.consecutiveFailures == if rollback && earlyExit then Trailing(tasks[..i]) else 0
      decreases |tasks| - i
    {
      var t := tasks[i];
      Snoc(tasks, i);
      if !PairBefore(tasks, i) {
        TrailingPair(tasks, i);
      }
      r := r.(processedCount := r.processedCount + 1);
      if t.outcome.None? {
        if !rollback {
          assert Fails(tasks[i]);
          return r, errors', true;
        }
        errors' := errors' + {t.key};
        if earlyExit {
          r := r.(consecutiveFailures := r.consecutiveFailures + 1);
          if r.consecutiveFailures >= THRESHOLD {
            r := r.(sharedInputFailure := true);
          }
        }
      } else {
        r := r.(consecutiveFailures := 0, weightUpdates := r.weightUpdates + t.outcome.value);
      }
      i := i + 1;
    }
  }

  /** Two prefixes cannot both be the processed one. */
  lemma ProcessedUnique(tasks: seq<Task>, rollback: bool, earlyExit: bool, m: nat, n: nat)
    requires Processes(tasks, rollback, earlyExit, m) && Processes(tasks, rollback, earlyExit, n) && m <= n
    requires |tasks| > 0 ==> m > 0
    ensures m == n
  {
  }

  function Failures(tasks: seq<Task>): nat {
    if |tasks| == 0 then 0 else Failures(tasks[..|tasks| - 1]) + if Fails(tasks[|tasks| - 1]) then 1 else 0
  }

  lemma {:induction false} FewFailures(tasks: seq<Task>)
    requires !PairBefore(tasks, |tasks|)
    ensures 2 * Failures(tasks) <= |tasks| + Trailing(tasks)
  {
    if |tasks| > 0 {
      var init := tasks[..|tasks| - 1];
      assert forall k :: 0 <= k < |init| ==> init[k] == tasks[k];
      assert !PairBefore(init, |init|);
      FewFailures(init);
      if |init| > 0 && Fails(tasks[|tasks| - 1]) {
        assert !Fails(tasks[|tasks| - 2]);
      }
    }
  }

  /** With early exit at most about half of the processed updates have failed. */
  lemma FailuresBounded(tasks: seq<Task>, n: nat)
    requires Processes(tasks, true, true, n)
    ensures 2 * Failures(tasks[..n]) <= n + 2
  {
    if n > 0 {
      var done := tasks[..n - 1];
      assert tasks[..n][..n - 1] == done && forall k :: 0 <= k < n - 1 ==> done[k] == tasks[k];
      assert !PairBefore(done, |done|);
      FewFailures(done);
      assert Trailing(done) <= 1 by {
        if n > 2 {
          assert done[..n - 2][|done[..n - 2]| - 1] == tasks[n - 3];
        }
      }
    }
  }

  // ---- attributing excluded files ----

  datatype Kind = IngressKind | MasterKind | VirtualServerKind | TransportServerKind

  datatype Resource = Resource(kind: Kind, namespace: string, name: string, emptyHost: bool)

  /** The file that the resource's own content is written to. */
  function FileName(r: Resource): string {
    match r.kind
    case VirtualServerKind => Names.FileName(Names.VirtualServerFile, r.namespace, r.name)
    case TransportServerKind => Names.FileName(Names.TransportServerFile, r.namespace, r.name)
    case _ => if r.emptyHost then IngressFiles.DEFAULT_SERVER else Names.IngressFileName(r.namespace, r.name)
  }

  /** It is where the resource is written: an Ingress or a master by the operation that writes it,
      the others under their kind, namespace and name. */
  lemma FileIsWritten(r: Resource, s: IngressFiles.State, fallback: string, content: string, syncOk: bool)
    requires r.name != "" && Names.Plain(r.namespace) && Names.Plain(r.name)
    ensures r.kind.VirtualServerKind? ==> FileName(r) == "vs_" + r.namespace + "_" + r.name
    ensures r.kind.TransportServerKind? ==> FileName(r) == "ts_" + r.namespace + "_" + r.name
    ensures r.kind.IngressKind? || r.kind.MasterKind? ==>
              var name := r.namespace + "-" + r.name;
              var files := IngressFiles.Step(s, fallback, IngressFiles.Put(name, IngressFiles.Ingress(r.emptyHost, content), true, syncOk)).files;
              FileName(r) in files && files[FileName(r)] == content
  {
    var name := r.namespace + "-" + r.name;
    assert name != IngressFiles.DEFAULT_SERVER by {
      assert IngressFiles.DEFAULT_SERVER[0] == '_' && Lacks(name, '_');
    }
    if r.emptyHost {
      var t := IngressFiles.PutBeforeSync(s, name, IngressFiles.Ingress(true, content));
      assert name in t.ingresses && t.ingresses[name].emptyHost;
    }
  }

  function KindName(k: Kind): string {
    match k
    case VirtualServerKind => "VirtualServer"
    case TransportServerKind => "TransportServer"
    case _ => "Ingress"
  }

  function ErrorKey(r: Resource): string { KindName(r.kind) + "/" + r.namespace + "/" + r.name }

  /** The keys of the resources that share a file. */
  function OwnersOf(rs: seq<Resource>, file: string): seq<string> {
    if |rs| == 0 then []
    else
      var r := rs[|rs| - 1];
      OwnersOf(rs[..|rs| - 1], file) + if FileName(r) == file then [ErrorKey(r)] else []
  }

  function Files(rs: seq<Resource>): set<string> { set r | r in rs :: FileName(r) }

  /** Ingresses come first, then masters, VirtualServers and TransportServers. */
  method BuildFilenameToErrorKey(rs: seq<Resource>) returns (m: map<string, seq<string>>)
    ensures m.Keys == Files(rs) && forall f :: f in m ==> m[f] == OwnersOf(rs, f)
  {
    hide FileName, ErrorKey, OwnersOf, Files;
    m := map[];
    var i := 0;
    assert Files(rs[..0]) == {} by { NoFiles(rs[..0]); }
    while i < |rs|
      invariant 0 <= i <= |rs|
      invariant m.Keys == Files(rs[..i])
      invariant forall f :: f in m ==> m[f] == OwnersOf(rs[..i], f)
    {
      var f, key := FileName(rs[i]), ErrorKey(rs[i]);
      NextFiles(rs, i);
      if f !in m {
        NoOwners(rs[..i], f);
      }
      ghost var before := m;
      m := m[f := (if f in m then m[f] else []) + [key]];
      forall g | g in m
        ensures m[g] == OwnersOf(rs[..i + 1], g)
      {
        NextOwners(rs, i, g);
        assert g != f ==> g in before;
      }
      i := i + 1;
    }
    assert rs[..i] == rs;
  }

  lemma NoFiles(rs: seq<Resource>)
    requires |rs| == 0
    ensures Files(rs) == {}
  {
  }

  lemma NextOwners(rs: seq<Resource>, i: nat, file: string)
    requires i < |rs|
    ensures OwnersOf(rs[..i + 1], file) == if FileName(rs[i]) == file then OwnersOf(rs[..i], file) + [ErrorKey(rs[i])] else OwnersOf(rs[..i], file)
  {
    hide FileName, ErrorKey;
    assert rs[..i + 1][..i] == rs[..i];
  }

  lemma NextFiles(rs: seq<Resource>, i: nat)
    requires i < |rs|
    ensures Files(rs[..i + 1]) == Files(rs[..i]) + {FileName(rs[i])}
  {
    hide FileName;
    assert rs[..i + 1] == rs[..i] + [rs[i]];
    assert forall r :: r in rs[..i + 1] <==> r in rs[..i] || r == rs[i];
  }

  lemma {:induction false} NoOwners(rs: seq<Resource>, file: string)
    requires file !in Files(rs)
    ensures OwnersOf(rs, file) == []
  {
    hide FileName;
    if |rs| > 0 {
      assert rs[|rs| - 1] in rs && forall r :: r in rs[..|rs| - 1] ==> r in rs;
      NoOwners(rs[..|rs| - 1], file);
    }
  }

  lemma {:induction false} OwnerMember(rs: seq<Resource>, file: string, key: string)
    ensures key in OwnersOf(rs, file) <==> exists r :: r in rs && FileName(r) == file && ErrorKey(r) == key
  {
    hide FileName, ErrorKey;
    if |rs| > 0 {
      OwnerMember(rs[..|rs| - 1], file, key);
      assert rs == rs[..|rs| - 1] + [rs[|rs| - 1]];
    }
  }

  /** Every resource's own written file leads back to the resource. */
  lemma OwnFileNamesOwner(rs: seq<Resource>, r: Resource)
    requires r in rs
    ensures FileName(r) in Files(rs) && ErrorKey(r) in OwnersOf(rs, FileName(r))
  {
    OwnerMember(rs, FileName(r), ErrorKey(r));
  }

  /** The keys that one excluded file stands for. */
  function Attributed(rs: seq<Resource>, file: string): set<string> {
    if file in Files(rs) then set k | k in OwnersOf(rs, file) else {file}
  }

  function AllAttributed(rs: seq<Resource>, excluded: seq<string>): set<string> {
    set file, k | file in excluded && k in Attributed(rs, file) :: k
  }

  method AttributeExclusions(rs: seq<Resource>, excluded: seq<string>) returns (unique: set<string>)
    ensures unique == AllAttributed(rs, excluded)
  {
    var owners := BuildFilenameToErrorKey(rs);
    hide OwnersOf, Files;
    unique := {};
    var i := 0;
    while i < |excluded|
      invariant 0 <= i <= |excluded|
      invariant unique == AllAttributed(rs, excluded[..i])
    {
      var file := excluded[i];
      var keys := if file in owners then owners[file] else [file];
      ghost var before := unique;
      var j := 0;
      while j < |keys|
        invariant 0 <= j <= |keys|
        invariant unique == before + set k | k in keys[..j]
      {
        assert keys[..j + 1] == keys[..j] + [keys[j]];
        unique := unique + {keys[j]};
        j := j + 1;
      }
      assert keys[..j] == keys;
      assert (set k | k in keys) == Attributed(rs, file);
      NextAttributed(rs, excluded, i);
      i := i + 1;
    }
    assert excluded[..i] == excluded;
  }

  lemma NextAttributed(rs: seq<Resource>, excluded: seq<string>, i: nat)
    requires i < |excluded|
    ensures AllAttributed(rs, excluded[..i + 1]) == AllAttributed(rs, excluded[..i]) + Attributed(rs, excluded[i])
  {
    hide Attributed;
    assert forall f :: f in excluded[..i + 1] <==> f in excluded[..i] || f == excluded[i];
  }

  function KeysOf(rs: set<Resource>): set<string> { set r | r in rs :: ErrorKey(r) }

  function Excluded(rs: seq<Resource>, excluded: seq<string>): set<Resource> { set r | r in rs && FileName(r) in excluded }

  function Stray(rs: seq<Resource>, excluded: seq<string>): set<string> { set f | f in excluded && f !in Files(rs) }

  ghost predicate DistinctKeys(rs: seq<Resource>) {
    forall i, j :: 0 <= i < j < |rs| ==> ErrorKey(rs[i]) != ErrorKey(rs[j])
  }

  lemma AttributedKeys(rs: seq<Resource>, excluded: seq<string>)
    ensures AllAttributed(rs, excluded) == KeysOf(Excluded(rs, excluded)) + Stray(rs, excluded)
  {
    hide FileName, ErrorKey, OwnersOf;
    forall k
      ensures k in AllAttributed(rs, excluded) <==> k in KeysOf(Excluded(rs, excluded)) + Stray(rs, excluded)
    {
      forall file
        ensures k in OwnersOf(rs, file) <==> exists r :: r in rs && FileName(r) == file && ErrorKey(r) == k
      {
        OwnerMember(rs, file, k);
      }
      if k in AllAttributed(rs, excluded) {
        var file :| file in excluded && k in Attributed(rs, file);
        if file in Files(rs) {
          var r :| r in rs && FileName(r) == file && ErrorKey(r) == k;
          assert r in Excluded(rs, excluded);
        }
      }
      if k in KeysOf(Excluded(rs, excluded)) {
        var r :| r in Excluded(rs, excluded) && ErrorKey(r) == k;
        assert FileName(r) in Files(rs) && k in Attributed(rs, FileName(r));
      }
      if k in Stray(rs, excluded) {
        assert k in Attributed(rs, k);
      }
    }
  }

  lemma {:induction false} CountKeys(rs: seq<Resource>, some: set<Resource>)
    requires DistinctKeys(rs) && forall r :: r in some ==> r in rs
    ensures |KeysOf(some)| == |some|
  {
    hide ErrorKey;
    if some == {} {
      assert KeysOf(some) == {};
    } else {
      var r :| r in some;
      var rest := some - {r};
      CountKeys(rs, rest);
      var i :| 0 <= i < |rs| && rs[i] == r;
      forall q | q in rest
        ensures ErrorKey(q) != ErrorKey(r)
      {
        var j :| 0 <= j < |rs| && rs[j] == q;
      }
      assert KeysOf(some) == KeysOf(rest) + {ErrorKey(r)};
    }
  }

  /** No file name looks like an error key: keys hold a slash and file names do not. */
  lemma StrayIsNoKey(rs: seq<Resource>, excluded: seq<string>)
    requires forall f :: f in excluded ==> Lacks(f, '/')
    ensures KeysOf(Excluded(rs, excluded)) !! Stray(rs, excluded)
  {
    forall r
      ensures !Lacks(ErrorKey(r), '/')
    {
      assert ErrorKey(r)[|KindName(r.kind)|] == '/';
    }
    hide ErrorKey, FileName;
  }

  /** The effective count is exact: one for each resource whose file was excluded, even when
      files are shared, and one for each excluded file that no resource wrote. */
  lemma EffectiveCount(rs: seq<Resource>, excluded: seq<string>)
    requires DistinctKeys(rs) && forall f :: f in excluded ==> Lacks(f, '/')
    ensures |AllAttributed(rs, excluded)| == |Excluded(rs, excluded)| + |Stray(rs, excluded)|
  {
    AttributedKeys(rs, excluded);
    CountKeys(rs, Excluded(rs, excluded));
    StrayIsNoKey(rs, excluded);
    hide AllAttributed, Excluded, Stray, KeysOf;
  }

  lemma {:induction false} CountResources(rs: seq<Resource>)
    requires DistinctKeys(rs)
    ensures |set r | r in rs| == |rs|
  {
    hide ErrorKey;
    if |rs| == 0 {
      assert (set r | r in rs) == {};
    } else {
      var init, last := rs[..|rs| - 1], rs[|rs| - 1];
      assert forall i :: 0 <= i < |init| ==> init[i] == rs[i];
      CountResources(init);
      assert last !in init;
      assert (set r | r in rs) == (set r | r in init) + {last};
    }
  }

  /** When only files of resources are excluded, the count reaches the number of resources
      exactly when every resource's file is excluded. */
  lemma AllBroken(rs: seq<Resource>, excluded: seq<string>)
    requires DistinctKeys(rs) && (forall f :: f in excluded ==> Lacks(f, '/') && f in Files(rs))
    ensures |AllAttributed(rs, excluded)| == |rs| <==> forall r :: r in rs ==> FileName(r) in excluded
  {
    EffectiveCount(rs, excluded);
    CountResources(rs);
    assert Stray(rs, excluded) == {};
    hide FileName, ErrorKey;
    var all, some := (set r | r in rs), Excluded(rs, excluded);
    assert some <= all;
    SubsetCount(some, all);
    if some == all {
      assert forall r :: r in rs ==> r in all;
    }
  }

  lemma SubsetCount<T>(a: set<T>, b: set<T>)
    requires a <= b
    ensures |a| == |b| <==> a == b
  {
    assert b == a + (b - a);
  }

  predicate PlainName(r: Resource) { Lacks(r.namespace, '/') && Lacks(r.name, '/') }

  lemma KindIsPlain(k: Kind)
    ensures Lacks(KindName(k), '/')
  {
  }

  /** Error keys tell resources apart by kind, namespace and name. */
  lemma ErrorKeyInjective(a: Resource, b: Resource)
    requires PlainName(a) && PlainName(b) && ErrorKey(a) == ErrorKey(b)
    ensures KindName(a.kind) == KindName(b.kind) && a.namespace == b.namespace && a.name == b.name
  {
    var x, y := a.namespace + "/" + a.name, b.namespace + "/" + b.name;
    KindIsPlain(a.kind);
    KindIsPlain(b.kind);
    hide KindName;
    assert ErrorKey(a) == KindName(a.kind) + "/" + x && ErrorKey(b) == KindName(b.kind) + "/" + y;
    CutInjective(KindName(a.kind), x, KindName(b.kind), y, '/');
    CutInjective(a.namespace, a.name, b.namespace, b.name, '/');
  }

  // ---- finishing a batch ----

  function KeysOfTasks(tasks: seq<Task>): set<string> { set t | t in tasks :: t.key }

  /** What a batch came to: a tree that validates, one that no resource can be applied to, or a
      second try, file by file. */
  datatype Outcome = Isolated | Unrecoverable | Replayed

  /** Given the keys that the excluded files stand for and those that failed while the batch was
      written; `tasks` tells how the second try ends. */
  function Reported(o: Outcome, tasks: seq<Task>, attributed: set<string>, errors: set<string>): set<string> {
    match o
    case Isolated => errors + attributed
    case Unrecoverable => KeysOfTasks(tasks)
    case Replayed => FailedKeys(tasks)
  }

  function CountOf(o: Outcome, tasks: seq<Task>, attributed: set<string>): nat {
    if o.Unrecoverable? then |KeysOfTasks(tasks)| else |attributed|
  }

  class BatchReport {
    var effectiveExclusionCount: nat

    /** A second try follows only when a file could not be excluded. */
    method CompleteBatchAndIsolate(m: Manager, tasks: seq<Task>, rs: seq<Resource>, errors: set<string>)
      returns (o: Outcome, errors': set<string>)
      requires m.tracked == m.visible && m.excluded == []
      modifies this, m
      ensures var attributed := AllAttributed(rs, m.excluded);
              errors' == Reported(o, tasks, attributed, errors) && effectiveExclusionCount == CountOf(o, tasks, attributed)
      ensures Elements(m.excluded) <= old(m.visible)
      ensures var left := old(m.visible) - Elements(m.excluded);
              && (o.Isolated? <==> m.passes(left))
              && (!o.Isolated? ==> m.visible <= left)
              && (!o.Isolated? ==> (o.Replayed? <==> m.passes(m.visible)))
              && (o.Replayed? ==> exists f :: f in left && !m.canExclude(m.excluded, f))
    {
      effectiveExclusionCount := 0;
      var e := m.CompleteBatch();
      var unique := AttributeExclusions(rs, m.excluded);
      hide AllAttributed;
      errors' := errors + unique;
      effectiveExclusionCount := |unique|;
      if e.Valid? {
        return Isolated, errors';
      }
      errors' := {};
      assert e.Exhausted? ==> m.visible == {};
      if !m.passes(m.visible) {
        var i := 0;
        while i < |tasks|
          invariant 0 <= i <= |tasks|
          invariant errors' == KeysOfTasks(tasks[..i])
        {
          assert tasks[..i + 1] == tasks[..i] + [tasks[i]];
          errors' := errors' + {tasks[i].key};
          i := i + 1;
        }
        assert tasks[..i] == tasks;
        effectiveExclusionCount := |errors'|;
        return Unrecoverable, errors';
      }
      var r, replayed, stopped := ApplyResourceUpdates(tasks, true, false, errors');
      assert tasks[..|tasks|] == tasks;
      return Replayed, replayed;
    }
  }

  // ---- the readiness gate ----

  /** The pod is held back when every resource counts as excluded. */
  predicate Held(count: nat, total: nat) { count > 0 && count >= total }

  ghost predicate TasksOf(tasks: seq<Task>, rs: seq<Resource>) {
    |tasks| == |rs| && forall i :: 0 <= i < |rs| ==> tasks[i].key == ErrorKey(rs[i])
  }

  ghost predicate OwnFiles(rs: seq<Resource>, excluded: seq<string>) {
    forall f :: f in excluded ==> Lacks(f, '/') && f in Files(rs)
  }

  ghost predicate AllExcluded(rs: seq<Resource>, excluded: seq<string>) { forall r :: r in rs ==> FileName(r) in excluded }

  ghost predicate AllFail(tasks: seq<Task>) { forall t :: t in tasks ==> Fails(t) }

  lemma AllAttributedExactly(rs: seq<Resource>, excluded: seq<string>)
    requires DistinctKeys(rs) && OwnFiles(rs, excluded)
    ensures var attributed, all := AllAttributed(rs, excluded), KeysOf(set r | r in rs);
            && attributed <= all && |all| == |rs|
            && (AllExcluded(rs, excluded) <==> attributed == all) && (AllExcluded(rs, excluded) <==> |attributed| == |rs|)
  {
    hide FileName, ErrorKey;
    var some, whole := Excluded(rs, excluded), set r | r in rs;
    AttributedKeys(rs, excluded);
    AllBroken(rs, excluded);
    CountKeys(rs, whole);
    CountResources(rs);
    assert Stray(rs, excluded) == {};
    assert some <= whole;
    SomeKeys(some, whole);
    hide AllAttributed, KeysOf, Excluded;
    SubsetCount(AllAttributed(rs, excluded), KeysOf(whole));
  }

  lemma SomeKeys(some: set<Resource>, whole: set<Resource>)
    requires some <= whole
    ensures KeysOf(some) <= KeysOf(whole)
  {
  }

  lemma FailedOfAll(tasks: seq<Task>)
    requires forall i, j :: 0 <= i < j < |tasks| ==> tasks[i].key != tasks[j].key
    ensures FailedKeys(tasks) <= KeysOfTasks(tasks)
    ensures FailedKeys(tasks) == KeysOfTasks(tasks) <==> AllFail(tasks)
  {
    if FailedKeys(tasks) == KeysOfTasks(tasks) {
      forall t | t in tasks
        ensures Fails(t)
      {
        assert t.key in KeysOfTasks(tasks);
        var u :| u in tasks && Fails(u) && u.key == t.key;
        var i :| 0 <= i < |tasks| && tasks[i] == t;
        var j :| 0 <= j < |tasks| && tasks[j] == u;
        assert i == j;
      }
    }
  }

  /** Every resource whose file is not excluded failed while the batch was written. */
  ghost predicate OthersFailed(rs: seq<Resource>, excluded: seq<string>, errors: set<string>) {
    forall r :: r in rs && FileName(r) !in excluded ==> ErrorKey(r) in errors
  }

  lemma KeyIsAttributed(rs: seq<Resource>, excluded: seq<string>, r: Resource)
    requires DistinctKeys(rs) && OwnFiles(rs, excluded) && r in rs
    ensures ErrorKey(r) in AllAttributed(rs, excluded) <==> FileName(r) in excluded
  {
    AttributedKeys(rs, excluded);
    hide FileName, ErrorKey, AllAttributed;
    assert Stray(rs, excluded) == {};
    if ErrorKey(r) in KeysOf(Excluded(rs, excluded)) {
      var q :| q in Excluded(rs, excluded) && ErrorKey(q) == ErrorKey(r);
      SameKeySame(rs, q, r);
    }
  }

  lemma SameKeySame(rs: seq<Resource>, q: Resource, r: Resource)
    requires DistinctKeys(rs) && q in rs && r in rs && ErrorKey(q) == ErrorKey(r)
    ensures q == r
  {
    hide ErrorKey;
    var i :| 0 <= i < |rs| && rs[i] == q;
    var j :| 0 <= j < |rs| && rs[j] == r;
  }

  lemma CoveredExactly(rs: seq<Resource>, excluded: seq<string>, errors: set<string>)
    requires DistinctKeys(rs) && OwnFiles(rs, excluded)
    ensures KeysOf(set r | r in rs) <= errors + AllAttributed(rs, excluded) <==> OthersFailed(rs, excluded, errors)
  {
    forall r | r in rs
      ensures ErrorKey(r) in AllAttributed(rs, excluded) <==> FileName(r) in excluded
    {
      KeyIsAttributed(rs, excluded, r);
    }
    hide FileName, ErrorKey, AllAttributed;
    var all := KeysOf(set r | r in rs);
    if all <= errors + AllAttributed(rs, excluded) {
      forall r | r in rs && FileName(r) !in excluded
        ensures ErrorKey(r) in errors
      {
        assert ErrorKey(r) in all;
      }
    }
  }

  /** A pod that is held back has every resource reported as broken. The other way round the gate
      misses exactly two cases: a second try that rejects everything, and exclusions of some
      resources where all the others failed while the batch was written. */
  lemma HeldExactly(o: Outcome, tasks: seq<Task>, rs: seq<Resource>, excluded: seq<string>, errors: set<string>)
    requires |rs| > 0 && DistinctKeys(rs) && TasksOf(tasks, rs) && OwnFiles(rs, excluded)
    requires o.Replayed? ==> !AllExcluded(rs, excluded)
    ensures var attributed, all := AllAttributed(rs, excluded), KeysOf(set r | r in rs);
            var held, broken := Held(CountOf(o, tasks, attributed), |rs|), all <= Reported(o, tasks, attributed, errors);
            && (held ==> broken)
            && ((broken ==> held) <==>
                !(o.Replayed? && AllFail(tasks)) && !(o.Isolated? && !AllExcluded(rs, excluded) && OthersFailed(rs, excluded, errors)))
  {
    hide ErrorKey, FileName, AllAttributed, KeysOf, AllExcluded, AllFail, KeysOfTasks, FailedKeys, DistinctKeys, Files, OthersFailed;
    UnrecoverableReportsAll(tasks, rs);
    AllAttributedExactly(rs, excluded);
    CoveredExactly(rs, excluded, errors);
    var attributed, all := AllAttributed(rs, excluded), KeysOf(set r | r in rs);
    SubsetSmaller(attributed, all);
    match o
    case Isolated =>
    case Unrecoverable =>
    case Replayed =>
      DistinctTasks(tasks, rs);
      FailedOfAll(tasks);
  }

  lemma DistinctTasks(tasks: seq<Task>, rs: seq<Resource>)
    requires DistinctKeys(rs) && TasksOf(tasks, rs)
    ensures forall i, j :: 0 <= i < j < |tasks| ==> tasks[i].key != tasks[j].key
  {
    hide ErrorKey;
  }

  // ---- when the count is right ----

  /** Excluded before, and accepted in the second try; */
  function Recovered(rs: seq<Resource>, excluded: seq<string>, failed: set<string>): set<Resource> {
    set r | r in rs && FileName(r) in excluded && ErrorKey(r) !in failed
  }

  /** not excluded before, and rejected in the second try. */
  function NewlyFailed(rs: seq<Resource>, excluded: seq<string>, failed: set<string>): set<Resource> {
    set r | r in rs && FileName(r) !in excluded && ErrorKey(r) in failed
  }

  lemma DifferencesAreKeys(rs: seq<Resource>, excluded: seq<string>, attributed: set<string>, failed: set<string>)
    requires attributed <= KeysOf(set r | r in rs) && failed <= KeysOf(set r | r in rs)
    requires forall r :: r in rs ==> (ErrorKey(r) in attributed <==> FileName(r) in excluded)
    ensures attributed - failed == KeysOf(Recovered(rs, excluded, failed)) && failed - attributed == KeysOf(NewlyFailed(rs, excluded, failed))
  {
    hide FileName, ErrorKey;
    forall key
      ensures key in attributed - failed <==> key in KeysOf(Recovered(rs, excluded, failed))
      ensures key in failed - attributed <==> key in KeysOf(NewlyFailed(rs, excluded, failed))
    {
      if key in attributed || key in failed {
        var r :| r in rs && ErrorKey(r) == key;
      }
    }
  }

  lemma CountDifference(a: set<string>, b: set<string>)
    ensures |a| == |b| <==> |a - b| == |b - a|
  {
    assert a == a * b + (a - b) && b == a * b + (b - a);
  }

  lemma ReplayDifference(tasks: seq<Task>, rs: seq<Resource>, excluded: seq<string>)
    requires DistinctKeys(rs) && TasksOf(tasks, rs) && OwnFiles(rs, excluded)
    ensures var attributed, failed := AllAttributed(rs, excluded), FailedKeys(tasks);
            |attributed| == |failed| <==> |Recovered(rs, excluded, failed)| == |NewlyFailed(rs, excluded, failed)|
  {
    hide FileName, ErrorKey, AllAttributed, FailedKeys, KeysOf, KeysOfTasks, OwnFiles, DistinctKeys, TasksOf, AllExcluded, AllFail;
    var attributed, failed := AllAttributed(rs, excluded), FailedKeys(tasks);
    AllAttributedExactly(rs, excluded);
    UnrecoverableReportsAll(tasks, rs);
    DistinctTasks(tasks, rs);
    FailedOfAll(tasks);
    forall r | r in rs
      ensures ErrorKey(r) in attributed <==> FileName(r) in excluded
    {
      KeyIsAttributed(rs, excluded, r);
    }
    DifferencesAreKeys(rs, excluded, attributed, failed);
    CountKeys(rs, Recovered(rs, excluded, failed));
    CountKeys(rs, NewlyFailed(rs, excluded, failed));
    CountDifference(attributed, failed);
  }

  /** The count is that of the reported resources exactly when, in a valid tree, nothing failed
      beside the exclusions, and after a second try, as many resources recover as newly fail. */
  lemma CountIsReported(o: Outcome, tasks: seq<Task>, rs: seq<Resource>, excluded: seq<string>, errors: set<string>)
    requires DistinctKeys(rs) && TasksOf(tasks, rs) && OwnFiles(rs, excluded)
    ensures var attributed, failed := AllAttributed(rs, excluded), FailedKeys(tasks);
            CountOf(o, tasks, attributed) == |Reported(o, tasks, attributed, errors)| <==>
            match o
            case Isolated => errors <= attributed
            case Unrecoverable => true
            case Replayed => |Recovered(rs, excluded, failed)| == |NewlyFailed(rs, excluded, failed)|
  {
    hide AllAttributed, FailedKeys, KeysOf, Recovered, NewlyFailed, KeysOfTasks, DistinctKeys, TasksOf, OwnFiles;
    var attributed := AllAttributed(rs, excluded);
    ReplayDifference(tasks, rs, excluded);
    SubsetCount(attributed, errors + attributed);
  }

  /** After a second try not every file was excluded, so the pod is never held back. */
  lemma ReplayIsNotHeld(o: Outcome, tasks: seq<Task>, rs: seq<Resource>, excluded: seq<string>, files: set<string>, f: string)
    requires |rs| > 0 && DistinctKeys(rs) && OwnFiles(rs, excluded)
    requires o.Replayed? && f in files - Elements(excluded) && files <= Files(rs)
    ensures !AllExcluded(rs, excluded) && !Held(CountOf(o, tasks, AllAttributed(rs, excluded)), |rs|)
  {
    hide ErrorKey, FileName;
    var r :| r in rs && FileName(r) == f;
    assert FileName(r) !in excluded;
    AllAttributedExactly(rs, excluded);
    hide AllAttributed;
    var attributed, all := AllAttributed(rs, excluded), KeysOf(set r | r in rs);
    SubsetSmaller(attributed, all);
  }

  /** For example, one of two files is excluded, the other cannot be, and the second try rejects
      both: everything is reported as broken and the pod becomes ready. */
  lemma BrokenButReady(a: Resource, b: Resource)
    requires ErrorKey(a) != ErrorKey(b) && FileName(a) != FileName(b) && Lacks(FileName(a), '/')
    ensures var rs, tasks, attributed := [a, b], [Task(ErrorKey(a), None), Task(ErrorKey(b), None)], AllAttributed([a, b], [FileName(a)]);
            && KeysOf(set r | r in rs) <= Reported(Replayed, tasks, attributed, {})
            && !Held(CountOf(Replayed, tasks, attributed), |rs|)
  {
    hide ErrorKey, FileName;
    var rs, tasks, excluded := [a, b], [Task(ErrorKey(a), None), Task(ErrorKey(b), None)], [FileName(a)];
    assert a in rs && b in rs && FileName(b) !in excluded;
    assert OwnFiles(rs, excluded) && AllFail(tasks);
    HeldExactly(Replayed, tasks, rs, excluded, {});
  }

  /** Or one resource failed while the batch was written and the other is excluded. */
  lemma OneOfEach(a: Resource, b: Resource, tasks: seq<Task>)
    requires ErrorKey(a) != ErrorKey(b) && FileName(a) != FileName(b) && Lacks(FileName(b), '/') && TasksOf(tasks, [a, b])
    ensures var rs, attributed := [a, b], AllAttributed([a, b], [FileName(b)]);
            && KeysOf(set r | r in rs) <= Reported(Isolated, tasks, attributed, {ErrorKey(a)})
            && !Held(CountOf(Isolated, tasks, attributed), |rs|)
  {
    hide ErrorKey, FileName;
    var rs, excluded := [a, b], [FileName(b)];
    assert a in rs && b in rs && FileName(a) !in excluded;
    assert OwnFiles(rs, excluded) && OthersFailed(rs, excluded, {ErrorKey(a)});
    HeldExactly(Isolated, tasks, rs, excluded, {ErrorKey(a)});
  }

  lemma SubsetSmaller<T>(a: set<T>, b: set<T>)
    requires a <= b
    ensures |a| <= |b|
  {
    assert b == a + (b - a);
  }

  /** When nothing can be applied, every resource is reported and the count is the total. */
  lemma UnrecoverableReportsAll(tasks: seq<Task>, rs: seq<Resource>)
    requires DistinctKeys(rs) && TasksOf(tasks, rs)
    ensures KeysOfTasks(tasks) == KeysOf(set r | r in rs) && |KeysOfTasks(tasks)| == |rs|
  {
    hide ErrorKey;
    var all := set r | r in rs;
    CountKeys(rs, all);
    CountResources(rs);
    forall k
      ensures k in KeysOfTasks(tasks) <==> k in KeysOf(all)
    {
      if k in KeysOfTasks(tasks) {
        var i :| 0 <= i < |tasks| && tasks[i].key == k;
        assert rs[i] in all;
      }
      if k in KeysOf(all) {
        var i :| 0 <= i < |rs| && ErrorKey(rs[i]) == k;
        assert tasks[i] in tasks;
      }
    }
  }
}
