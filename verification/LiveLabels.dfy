/** Metric labels and the resources they belong to, over every run: an Ingress gives its labels
    back only after the default-server file is written. */
module LiveLabels {
  import opened Text
  import opened LabelIndex
  import Files = IngressFiles

  /** The Ingresses with their files, the VirtualServers, and one kind of labels. */
  datatype World = World(state: Files.State, virtualServers: set<string>, labels: Dimension)

  datatype Action =
    | PutIngress(name: string, ingress: Files.Ingress, entries: seq<Entry>, writeOk: bool, syncOk: bool)
    | DeleteIngress(name: string, syncOk: bool)
    | PutVirtualServer(key: string, entries: seq<Entry>, writeOk: bool)
    | DeleteVirtualServer(key: string)

  /** What an action does to the labels, when it comes to that. */
  function LabelStep(s: Files.State, a: Action): seq<Op> {
    match a
    case PutIngress(name, _, es, writeOk, _) => if writeOk then [Put(IngressOwner(name), es)] else []
    case DeleteIngress(name, syncOk) => if Files.Succeeds(s, Files.Delete(name, syncOk)) then [Drop(IngressOwner(name))] else []
    case PutVirtualServer(key, es, writeOk) => if writeOk then [Put(VirtualServerOwner(key), es)] else []
    case DeleteVirtualServer(key) => [Drop(VirtualServerOwner(key))]
  }

  function FileStep(s: Files.State, fallback: string, a: Action): Files.State {
    match a
    case PutIngress(name, ing, _, writeOk, syncOk) => Files.Step(s, fallback, Files.Put(name, ing, writeOk, syncOk))
    case DeleteIngress(name, syncOk) => Files.Step(s, fallback, Files.Delete(name, syncOk))
    case _ => s
  }

  function VirtualServerStep(keys: set<string>, a: Action): set<string> {
    match a
    case PutVirtualServer(key, _, writeOk) => if writeOk then keys + {key} else keys
    case DeleteVirtualServer(key) => keys - {key}
    case _ => keys
  }

  function ApplyAll(d: Dimension, ops: seq<Op>): Dimension {
    if |ops| == 0 then d else LabelIndex.Step(ApplyAll(d, ops[..|ops| - 1]), ops[|ops| - 1])
  }

  lemma ApplyOne(d: Dimension, op: Op)
    ensures ApplyAll(d, [op]) == LabelIndex.Step(d, op)
  {
    assert [op][..0] == [];
  }

  function Perform(w: World, fallback: string, a: Action): World {
    World(FileStep(w.state, fallback, a), VirtualServerStep(w.virtualServers, a), ApplyAll(w.labels, LabelStep(w.state, a)))
  }

  function History(fallback: string, actions: seq<Action>): World {
    if |actions| == 0 then World(Files.Initial(fallback), {}, NOTHING)
    else Perform(History(fallback, actions[..|actions| - 1]), fallback, actions[|actions| - 1])
  }

  /** The Configurator with its labels. */
  class Labelled {
    const files: Files.Configurator
    const labels: MetricLabels

    constructor (files: Files.Configurator, labels: MetricLabels)
      ensures this.files == files && this.labels == labels
    {
      this.files, this.labels := files, labels;
    }

    /** The labels are updated once the own file is written, even when the default server cannot
        be. */
    method AddOrUpdateIngress(name: string, ing: Files.Ingress, us: seq<Upstream>, writeOk: bool, syncOk: bool) returns (ok: bool)
      modifies files, labels
      ensures files.Value() == FileStep(old(files.Value()), files.fallback, PutIngress(name, ing, [], writeOk, syncOk))
      ensures labels.upstreams == ApplyAll(old(labels.upstreams), LabelStep(old(files.Value()), PutIngress(name, ing, UpstreamEntries(us), writeOk, syncOk)))
      ensures labels.peers == ApplyAll(old(labels.peers), LabelStep(old(files.Value()), PutIngress(name, ing, PeerEntries(us), writeOk, syncOk)))
    {
      hide Files.Step, Update;
      ok := files.AddOrUpdate(name, ing, writeOk, syncOk);
      if writeOk {
        labels.UpdateLabels(IngressOwner(name), us);
        ApplyOne(old(labels.upstreams), Put(IngressOwner(name), UpstreamEntries(us)));
        ApplyOne(old(labels.peers), Put(IngressOwner(name), PeerEntries(us)));
      }
    }

    /** They are given back only when the default server is in order. */
    method DeleteIngress(name: string, syncOk: bool) returns (ok: bool)
      modifies files, labels
      ensures var a := Action.DeleteIngress(name, syncOk);
              && files.Value() == FileStep(old(files.Value()), files.fallback, a)
              && labels.upstreams == ApplyAll(old(labels.upstreams), LabelStep(old(files.Value()), a))
              && labels.peers == ApplyAll(old(labels.peers), LabelStep(old(files.Value()), a))
    {
      hide Files.Step, Files.Succeeds, Remove;
      ok := files.DeleteIngress(name, syncOk);
      if ok {
        labels.DeleteLabels(IngressOwner(name));
        ApplyOne(old(labels.upstreams), Drop(IngressOwner(name)));
        ApplyOne(old(labels.peers), Drop(IngressOwner(name)));
      }
    }
  }

  // ---- which resources are indexed ----

  predicate Live(w: World, r: Owner) {
    match r
    case IngressOwner(name) => name in w.state.ingresses
    case VirtualServerOwner(key) => key in w.virtualServers
  }

  /** Whether the actions leave a VirtualServer: it has been written and not deleted since. */
  predicate LeftStanding(actions: seq<Action>, key: string) {
    |actions| > 0 &&
    var a := actions[|actions| - 1];
    if a.DeleteVirtualServer? && a.key == key then false
    else (a.PutVirtualServer? && a.key == key && a.writeOk) || LeftStanding(actions[..|actions| - 1], key)
  }

  /** What the actions do to Ingresses. */
  function IngressOps(actions: seq<Action>): seq<Files.Op> {
    if |actions| == 0 then []
    else
      var before := IngressOps(actions[..|actions| - 1]);
      match actions[|actions| - 1]
      case PutIngress(name, ing, _, writeOk, syncOk) => before + [Files.Put(name, ing, writeOk, syncOk)]
      case DeleteIngress(name, syncOk) => before + [Files.Delete(name, syncOk)]
      case _ => before
  }

  /** The live resources are those that the actions leave. */
  lemma {:induction false} LiveExactly(fallback: string, actions: seq<Action>, r: Owner)
    ensures Live(History(fallback, actions), r) <==>
            match r
            case IngressOwner(name) => Files.Held(IngressOps(actions), name).Some?
            case VirtualServerOwner(key) => LeftStanding(actions, key)
  {
    match r
    case IngressOwner(name) =>
      FilesAreRun(fallback, actions);
      hide History;
      Files.MemoryExactly(fallback, IngressOps(actions), name);
    case VirtualServerOwner(key) => StandingExactly(fallback, actions, key);
  }

  lemma {:induction false} StandingExactly(fallback: string, actions: seq<Action>, key: string)
    ensures key in History(fallback, actions).virtualServers <==> LeftStanding(actions, key)
  {
    hide FileStep, ApplyAll, LabelStep;
    if |actions| > 0 {
      StandingExactly(fallback, actions[..|actions| - 1], key);
    }
  }

  lemma {:induction false} FilesAreRun(fallback: string, actions: seq<Action>)
    ensures History(fallback, actions).state == Files.Run(fallback, IngressOps(actions))
  {
    hide Files.Step, ApplyAll, LabelStep, VirtualServerStep;
    if |actions| > 0 {
      var init, a := actions[..|actions| - 1], actions[|actions| - 1];
      FilesAreRun(fallback, init);
      match a
      case PutIngress(name, ing, _, writeOk, syncOk) => Files.RunOneMore(fallback, IngressOps(init), Files.Put(name, ing, writeOk, syncOk));
      case DeleteIngress(name, syncOk) => Files.RunOneMore(fallback, IngressOps(init), Files.Delete(name, syncOk));
      case _ =>
    }
  }

  /** The Ingresses whose deletion stopped at the default server, and that have neither come back
      nor been deleted again since. */
  function Abandoned(fallback: string, actions: seq<Action>): set<string> {
    if |actions| == 0 then {}
    else
      var init, a := actions[..|actions| - 1], actions[|actions| - 1];
      var before, s := Abandoned(fallback, init), History(fallback, init).state;
      match a
      case PutIngress(name, _, _, writeOk, _) => if writeOk then before - {name} else before
      case DeleteIngress(name, syncOk) =>
        if Files.Succeeds(s, Files.Delete(name, syncOk)) then before - {name}
        else if name in s.ingresses then before + {name} else before
      case _ => before
  }

  predicate IsAbandoned(fallback: string, actions: seq<Action>, r: Owner) { r.IngressOwner? && r.key in Abandoned(fallback, actions) }

  lemma IngressesStep(s: Files.State, fallback: string, a: Action)
    ensures var t := FileStep(s, fallback, a);
            forall n :: n in t.ingresses <==>
              match a
              case PutIngress(name, _, _, writeOk, _) => n in s.ingresses || (writeOk && n == name)
              case DeleteIngress(name, _) => n in s.ingresses && n != name
              case _ => n in s.ingresses
  {
    hide Files.NoneActive;
  }

  lemma IndexStep(w: World, fallback: string, a: Action)
    ensures forall r :: r in Perform(w, fallback, a).labels.index <==>
              var ops := LabelStep(w.state, a);
              if ops != [] && ops[0].owner == r then ops[0].Put? else r in w.labels.index
  {
    var ops := LabelStep(w.state, a);
    if ops != [] {
      ApplyOne(w.labels, ops[0]);
    }
    hide Files.Succeeds, Files.Step, Table, Indexed, Elements;
  }

  /** In every run the index holds exactly the live resources and the abandoned Ingresses. */
  lemma {:induction false} IndexedExactly(fallback: string, actions: seq<Action>)
    ensures forall r :: r in History(fallback, actions).labels.index <==> Live(History(fallback, actions), r) || IsAbandoned(fallback, actions, r)
    ensures forall r :: !(Live(History(fallback, actions), r) && IsAbandoned(fallback, actions, r))
  {
    if |actions| > 0 {
      var init, a := actions[..|actions| - 1], actions[|actions| - 1];
      IndexedExactly(fallback, init);
      IngressesStep(History(fallback, init).state, fallback, a);
      IndexStep(History(fallback, init), fallback, a);
      hide Files.Succeeds, FileStep, ApplyAll;
    }
  }

  // ---- what the collector holds ----

  function LabelOps(fallback: string, actions: seq<Action>): seq<Op> {
    if |actions| == 0 then []
    else
      var init := actions[..|actions| - 1];
      LabelOps(fallback, init) + LabelStep(History(fallback, init).state, actions[|actions| - 1])
  }

  lemma RunOneMore(ops: seq<Op>, op: Op)
    ensures LabelIndex.Run(ops + [op]) == LabelIndex.Step(LabelIndex.Run(ops), op)
  {
    assert (ops + [op])[..|ops|] == ops;
  }

  lemma ApplyToRun(before: seq<Op>, ops: seq<Op>)
    requires |ops| <= 1
    ensures ApplyAll(LabelIndex.Run(before), ops) == LabelIndex.Run(before + ops)
  {
    hide LabelIndex.Step, LabelIndex.Run;
    if |ops| == 0 {
      assert before + ops == before;
    } else {
      assert ops == [ops[0]];
      ApplyOne(LabelIndex.Run(before), ops[0]);
      RunOneMore(before, ops[0]);
    }
  }

  lemma OneOpAtMost(s: Files.State, a: Action)
    ensures |LabelStep(s, a)| <= 1
  {
  }

  lemma {:induction false} LabelsAreRun(fallback: string, actions: seq<Action>)
    ensures History(fallback, actions).labels == LabelIndex.Run(LabelOps(fallback, actions))
  {
    hide LabelStep, FileStep, VirtualServerStep, ApplyAll, LabelIndex.Step;
    if |actions| > 0 {
      var init, a := actions[..|actions| - 1], actions[|actions| - 1];
      LabelsAreRun(fallback, init);
      var w := History(fallback, init);
      OneOpAtMost(w.state, a);
      ApplyToRun(LabelOps(fallback, init), LabelStep(w.state, a));
    }
  }

  /** In every run in which different resources use different names, the collector holds exactly
      the names of the live resources when, and only when, every abandoned Ingress had none. */
  lemma LabelsExactly(fallback: string, actions: seq<Action>)
    requires AlwaysDisjoint(LabelOps(fallback, actions))
    ensures var w := History(fallback, actions);
            (forall n :: n in w.labels.labels <==> exists r :: Live(w, r) && Owns(w.labels, r, n)) <==>
            (forall name :: name in Abandoned(fallback, actions) ==> Indexed(w.labels, IngressOwner(name)) == [])
  {
    var w, ops := History(fallback, actions), LabelOps(fallback, actions);
    IndexedExactly(fallback, actions);
    LabelsAreRun(fallback, actions);
    CollectorFollowsIndex(ops);
    assert ops[..|ops|] == ops;
    assert Disjoint(w.labels) && Agrees(w.labels);
    hide History, LabelIndex.Run, LabelOps, Abandoned, UpToDate;
    if name :| name in Abandoned(fallback, actions) && Indexed(w.labels, IngressOwner(name)) != [] {
      var r := IngressOwner(name);
      assert IsAbandoned(fallback, actions, r);
      var n := w.labels.index[r][0];
      assert Owns(w.labels, r, n) && n in w.labels.labels;
      assert forall q :: Owns(w.labels, q, n) ==> q == r;
    } else {
      forall n
        ensures n in w.labels.labels <==> exists r :: Live(w, r) && Owns(w.labels, r, n)
      {
        if r :| Owns(w.labels, r, n) {
          assert !IsAbandoned(fallback, actions, r);
        }
      }
    }
  }

  lemma TwoActions(fallback: string, a: Action, b: Action)
    ensures History(fallback, [a, b]) == Perform(Perform(World(Files.Initial(fallback), {}, NOTHING), fallback, a), fallback, b)
  {
    hide Perform;
    assert [a, b][..1] == [a] && [a][..0] == [];
    assert History(fallback, [a][..0]) == World(Files.Initial(fallback), {}, NOTHING);
    assert History(fallback, [a]) == Perform(History(fallback, [a][..0]), fallback, a);
  }

  /** For example, an Ingress is added and then deleted while the default server cannot be
      written: it is gone, and its label stays. */
  lemma LeftBehind(fallback: string, name: string, content: string, e: Entry)
    ensures var w := History(fallback, [PutIngress(name, Files.Ingress(false, content), [e], true, true), DeleteIngress(name, false)]);
            && !Live(w, IngressOwner(name)) && w.virtualServers == {} && w.state.ingresses == map[]
            && e.name in w.labels.labels && Owns(w.labels, IngressOwner(name), e.name)
  {
    var ing := Files.Ingress(false, content);
    var actions := [PutIngress(name, ing, [e], true, true), DeleteIngress(name, false)];
    var w0 := World(Files.Initial(fallback), {}, NOTHING);
    var w1 := Perform(w0, fallback, actions[0]);
    var w2 := Perform(w1, fallback, actions[1]);
    TwoActions(fallback, actions[0], actions[1]);
    hide History;
    ApplyOne(w0.labels, Put(IngressOwner(name), [e]));
    assert w1.state.ingresses == map[name := ing];
    TableKeys([e]);
    assert NamesOf([e]) == [e.name];
    assert w2.labels == w1.labels == Update(NOTHING, IngressOwner(name), [e]);
  }
}
