/** The metric labels that resources contribute to a collector, and the index that says which
    names to take back when a resource changes or goes. Upstream names and peer names are
    kept in the same way, each with its own index and labels. */
module LabelIndex {
  import opened Text

  /** An Ingress or a VirtualServer, by its namespace/name key. */
  datatype Owner = IngressOwner(key: string) | VirtualServerOwner(key: string)

  datatype Entry = Entry(name: string, value: string)

  /** One index with the labels that the collector holds. */
  datatype Dimension = Dimension(index: map<Owner, seq<string>>, labels: map<string, string>)

  const NOTHING := Dimension(map[], map[])

  function NamesOf(es: seq<Entry>): seq<string> { seq(|es|, i requires 0 <= i < |es| => es[i].name) }

  function Table(es: seq<Entry>): map<string, string> {
    if |es| == 0 then map[] else Table(es[..|es| - 1])[es[|es| - 1].name := es[|es| - 1].value]
  }

  function Indexed(d: Dimension, r: Owner): seq<string> { if r in d.index then d.index[r] else [] }

  function Update(d: Dimension, r: Owner, es: seq<Entry>): Dimension {
    var removed := Elements(Indexed(d, r)) - Table(es).Keys;
    Dimension(d.index[r := NamesOf(es)], (d.labels + Table(es)) - removed)
  }

  function Remove(d: Dimension, r: Owner): Dimension {
    Dimension(d.index - {r}, d.labels - Elements(Indexed(d, r)))
  }

  lemma {:induction false} TableKeys(es: seq<Entry>)
    ensures Table(es).Keys == Elements(NamesOf(es))
  {
    if |es| > 0 {
      var init := es[..|es| - 1];
      TableKeys(init);
      assert NamesOf(es) == NamesOf(init) + [es[|es| - 1].name];
    }
  }

  method FindRemovedKeys(current: seq<string>, keys: set<string>) returns (removed: seq<string>)
    ensures Elements(removed) == Elements(current) - keys
  {
    removed := [];
    var i := 0;
    while i < |current|
      invariant 0 <= i <= |current|
      invariant Elements(removed) == Elements(current[..i]) - keys
    {
      assert current[..i + 1] == current[..i] + [current[i]];
      ElementsAppend(current[..i], current[i]);
      ElementsAppend(removed, current[i]);
      hide Elements;
      if current[i] !in keys {
        removed := removed + [current[i]];
      }
      i := i + 1;
    }
    assert current[..i] == current;
  }

  datatype Server = Server(address: string, pod: string)

  datatype Upstream = Upstream(name: string, value: string, servers: seq<Server>)

  function UpstreamEntries(us: seq<Upstream>): seq<Entry> {
    seq(|us|, i requires 0 <= i < |us| => Entry(us[i].name, us[i].value))
  }

  function ServerEntries(u: Upstream): seq<Entry> {
    seq(|u.servers|, i requires 0 <= i < |u.servers| => Entry(u.name + "/" + u.servers[i].address, u.servers[i].pod))
  }

  function PeerEntries(us: seq<Upstream>): seq<Entry> {
    if |us| == 0 then [] else PeerEntries(us[..|us| - 1]) + ServerEntries(us[|us| - 1])
  }

  /** There is one peer for every server of every upstream, named by both, with the server's pod;
      and one entry for every upstream. */
  lemma EntriesExactly(us: seq<Upstream>, e: Entry)
    ensures e in PeerEntries(us) <==>
            exists u, x :: u in us && x in u.servers && e.name == u.name + "/" + x.address && e.value == x.pod
    ensures e in UpstreamEntries(us) <==> exists u :: u in us && e.name == u.name && e.value == u.value
  {
    hide ServerEntries;
    PeersExactly(us, e);
    if u :| u in us && e.name == u.name && e.value == u.value {
      var i :| 0 <= i < |us| && us[i] == u;
      assert UpstreamEntries(us)[i] == e;
    }
  }

  lemma {:induction false} PeersExactly(us: seq<Upstream>, e: Entry)
    ensures e in PeerEntries(us) <==>
            exists u, x :: u in us && x in u.servers && e.name == u.name + "/" + x.address && e.value == x.pod
  {
    hide ServerEntries;
    if |us| > 0 {
      var init, last := us[..|us| - 1], us[|us| - 1];
      PeersExactly(init, e);
      ServersExactly(last, e);
      assert us == init + [last];
    }
  }

  lemma ServersExactly(u: Upstream, e: Entry)
    ensures e in ServerEntries(u) <==> exists x :: x in u.servers && e.name == u.name + "/" + x.address && e.value == x.pod
  {
    if x :| x in u.servers && e.name == u.name + "/" + x.address && e.value == x.pod {
      var i :| 0 <= i < |u.servers| && u.servers[i] == x;
      assert ServerEntries(u)[i] == e;
    }
  }

  class MetricLabels {
    var upstreams: Dimension
    var peers: Dimension

    constructor ()
      ensures upstreams == NOTHING && peers == NOTHING
    {
      upstreams, peers := NOTHING, NOTHING;
    }

    /** The labels of a resource that has been written. */
    method UpdateLabels(r: Owner, us: seq<Upstream>)
      modifies this
      ensures upstreams == Update(old(upstreams), r, UpstreamEntries(us))
      ensures peers == Update(old(peers), r, PeerEntries(us))
    {
      var entries: seq<Entry>, peerEntries: seq<Entry> := [], [];
      var i := 0;
      while i < |us|
        invariant 0 <= i <= |us|
        invariant upstreams == old(upstreams) && peers == old(peers)
        invariant entries == UpstreamEntries(us[..i])
        invariant peerEntries == PeerEntries(us[..i])
      {
        var u := us[i];
        entries := entries + [Entry(u.name, u.value)];
        var j := 0;
        while j < |u.servers|
          invariant 0 <= j <= |u.servers|
          invariant upstreams == old(upstreams) && peers == old(peers)
          invariant peerEntries == PeerEntries(us[..i]) + ServerEntries(u)[..j]
        {
          peerEntries := peerEntries + [Entry(u.name + "/" + u.servers[j].address, u.servers[j].pod)];
          j := j + 1;
        }
        assert us[..i + 1][..i] == us[..i] && ServerEntries(u)[..j] == ServerEntries(u);
        i := i + 1;
      }
      assert us[..i] == us;
      upstreams := Apply(upstreams, r, entries);
      peers := Apply(peers, r, peerEntries);
    }

    /** Writes the new labels first and takes the stale ones back afterwards. */
    method Apply(d: Dimension, r: Owner, es: seq<Entry>) returns (d': Dimension)
      ensures d' == Update(d, r, es)
    {
      var table: map<string, string> := map[];
      var i := 0;
      while i < |es|
        invariant 0 <= i <= |es|
        invariant table == Table(es[..i])
      {
        assert es[..i + 1][..i] == es[..i];
        table := table[es[i].name := es[i].value];
        i := i + 1;
      }
      assert es[..i] == es;
      hide Table;
      var removed := FindRemovedKeys(Indexed(d, r), table.Keys);
      d' := Dimension(d.index[r := NamesOf(es)], d.labels + table - Elements(removed));
    }

    method DeleteLabels(r: Owner)
      modifies this
      ensures upstreams == Remove(old(upstreams), r) && peers == Remove(old(peers), r)
      ensures Forgets(old(upstreams), upstreams, r) && Forgets(old(peers), peers, r)
    {
      upstreams := Dimension(upstreams.index - {r}, upstreams.labels - Elements(Indexed(upstreams, r)));
      peers := Dimension(peers.index - {r}, peers.labels - Elements(Indexed(peers, r)));
    }
  }

  /** Exactly the names that the resource indexed lose their label, and no other resource's index
      changes. */
  ghost predicate Forgets(d: Dimension, d': Dimension, r: Owner) {
    && (forall q :: q in d'.index <==> q in d.index && q != r)
    && (forall q :: q in d'.index ==> d'.index[q] == d.index[q])
    && (forall n :: n in d'.labels <==> n in d.labels && n !in Indexed(d, r))
    && (forall n :: n in d'.labels ==> d'.labels[n] == d.labels[n])
  }

  // ---- agreement of the index and the collector ----

  ghost predicate Owns(d: Dimension, r: Owner, n: string) { r in d.index && n in d.index[r] }

  /** The collector holds exactly the names that live resources index. */
  ghost predicate Agrees(d: Dimension) {
    forall n :: n in d.labels <==> exists r :: Owns(d, r, n)
  }

  /** The names that an update or a deletion takes back. */
  function TakenBack(d: Dimension, r: Owner, es: seq<Entry>): set<string> {
    Elements(Indexed(d, r)) - Elements(NamesOf(es))
  }

  ghost predicate Contested(d: Dimension, r: Owner, taken: set<string>) {
    exists q, n :: q != r && n in taken && Owns(d, q, n)
  }

  /** An update keeps the agreement exactly when no name it takes back belongs to another
      resource as well. */
  lemma UpdateAgrees(d: Dimension, r: Owner, es: seq<Entry>)
    requires Agrees(d)
    ensures Agrees(Update(d, r, es)) <==> !Contested(d, r, TakenBack(d, r, es))
  {
    TableKeys(es);
    var t, taken := Update(d, r, es), TakenBack(d, r, es);
    hide Table;
    assert forall q, n :: q != r ==> (Owns(t, q, n) <==> Owns(d, q, n));
    assert forall n :: Owns(t, r, n) <==> n in NamesOf(es);
    assert forall n :: Owns(d, r, n) && !Owns(t, r, n) ==> n in taken;
    assert forall n :: n in taken ==> n !in t.labels && !Owns(t, r, n);
    if Contested(d, r, taken) {
      var q, n :| q != r && n in taken && Owns(d, q, n);
      assert Owns(t, q, n) && n !in t.labels;
    } else {
      forall n
        ensures n in t.labels <==> exists q :: Owns(t, q, n)
      {
        if n in t.labels && n !in NamesOf(es) {
          var q :| Owns(d, q, n);
          assert Owns(t, q, n);
        }
        if q :| Owns(t, q, n) {
          assert q != r ==> n !in taken;
        }
        if n in NamesOf(es) {
          assert Owns(t, r, n);
        }
      }
    }
  }

  /** So does a deletion. */
  lemma RemoveAgrees(d: Dimension, r: Owner)
    requires Agrees(d)
    ensures Agrees(Remove(d, r)) <==> !Contested(d, r, TakenBack(d, r, []))
  {
    var t, taken := Remove(d, r), TakenBack(d, r, []);
    assert taken == Elements(Indexed(d, r));
    assert forall q, n :: Owns(t, q, n) <==> q != r && Owns(d, q, n);
    assert forall n :: Owns(d, r, n) <==> n in taken;
    if Contested(d, r, taken) {
      var q, n :| q != r && n in taken && Owns(d, q, n);
      assert Owns(t, q, n) && n !in t.labels;
    } else {
      forall n
        ensures n in t.labels <==> exists q :: Owns(t, q, n)
      {
        if n in t.labels {
          var q :| Owns(d, q, n);
          assert Owns(t, q, n);
        }
      }
    }
  }

  // ---- every run ----

  datatype Op = Put(owner: Owner, entries: seq<Entry>) | Drop(owner: Owner)

  function Step(d: Dimension, op: Op): Dimension {
    match op
    case Put(r, es) => Update(d, r, es)
    case Drop(r) => Remove(d, r)
  }

  function Run(ops: seq<Op>): Dimension {
    if |ops| == 0 then NOTHING else Step(Run(ops[..|ops| - 1]), ops[|ops| - 1])
  }

  /** Different resources use different names. */
  ghost predicate Disjoint(d: Dimension) {
    forall r, q, n :: Owns(d, r, n) && Owns(d, q, n) ==> r == q
  }

  ghost predicate AlwaysDisjoint(ops: seq<Op>) { forall k :: 0 <= k <= |ops| ==> Disjoint(Run(ops[..k])) }

  lemma NeverContested(d: Dimension, r: Owner, es: seq<Entry>)
    requires Disjoint(d)
    ensures !Contested(d, r, TakenBack(d, r, es))
  {
    assert forall n :: n in TakenBack(d, r, es) ==> Owns(d, r, n);
  }

  /** The labels that a resource asked for last. */
  function Latest(ops: seq<Op>, r: Owner): map<string, string> {
    if |ops| == 0 then map[]
    else
      var op := ops[|ops| - 1];
      if op.owner == r then (if op.Put? then Table(op.entries) else map[]) else Latest(ops[..|ops| - 1], r)
  }

  /** The last entry with a name decides its label. */
  lemma {:induction false} TableLast(es: seq<Entry>, n: string)
    ensures n in Table(es) <==> exists i :: 0 <= i < |es| && es[i].name == n
    ensures forall i :: 0 <= i < |es| && es[i].name == n && (forall j :: i < j < |es| ==> es[j].name != n) ==> n in Table(es) && Table(es)[n] == es[i].value
  {
    if |es| > 0 {
      var init, last := es[..|es| - 1], es[|es| - 1];
      TableLast(init, n);
      assert forall i :: 0 <= i < |init| ==> init[i] == es[i];
      if i :| 0 <= i < |init| && init[i].name == n {
        assert es[i].name == n;
      }
    }
  }

  /** In every run, a resource has indexed exactly the names it asked for last. */
  lemma {:induction false} IndexedIsLatest(ops: seq<Op>, r: Owner, n: string)
    ensures Owns(Run(ops), r, n) <==> n in Latest(ops, r)
  {
    if |ops| > 0 {
      var init, op := ops[..|ops| - 1], ops[|ops| - 1];
      IndexedIsLatest(init, r, n);
      if op.Put? {
        TableKeys(op.entries);
      }
      hide Table, Elements;
      assert op.Put? ==> (n in Table(op.entries).Keys <==> n in NamesOf(op.entries)) by {
        if op.Put? { InElements(NamesOf(op.entries), n); }
      }
    }
  }

  lemma InElements(s: seq<string>, n: string)
    ensures n in Elements(s) <==> n in s
  {
  }

  ghost predicate UpToDate(d: Dimension, ops: seq<Op>) {
    forall r, n :: Owns(d, r, n) ==> n in d.labels && n in Latest(ops, r) && d.labels[n] == Latest(ops, r)[n]
  }

  lemma StepUpToDate(d: Dimension, init: seq<Op>, op: Op)
    requires Agrees(d) && Disjoint(d) && Disjoint(Step(d, op)) && UpToDate(d, init)
    ensures UpToDate(Step(d, op), init + [op])
  {
    var t, ops := Step(d, op), init + [op];
    assert ops[..|ops| - 1] == init;
    forall r
      ensures Latest(ops, r) == if op.owner == r then (if op.Put? then Table(op.entries) else map[]) else Latest(init, r)
    {
    }
    if op.Put? {
      TableKeys(op.entries);
    }
    hide Latest, Table;
    forall r, n | Owns(t, r, n)
      ensures n in t.labels && n in Latest(ops, r) && t.labels[n] == Latest(ops, r)[n]
    {
      if r == op.owner {
        assert op.Put? && n in NamesOf(op.entries);
      } else {
        assert Owns(d, r, n);
        assert !Owns(d, op.owner, n);
        assert op.Put? && n in NamesOf(op.entries) ==> Owns(t, op.owner, n);
      }
    }
  }

  /** In every run in which different resources use different names, the collector holds
      exactly the names of the live resources, each with the label its resource asked for
      last. */
  lemma {:induction false} CollectorFollowsIndex(ops: seq<Op>)
    requires AlwaysDisjoint(ops)
    ensures Agrees(Run(ops)) && UpToDate(Run(ops), ops)
  {
    if |ops| > 0 {
      var init, op := ops[..|ops| - 1], ops[|ops| - 1];
      assert ops[..|ops|] == ops && init + [op] == ops;
      forall k | 0 <= k <= |init|
        ensures Disjoint(Run(init[..k]))
      {
        assert init[..k] == ops[..k];
      }
      CollectorFollowsIndex(init);
      var d := Run(init);
      assert init[..|init|] == init && Disjoint(d) && Run(ops) == Step(d, op);
      hide Run, Disjoint, Agrees, UpToDate;
      if op.Put? {
        NeverContested(d, op.owner, op.entries);
        UpdateAgrees(d, op.owner, op.entries);
      } else {
        NeverContested(d, op.owner, []);
        RemoveAgrees(d, op.owner);
      }
      StepUpToDate(d, init, op);
    }
  }
}
