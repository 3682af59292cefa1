/** The locations that external-auth policies add to a VirtualServer: one for the subrequests of
    each auth URI, and one for signing in. Spec, routes and subroutes share what was generated. */
module ExternalAuth {
  import opened Text

  /** The external-auth policy of one context: the URI it asks, the page to sign in at, if any, and
      the path that sign-in requests go to. */
  datatype Auth = Auth(policy: string, uri: string, signin: string, base: string)

  function InternalPath(a: Auth): string { "/_external_auth" + a.uri }

  /** A location, the policy that it was generated for, and whether it is the one for sign-in. */
  datatype Block = Block(path: string, auth: Auth, signin: bool)

  /** The URLs marked as generated, whether there is a sign-in location, and the locations. */
  datatype State = State(marked: set<string>, signsIn: bool, blocks: seq<Block>)

  const NOTHING := State({}, false, [])

  function Marks(a: Auth): set<string> { {InternalPath(a)} + if a.signin == "" then {} else {a.signin} }

  function Step(s: State, a: Auth): State {
    if InternalPath(a) in s.marked then s
    else State(
      s.marked + Marks(a),
      s.signsIn || a.signin != "",
      s.blocks + [Block(InternalPath(a), a, false)] + if a.signin != "" && !s.signsIn then [Block(a.base, a, true)] else [])
  }

  function Run(auths: seq<Auth>): State {
    if |auths| == 0 then NOTHING else Step(Run(auths[..|auths| - 1]), auths[|auths| - 1])
  }

  method GenerateLocations(contexts: seq<Option<Auth>>) returns (blocks: seq<Block>)
    ensures blocks == Run(Present(contexts)).blocks
  {
    var marked: set<string>, signsIn := {}, false;
    blocks := [];
    var i := 0;
    while i < |contexts|
      invariant 0 <= i <= |contexts|
      invariant Run(Present(contexts[..i])) == State(marked, signsIn, blocks)
    {
      NextContext(contexts, i);
      hide Present, Run;
      if contexts[i].Some? {
        var a := contexts[i].value;
        if InternalPath(a) !in marked {
          marked := marked + {InternalPath(a)};
          blocks := blocks + [Block(InternalPath(a), a, false)];
          if a.signin != "" {
            marked := marked + {a.signin};
            if !signsIn {
              blocks := blocks + [Block(a.base, a, true)];
              signsIn := true;
            }
          }
        }
      }
      i := i + 1;
    }
    assert contexts[..i] == contexts;
  }

  /** The contexts that have such a policy. */
  function Present(contexts: seq<Option<Auth>>): seq<Auth> {
    if |contexts| == 0 then []
    else Present(contexts[..|contexts| - 1]) + if contexts[|contexts| - 1].Some? then [contexts[|contexts| - 1].value] else []
  }

  lemma NextContext(contexts: seq<Option<Auth>>, i: nat)
    requires i < |contexts|
    ensures Run(Present(contexts[..i + 1])) ==
            match contexts[i] case Some(a) => Step(Run(Present(contexts[..i])), a) case None => Run(Present(contexts[..i]))
  {
    hide Step;
    assert contexts[..i + 1][..i] == contexts[..i];
    var before := Present(contexts[..i]);
    if contexts[i].Some? {
      assert (before + [contexts[i].value])[..|before|] == before;
    } else {
      assert before + [] == before;
    }
  }

  // ---- who answers ----

  /** The policy whose location answers the subrequests to a path. */
  function Answers(blocks: seq<Block>, path: string): Option<Auth> {
    if |blocks| == 0 then None
    else
      var b := blocks[|blocks| - 1];
      if !b.signin && b.path == path then Some(b.auth) else Answers(blocks[..|blocks| - 1], path)
  }

  /** The first context with the same auth URI. */
  function FirstSame(auths: seq<Auth>, uri: string): (j: nat)
    ensures j <= |auths| && (j < |auths| ==> auths[j].uri == uri) && forall i :: 0 <= i < j ==> auths[i].uri != uri
  {
    if |auths| == 0 || auths[0].uri == uri then 0 else 1 + FirstSame(auths[1..], uri)
  }

  lemma SamePath(a: Auth, b: Auth)
    ensures InternalPath(a) == InternalPath(b) <==> a.uri == b.uri
  {
    var n := |"/_external_auth"|;
    assert InternalPath(a)[n..] == a.uri && InternalPath(b)[n..] == b.uri;
  }

  lemma AnswersStep(s: State, a: Auth, path: string)
    ensures Answers(Step(s, a).blocks, path) ==
            if InternalPath(a) == path && path !in s.marked then Some(a) else Answers(s.blocks, path)
  {
    var own, more := Block(InternalPath(a), a, false), Block(a.base, a, true);
    assert (s.blocks + [own])[..|s.blocks|] == s.blocks;
    assert (s.blocks + [own] + [more])[..|s.blocks| + 1] == s.blocks + [own];
    assert s.blocks + [own] + [] == s.blocks + [own];
  }

  /** Every context's subrequests are answered for the first context with the same auth URI; by
      nobody when an earlier sign-in page had been marked under the path. */
  lemma {:induction false} AnsweredByFirst(auths: seq<Auth>, uri: string)
    ensures var j, path := FirstSame(auths, uri), "/_external_auth" + uri;
            && Answers(Run(auths).blocks, path) ==
               (if j == |auths| || path in Run(auths[..j]).marked then None else Some(auths[j]))
            && (j < |auths| ==> path in Run(auths).marked)
  {
    var path := "/_external_auth" + uri;
    if |auths| > 0 {
      var init, a := auths[..|auths| - 1], auths[|auths| - 1];
      AnsweredByFirst(init, uri);
      AnswersStep(Run(init), a, path);
      SamePath(a, Auth("", uri, "", ""));
      FirstSameLonger(init, a, uri);
      assert init + [a] == auths;
      var j := FirstSame(init, uri);
      assert j < |init| ==> init[..j] == auths[..j];
      assert auths[..|init|] == init;
      hide Answers, InternalPath, FirstSame;
    }
  }

  lemma {:induction false} FirstSameLonger(init: seq<Auth>, a: Auth, uri: string)
    ensures FirstSame(init + [a], uri) == if FirstSame(init, uri) < |init| then FirstSame(init, uri) else if a.uri == uri then |init| else |init| + 1
  {
    if |init| > 0 {
      FirstSameLonger(init[1..], a, uri);
      assert (init + [a])[1..] == init[1..] + [a];
    } else {
      assert init + [a] == [a] && [a][1..] == [];
    }
  }

  /** So a context is answered for its own policy if and only if the first context with its auth URI
      has the same policy and no sign-in page of an earlier context had taken the path. */
  lemma AnsweredByOwn(auths: seq<Auth>, i: nat)
    requires i < |auths|
    ensures var path, j := InternalPath(auths[i]), FirstSame(auths, auths[i].uri);
            var who := Answers(Run(auths).blocks, path);
            && j <= i
            && ((who.Some? && who.value.policy == auths[i].policy) <==>
                auths[j].policy == auths[i].policy && path !in Run(auths[..j]).marked)
  {
    AnsweredByFirst(auths, auths[i].uri);
  }

  lemma RunOfTwo(a: Auth, b: Auth)
    ensures Run([a, b]) == Step(Step(NOTHING, a), b) && Run([a]) == Step(NOTHING, a)
  {
    hide Step;
    assert [a, b][..1] == [a] && [a][..0] == [] && Run([a][..0]) == NOTHING;
    assert Run([a]) == Step(Run([a][..0]), a);
  }

  /** Two policies with one auth URI: both contexts are answered for the first. */
  lemma AnsweredForOther(a: Auth, b: Auth)
    requires a.uri == b.uri
    ensures Answers(Run([a, b]).blocks, InternalPath(b)) == Some(a)
  {
    RunOfTwo(a, b);
    SamePath(a, b);
    hide Run;
    AnswersStep(NOTHING, a, InternalPath(b));
    AnswersStep(Step(NOTHING, a), b, InternalPath(b));
  }

  /** A policy that signs in at the path of another leaves that one without a location. */
  lemma NobodyAnswers(a: Auth, b: Auth)
    requires a.uri != b.uri && a.signin == InternalPath(b)
    ensures Answers(Run([a, b]).blocks, InternalPath(b)) == None
  {
    RunOfTwo(a, b);
    SamePath(a, b);
    hide Run;
    assert a.signin != "" by {
      assert InternalPath(b)[0] == '/';
    }
    AnswersStep(NOTHING, a, InternalPath(b));
    AnswersStep(Step(NOTHING, a), b, InternalPath(b));
  }

  // ---- what is generated ----

  /** The context gets locations: no earlier context that does has marked its path, as its own or as
      its sign-in page. */
  ghost predicate Generated(auths: seq<Auth>, i: nat)
    requires i < |auths|
    decreases i
  {
    forall k :: 0 <= k < i && Generated(auths, k) ==>
      auths[k].uri != auths[i].uri && auths[k].signin != "/_external_auth" + auths[i].uri
  }

  ghost predicate MarksPath(a: Auth, path: string) { path == "/_external_auth" + a.uri || (a.signin != "" && path == a.signin) }

  lemma {:induction false} GeneratedPrefix(auths: seq<Auth>, n: nat, i: nat)
    requires i < n <= |auths|
    ensures Generated(auths[..n], i) <==> Generated(auths, i)
    decreases i
  {
    forall k | 0 <= k < i
      ensures Generated(auths[..n], k) <==> Generated(auths, k)
    {
      GeneratedPrefix(auths, n, k);
    }
  }

  /** The marks are those of the contexts that get locations. */
  lemma {:induction false} MarkedExactly(auths: seq<Auth>, n: nat)
    requires n <= |auths|
    ensures forall path :: path in Run(auths[..n]).marked <==> exists k :: 0 <= k < n && Generated(auths, k) && MarksPath(auths[k], path)
    ensures n < |auths| ==> (Generated(auths, n) <==> InternalPath(auths[n]) !in Run(auths[..n]).marked)
  {
    if n > 0 {
      MarkedExactly(auths, n - 1);
      assert auths[..n][..n - 1] == auths[..n - 1] && auths[..n][n - 1] == auths[n - 1];
      var s, a := Run(auths[..n - 1]), auths[n - 1];
      assert Run(auths[..n]) == Step(s, a);
      hide Generated, Run;
      forall path
        ensures path in Step(s, a).marked <==> exists k :: 0 <= k < n && Generated(auths, k) && MarksPath(auths[k], path)
      {
        assert path in Step(s, a).marked <==> path in s.marked || (Generated(auths, n - 1) && MarksPath(a, path));
      }
    }
    if n < |auths| {
      GeneratedUnmarked(auths, n, Run(auths[..n]).marked);
    }
  }

  lemma GeneratedUnmarked(auths: seq<Auth>, n: nat, marked: set<string>)
    requires n < |auths| && forall path :: path in marked <==> exists k :: 0 <= k < n && Generated(auths, k) && MarksPath(auths[k], path)
    ensures Generated(auths, n) <==> InternalPath(auths[n]) !in marked
  {
    var path := InternalPath(auths[n]);
    assert path[0] == '/';
    forall k | 0 <= k < n
      ensures MarksPath(auths[k], path) <==> auths[k].uri == auths[n].uri || auths[k].signin == path
    {
      SamePath(auths[k], auths[n]);
    }
  }

  /** The first context that gets locations and has a page to sign in at. */
  ghost predicate FirstSignIn(auths: seq<Auth>, n: nat, i: nat)
    requires n <= |auths|
  {
    && i < n && Generated(auths, i) && auths[i].signin != ""
    && forall k :: 0 <= k < i && Generated(auths, k) ==> auths[k].signin == ""
  }

  ghost predicate SignsIn(auths: seq<Auth>, n: nat)
    requires n <= |auths|
  {
    exists i: nat :: FirstSignIn(auths, n, i)
  }

  /** A location that the first `n` contexts ask for: that for signing in is at the base path of
      the first context that has a page for it. */
  ghost predicate Wanted(auths: seq<Auth>, n: nat, b: Block)
    requires n <= |auths|
  {
    if b.signin then exists i: nat :: FirstSignIn(auths, n, i) && b == Block(auths[i].base, auths[i], true)
    else exists i :: 0 <= i < n && Generated(auths, i) && b == Block("/_external_auth" + auths[i].uri, auths[i], false)
  }

  lemma WantedStep(auths: seq<Auth>, m: nat, n: nat, b: Block)
    requires n == m + 1 <= |auths|
    ensures var a, own := auths[m], Generated(auths, m);
            && (SignsIn(auths, n) <==> SignsIn(auths, m) || (own && a.signin != ""))
            && (Wanted(auths, n, b) <==>
                  || Wanted(auths, m, b)
                  || (own && b == Block("/_external_auth" + a.uri, a, false))
                  || (own && a.signin != "" && !SignsIn(auths, m) && b == Block(a.base, a, true)))
  {
    hide Generated, FirstSignIn;
    FirstSignInStep(auths, m, n);
    if Generated(auths, m) && auths[m].signin != "" && !SignsIn(auths, m) {
      assert FirstSignIn(auths, n, m);
    }
  }

  /** The locations are exactly those that the contexts ask for: one for the subrequests of every
      context that gets locations, and one for signing in if any of them has a page for it. */
  lemma {:induction false} BlocksExactly(auths: seq<Auth>, n: nat, b: Block)
    requires n <= |auths|
    ensures var s := Run(auths[..n]); (s.signsIn <==> SignsIn(auths, n)) && (b in s.blocks <==> Wanted(auths, n, b))
  {
    if n > 0 {
      var m := n - 1;
      BlocksExactly(auths, m, b);
      MarkedExactly(auths, m);
      assert auths[..n][..m] == auths[..m] && auths[..n][m] == auths[m];
      assert Run(auths[..n]) == Step(Run(auths[..m]), auths[m]);
      hide Generated, Run, Step, SignsIn, Wanted;
      StepBlocks(Run(auths[..m]), auths[m], b);
      WantedStep(auths, m, n, b);
    }
  }

  lemma StepBlocks(s: State, a: Auth, b: Block)
    ensures var t, own := Step(s, a), InternalPath(a) !in s.marked;
            && (t.signsIn <==> s.signsIn || (own && a.signin != ""))
            && (b in t.blocks <==>
                  || b in s.blocks
                  || (own && b == Block("/_external_auth" + a.uri, a, false))
                  || (own && a.signin != "" && !s.signsIn && b == Block(a.base, a, true)))
  {
  }

  lemma FirstSignInStep(auths: seq<Auth>, m: nat, n: nat)
    requires n == m + 1 <= |auths|
    ensures var before := exists i: nat :: FirstSignIn(auths, m, i);
            var own := Generated(auths, m) && auths[m].signin != "";
            forall i: nat :: FirstSignIn(auths, n, i) <==> FirstSignIn(auths, m, i) || (i == m && own && !before)
  {
    hide Generated;
    if k: nat :| k < m && Generated(auths, k) && auths[k].signin != "" {
      var i := EarliestSignIn(auths, m, k);
    }
  }

  lemma {:induction false} EarliestSignIn(auths: seq<Auth>, n: nat, k: nat) returns (i: nat)
    requires k < n <= |auths| && Generated(auths, k) && auths[k].signin != ""
    ensures FirstSignIn(auths, n, i)
    decreases k
  {
    hide Generated;
    if j :| 0 <= j < k && Generated(auths, j) && auths[j].signin != "" {
      i := EarliestSignIn(auths, n, j);
    } else {
      i := k;
    }
  }

  // ---- no path twice ----

  function Paths(blocks: seq<Block>): seq<string> { seq(|blocks|, i requires 0 <= i < |blocks| => blocks[i].path) }

  /** What every run keeps: at most one sign-in location, and the others at different marked paths. */
  ghost predicate Valid(s: State) {
    && (forall i :: 0 <= i < |s.blocks| && !s.blocks[i].signin ==> s.blocks[i].path in s.marked && StartsWith(s.blocks[i].path, "/_external_auth"))
    && (forall i, j :: 0 <= i < j < |s.blocks| && !s.blocks[i].signin && !s.blocks[j].signin ==> s.blocks[i].path != s.blocks[j].path)
    && (forall i, j :: 0 <= i < j < |s.blocks| ==> !s.blocks[i].signin || !s.blocks[j].signin)
    && ((exists i :: 0 <= i < |s.blocks| && s.blocks[i].signin) ==> s.signsIn)
  }

  lemma StepValid(s: State, a: Auth)
    requires Valid(s)
    ensures Valid(Step(s, a))
  {
    var t := Step(s, a);
    hide InternalPath;
    InternalStart(a);
    if InternalPath(a) !in s.marked {
      assert forall i :: 0 <= i < |s.blocks| ==> t.blocks[i] == s.blocks[i];
      assert t.blocks[|s.blocks|] == Block(InternalPath(a), a, false);
      if a.signin != "" && !s.signsIn {
        assert t.blocks[|s.blocks| + 1] == Block(a.base, a, true);
      }
    }
  }

  lemma InternalStart(a: Auth)
    ensures StartsWith(InternalPath(a), "/_external_auth")
  {
  }

  lemma {:induction false} RunValid(auths: seq<Auth>)
    ensures Valid(Run(auths))
  {
    if |auths| > 0 {
      RunValid(auths[..|auths| - 1]);
      StepValid(Run(auths[..|auths| - 1]), auths[|auths| - 1]);
    }
  }

  /** No two locations have the same path if and only if the sign-in location is not at the path of
      another policy's subrequests. */
  lemma PathsUnique(auths: seq<Auth>)
    ensures var blocks := Run(auths).blocks;
            Unique(Paths(blocks)) <==> forall i, j :: 0 <= i < |blocks| && 0 <= j < |blocks| && blocks[i].signin && !blocks[j].signin ==> blocks[i].path != blocks[j].path
  {
    RunValid(auths);
    var blocks := Run(auths).blocks;
    hide Run;
    var ps := Paths(blocks);
    if Unique(ps) {
      forall i, j | 0 <= i < |blocks| && 0 <= j < |blocks| && blocks[i].signin && !blocks[j].signin
        ensures blocks[i].path != blocks[j].path
      {
        assert ps[i] == blocks[i].path && ps[j] == blocks[j].path;
      }
    }
  }
}
