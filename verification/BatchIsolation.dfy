/** Isolating the bad files of a batch: when the whole tree does not validate, files are taken
    out one at a time, found by the path in the error message or by binary search. */
module BatchIsolation {
  import opened Text

  lemma ElementsSplit(s: seq<string>, i: nat)
    requires i <= |s|
    ensures Elements(s) == Elements(s[..i]) + Elements(s[i..])
  {
    assert s == s[..i] + s[i..];
  }

  /** How isolation ends: with a valid tree, with a file that cannot be taken out, or with no
      file left and the tree still invalid. */
  datatype Ending = Valid | Aborted(file: string) | Exhausted

  class Manager {
    /** The batch files that NGINX sees; a disabled file is not one of them. */
    var visible: set<string>
    var tracked: set<string>
    var excluded: seq<string>
    /** Whether the tree with these batch files validates. Nothing is assumed about it: files
        may depend on each other, and the files from before the batch may be bad. */
    const passes: set<string> -> bool
    /** The tracked path that the error message for a set of files names, if any. */
    const named: set<string> -> Option<string>
    /** Whether a file can be taken out after the ones already excluded, */
    const canExclude: (seq<string>, string) -> bool
    /** and whether it can be deleted in the final clean-up. */
    const canRemove: string -> bool

    /** Files that do not depend on each other: each is good or bad by itself. */
    ghost predicate Independent() {
      forall s: set<string> {:trigger passes(s)} :: passes(s) <==> passes({}) && forall f :: f in s ==> passes({f})
    }

    /** NGINX's messages name files that are bad. */
    ghost predicate Truthful() {
      forall s: set<string>, f :: named(s) == Some(f) && f in s && passes({}) ==> !passes({f})
    }

    constructor (files: set<string>, passes: set<string> -> bool, named: set<string> -> Option<string>,
                 canExclude: (seq<string>, string) -> bool, canRemove: string -> bool)
      ensures visible == tracked == files && excluded == []
      ensures this.passes == passes && this.named == named && this.canExclude == canExclude && this.canRemove == canRemove
    {
      visible, tracked, excluded := files, files, [];
      this.passes, this.named, this.canExclude, this.canRemove := passes, named, canExclude, canRemove;
    }

    /** Everything outside the searched part stays disabled, so that a bad file elsewhere
        cannot lead the search to an innocent one. */
    method BinarySearch(candidates: seq<string>) returns (f: string)
      requires |candidates| > 0 && Unique(candidates) && visible == Elements(candidates)
      modifies this`visible
      ensures visible == old(visible)
      ensures f in candidates
      ensures Independent() && passes({}) && !passes(visible) ==> !passes({f})
      decreases |candidates|
    {
      if |candidates| == 1 {
        assert visible == {candidates[0]};
        return candidates[0];
      }
      var mid := |candidates| / 2;
      var first, second := candidates[..mid], candidates[mid..];
      Halves(candidates, mid);
      ghost var all := visible;
      visible := visible - Elements(second);
      assert visible == Elements(first);
      if !passes(visible) {
        f := BinarySearch(first);
        visible := visible + Elements(second);
      } else {
        visible := visible + Elements(second);
        visible := visible - Elements(first);
        assert visible == Elements(second);
        OneHalfBad(all, Elements(first), Elements(second));
        f := BinarySearch(second);
        visible := visible + Elements(first);
      }
      assert visible == all;
    }

    lemma OneHalfBad(all: set<string>, first: set<string>, second: set<string>)
      requires all == first + second
      ensures Independent() && passes(first) && passes(second) ==> passes(all)
    {
    }

    method CandidatePaths() returns (paths: seq<string>)
      ensures Unique(paths) && Elements(paths) == tracked
    {
      paths := [];
      var left := tracked;
      while left != {}
        invariant left <= tracked && Unique(paths) && Elements(paths) == tracked - left
        decreases |left|
      {
        var f :| f in left;
        assert f !in Elements(paths);
        UniqueConcat(paths, [f]);
        ElementsAppend(paths, f);
        left := left - {f};
        paths := paths + [f];
      }
    }

    method Exclude(f: string) returns (ok: bool)
      requires tracked == visible && f in tracked
      modifies this
      ensures ok == canExclude(old(excluded), f)
      ensures ok ==> tracked == visible == old(tracked) - {f} && excluded == old(excluded) + [f]
      ensures !ok ==> tracked == visible == old(tracked) && excluded == old(excluded)
    {
      if !canExclude(excluded, f) {
        return false;
      }
      visible := visible - {f};
      tracked := tracked - {f};
      excluded := excluded + [f];
      return true;
    }

    /** The file that the message names, or else the one that the search ends at. */
    method FindBad() returns (f: string)
      requires tracked == visible && tracked != {} && !passes(visible)
      modifies this`visible
      ensures visible == old(visible)
      ensures f in tracked
      ensures Independent() && Truthful() && passes({}) ==> !passes({f})
    {
      var hint := named(visible);
      if hint.Some? && hint.value in tracked {
        return hint.value;
      }
      var candidates := CandidatePaths();
      assert |candidates| > 0;
      f := BinarySearch(candidates);
      assert f in Elements(candidates);
    }

    /** Nothing is taken out of a valid tree. */
    ghost predicate NeededAll(files: set<string>, taken: seq<string>) {
      forall k :: 0 <= k < |taken| ==> !passes(files - Elements(taken[..k]))
    }

    lemma NeededOneMore(files: set<string>, taken: seq<string>, f: string)
      requires NeededAll(files, taken) && !passes(files - Elements(taken))
      ensures NeededAll(files, taken + [f])
    {
      var more := taken + [f];
      forall k | 0 <= k < |more|
        ensures !passes(files - Elements(more[..k]))
      {
        assert more[..k] == if k < |taken| then taken[..k] else taken;
      }
    }

    ghost predicate Bad(f: string) { passes({}) ==> !passes({f}) }

    /** Whatever the files do to each other: taking out ends with a valid tree, at a file that
        cannot be taken out, or with nothing left of the batch; never at the iteration cap. When
        the files are independent exactly the bad ones are taken out. */
    method IsolateBadConfigs() returns (e: Ending)
      requires tracked == visible && excluded == []
      modifies this
      ensures tracked == visible == old(visible) - Elements(excluded)
      ensures Unique(excluded) && Elements(excluded) <= old(visible) && NeededAll(old(visible), excluded)
      ensures e.Valid? <==> passes(visible)
      ensures e.Exhausted? ==> visible == {}
      ensures e.Aborted? ==> e.file in visible && !canExclude(excluded, e.file)
      ensures Independent() && Truthful() ==> forall f :: f in excluded ==> Bad(f)
      ensures Independent() && Truthful() && !e.Aborted? ==> ExactlyBad(old(visible), excluded, e)
    {
      hide Unique, Elements, Independent, Truthful, NeededAll;
      UniqueEmpty<string>();
      ElementsNone();
      NothingNeeded(visible);
      ghost var files := visible;
      var cap, iter, done := |tracked| + 10, 0, false;
      e := Exhausted;
      while !done && iter < cap
        invariant tracked == visible && Unique(excluded) && NeededAll(files, excluded)
        invariant Elements(excluded) <= files && visible == files - Elements(excluded)
        invariant Independent() && Truthful() ==> forall f :: f in Elements(excluded) ==> Bad(f)
        invariant !done ==> iter + |tracked| == |files|
        invariant done ==> (e.Valid? <==> passes(visible))
        invariant done && e.Exhausted? ==> visible == {}
        invariant done && e.Aborted? ==> e.file in visible && !canExclude(excluded, e.file)
        decreases cap - iter, !done
      {
        iter := iter + 1;
        if passes(visible) {
          e, done := Valid, true;
        } else if tracked == {} {
          e, done := Exhausted, true;
        } else {
          var f := FindBad();
          NewlyExcluded(files, excluded, f);
          NeededOneMore(files, excluded, f);
          var ok := Exclude(f);
          if !ok {
            e, done := Aborted(f), true;
          }
        }
      }
      InElements(excluded);
      if Independent() && Truthful() && !e.Aborted? {
        BadTakenOut(files, excluded, e);
      }
    }

    /** The bad files are taken out and no other; when the rest is bad, that is everything. */
    ghost predicate ExactlyBad(files: set<string>, taken: seq<string>, e: Ending) {
      (e.Valid? <==> passes({})) && Elements(taken) == set f | f in files && Bad(f)
    }

    lemma BadTakenOut(files: set<string>, taken: seq<string>, e: Ending)
      requires Elements(taken) <= files && !e.Aborted?
      requires var left := files - Elements(taken); (e.Valid? <==> passes(left)) && (e.Exhausted? ==> left == {})
      requires forall f :: f in Elements(taken) ==> Bad(f)
      ensures Independent() ==> ExactlyBad(files, taken, e)
    {
      var left := files - Elements(taken);
      if Independent() {
        assert passes(left) ==> passes({}) && forall f :: f in left ==> passes({f});
        if e.Exhausted? {
          assert left == {};
        }
        forall f | f in files
          ensures f in Elements(taken) <==> Bad(f)
        {
          assert f !in Elements(taken) ==> f in left;
        }
      }
    }

    lemma NothingNeeded(files: set<string>)
      ensures NeededAll(files, [])
    {
    }

    /** One test of the whole tree, then isolation; when that fails every batch file that is left
        is deleted. */
    method CompleteBatch() returns (e: Ending)
      requires tracked == visible && excluded == []
      modifies this
      ensures tracked == {} && Unique(excluded) && Elements(excluded) <= old(visible) && NeededAll(old(visible), excluded)
      ensures var left := old(visible) - Elements(excluded);
              && (e.Valid? <==> passes(left))
              && (e.Exhausted? ==> left == {})
              && (e.Aborted? ==> e.file in left && !canExclude(excluded, e.file))
              && visible == if e.Valid? then left else set f | f in left && !canRemove(f)
      ensures Independent() && Truthful() && !e.Aborted? ==> ExactlyBad(old(visible), excluded, e)
    {
      if passes(visible) {
        ElementsNone();
        assert visible - Elements([]) == visible;
        BadTakenOut(visible, [], Valid);
        tracked := {};
        return Valid;
      }
      e := IsolateBadConfigs();
      if !e.Valid? {
        visible := set f | f in visible && !canRemove(f);
      }
      tracked := {};
    }
  }

  lemma InElements(s: seq<string>)
    ensures forall f :: f in s <==> f in Elements(s)
  {
  }

  lemma Halves(s: seq<string>, i: nat)
    requires i <= |s| && Unique(s)
    ensures Unique(s[..i]) && Unique(s[i..])
    ensures Elements(s[..i]) == Elements(s) - Elements(s[i..]) && Elements(s[i..]) == Elements(s) - Elements(s[..i])
  {
    assert s == s[..i] + s[i..];
    UniqueParts(s[..i], s[i..]);
    ElementsSplit(s, i);
  }

  lemma NewlyExcluded(files: set<string>, excluded: seq<string>, f: string)
    requires Unique(excluded) && f in files - Elements(excluded)
    ensures Unique(excluded + [f]) && Elements(excluded + [f]) == Elements(excluded) + {f}
  {
    ElementsAppend(excluded, f);
    assert f !in excluded;
    UniqueConcat(excluded, [f]);
  }
}
