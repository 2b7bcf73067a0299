/** What the walk collects, stated in terms of paths; and why cutting it loses no winner. */
module JsonPaths {
  import opened Prelude
  import opened JsonWalk

  // ----- the cut walk collects exactly the simple paths -----

  /** A path from field `i` on, below a type that is already being visited. */
  predicate SimpleFrom(g: Graph, t: TypeId, p: seq<nat>, visiting: set<TypeId>, i: nat)
    requires Closed(g) && t in g
  {
    p != [] && i <= p[0] < |g[t]| &&
    (|p| > 1 && KindOf(g[t][p[0]]).Embed? ==> Simple(g, KindOf(g[t][p[0]]).target, p[1..], visiting))
  }

  lemma {:induction false} CollectHas(g: Graph, t: TypeId, parent: seq<nat>, visiting: set<TypeId>, p: seq<nat>)
    requires Closed(g) && t in g && visiting <= g.Keys && Follow(g, t, p).Some? && Simple(g, t, p, visiting)
    ensures IsBad(g, t, p) ==> Collect(g, t, parent, visiting).NonportableTag?
    ensures IsLeaf(g, t, p) && Collect(g, t, parent, visiting).Fields? ==>
              CandidateAt(g, t, parent, p) in Collect(g, t, parent, visiting).fields
    decreases |p|, 1, 0
  {
    CollectFromHas(g, t, parent, visiting + {t}, 0, p);
  }

  lemma {:induction false} CollectFromHas(g: Graph, t: TypeId, parent: seq<nat>, visiting: set<TypeId>, i: nat,
      p: seq<nat>)
    requires Closed(g) && t in g && visiting <= g.Keys && i <= |g[t]|
    requires Follow(g, t, p).Some? && SimpleFrom(g, t, p, visiting, i)
    ensures IsBad(g, t, p) ==> CollectFrom(g, t, parent, visiting, i).NonportableTag?
    ensures IsLeaf(g, t, p) && CollectFrom(g, t, parent, visiting, i).Fields? ==>
              CandidateAt(g, t, parent, p) in CollectFrom(g, t, parent, visiting, i).fields
    decreases |p|, 0, |g[t]| - i
  {
    if p[0] > i {
      CollectFromHas(g, t, parent, visiting, i + 1, p);
    } else if |p| > 1 {
      var u := KindOf(g[t][i]).target;
      CollectHas(g, u, parent + [i], visiting, p[1..]);
      assert parent + [i] + p[1..] == parent + p;
    } else {
      assert p == [i];
    }
  }

  lemma {:induction false} CollectedPath(g: Graph, t: TypeId, parent: seq<nat>, visiting: set<TypeId>, c: Candidate)
    returns (p: seq<nat>)
    requires Closed(g) && t in g && visiting <= g.Keys
    requires Collect(g, t, parent, visiting).Fields? && c in Collect(g, t, parent, visiting).fields
    ensures IsLeaf(g, t, p) && Simple(g, t, p, visiting) && c == CandidateAt(g, t, parent, p)
    decreases |g.Keys - visiting|, 0, 0
  {
    assert g.Keys - (visiting + {t}) == g.Keys - visiting - {t};
    p := CollectedAt(g, t, parent, visiting + {t}, 0, c);
  }

  lemma {:induction false} CollectedAt(g: Graph, t: TypeId, parent: seq<nat>, visiting: set<TypeId>, i: nat,
      c: Candidate)
    returns (p: seq<nat>)
    requires Closed(g) && t in g && visiting <= g.Keys && i <= |g[t]|
    requires CollectFrom(g, t, parent, visiting, i).Fields? && c in CollectFrom(g, t, parent, visiting, i).fields
    ensures IsLeaf(g, t, p) && SimpleFrom(g, t, p, visiting, i) && c == CandidateAt(g, t, parent, p)
    decreases |g.Keys - visiting|, 1, |g[t]| - i
  {
    var rest := CollectFrom(g, t, parent, visiting, i + 1);
    if c in rest.fields {
      p := CollectedAt(g, t, parent, visiting, i + 1, c);
    } else if KindOf(g[t][i]).Embed? {
      var u := KindOf(g[t][i]).target;
      var q := CollectedPath(g, u, parent + [i], visiting, c);
      p := [i] + q;
      assert p[1..] == q && parent + [i] + q == parent + p;
    } else {
      p := [i];
    }
  }

  lemma {:induction false} CollectBadAt(g: Graph, t: TypeId, parent: seq<nat>, visiting: set<TypeId>)
      returns (p: seq<nat>)
    requires Closed(g) && t in g && visiting <= g.Keys && Collect(g, t, parent, visiting).NonportableTag?
    ensures IsBad(g, t, p) && Simple(g, t, p, visiting)
    decreases |g.Keys - visiting|, 0, 0
  {
    assert g.Keys - (visiting + {t}) == g.Keys - visiting - {t};
    p := BadAt(g, t, parent, visiting + {t}, 0);
  }

  lemma {:induction false} BadAt(g: Graph, t: TypeId, parent: seq<nat>, visiting: set<TypeId>, i: nat)
      returns (p: seq<nat>)
    requires Closed(g) && t in g && visiting <= g.Keys && i <= |g[t]|
    requires CollectFrom(g, t, parent, visiting, i).NonportableTag?
    ensures IsBad(g, t, p) && SimpleFrom(g, t, p, visiting, i)
    decreases |g.Keys - visiting|, 1, |g[t]| - i
  {
    if KindOf(g[t][i]).Bad? {
      p := [i];
    } else if KindOf(g[t][i]).Embed? && Collect(g, KindOf(g[t][i]).target, parent + [i], visiting).NonportableTag? {
      var q := CollectBadAt(g, KindOf(g[t][i]).target, parent + [i], visiting);
      p := [i] + q;
      assert p[1..] == q;
    } else {
      p := BadAt(g, t, parent, visiting, i + 1);
    }
  }

  // ----- the uncut walk collects exactly the paths within its depth -----

  lemma {:induction false} UncutHas(g: Graph, t: TypeId, parent: seq<nat>, depth: nat, p: seq<nat>)
    requires Closed(g) && t in g && Follow(g, t, p).Some? && |p| <= depth
    ensures IsBad(g, t, p) ==> Uncut(g, t, parent, depth).NonportableTag?
    ensures IsLeaf(g, t, p) && Uncut(g, t, parent, depth).Fields? ==>
              CandidateAt(g, t, parent, p) in Uncut(g, t, parent, depth).fields
    decreases |p|, 1, 0
  {
    UncutFromHas(g, t, parent, depth - 1, 0, p);
  }

  lemma {:induction false} UncutFromHas(g: Graph, t: TypeId, parent: seq<nat>, depth: nat, i: nat, p: seq<nat>)
    requires Closed(g) && t in g && i <= |g[t]|
    requires Follow(g, t, p).Some? && i <= p[0] && |p| <= depth + 1
    ensures IsBad(g, t, p) ==> UncutFrom(g, t, parent, depth, i).NonportableTag?
    ensures IsLeaf(g, t, p) && UncutFrom(g, t, parent, depth, i).Fields? ==>
              CandidateAt(g, t, parent, p) in UncutFrom(g, t, parent, depth, i).fields
    decreases |p|, 0, |g[t]| - i
  {
    if p[0] > i {
      UncutFromHas(g, t, parent, depth, i + 1, p);
    } else if |p| > 1 {
      var u := KindOf(g[t][i]).target;
      UncutHas(g, u, parent + [i], depth, p[1..]);
      assert parent + [i] + p[1..] == parent + p;
    } else {
      assert p == [i];
    }
  }

  lemma {:induction false} UncutAt(g: Graph, t: TypeId, parent: seq<nat>, depth: nat, c: Candidate)
      returns (p: seq<nat>)
    requires Closed(g) && t in g && Uncut(g, t, parent, depth).Fields? && c in Uncut(g, t, parent, depth).fields
    ensures IsLeaf(g, t, p) && |p| <= depth && c == CandidateAt(g, t, parent, p)
    decreases depth, 0, 0
  {
    p := UncutFromAt(g, t, parent, depth - 1, 0, c);
  }

  lemma {:induction false} UncutFromAt(g: Graph, t: TypeId, parent: seq<nat>, depth: nat, i: nat, c: Candidate)
      returns (p: seq<nat>)
    requires Closed(g) && t in g && i <= |g[t]|
    requires UncutFrom(g, t, parent, depth, i).Fields? && c in UncutFrom(g, t, parent, depth, i).fields
    ensures IsLeaf(g, t, p) && |p| <= depth + 1 && c == CandidateAt(g, t, parent, p)
    decreases depth, 1, |g[t]| - i
  {
    if c in UncutFrom(g, t, parent, depth, i + 1).fields {
      p := UncutFromAt(g, t, parent, depth, i + 1, c);
    } else if KindOf(g[t][i]).Embed? {
      var q := UncutAt(g, KindOf(g[t][i]).target, parent + [i], depth, c);
      p := [i] + q;
      assert p[1..] == q && parent + [i] + q == parent + p;
    } else {
      p := [i];
    }
  }

  lemma {:induction false} UncutBadAt(g: Graph, t: TypeId, parent: seq<nat>, depth: nat) returns (p: seq<nat>)
    requires Closed(g) && t in g && Uncut(g, t, parent, depth).NonportableTag?
    ensures IsBad(g, t, p) && |p| <= depth
    decreases depth, 0, 0
  {
    p := UncutFromBadAt(g, t, parent, depth - 1, 0);
  }

  lemma {:induction false} UncutFromBadAt(g: Graph, t: TypeId, parent: seq<nat>, depth: nat, i: nat)
      returns (p: seq<nat>)
    requires Closed(g) && t in g && i <= |g[t]| && UncutFrom(g, t, parent, depth, i).NonportableTag?
    ensures IsBad(g, t, p) && |p| <= depth + 1
    decreases depth, 1, |g[t]| - i
  {
    if KindOf(g[t][i]).Bad? {
      p := [i];
    } else if KindOf(g[t][i]).Embed? && Uncut(g, KindOf(g[t][i]).target, parent + [i], depth).NonportableTag? {
      var q := UncutBadAt(g, KindOf(g[t][i]).target, parent + [i], depth);
      p := [i] + q;
      assert p[1..] == q;
    } else {
      p := UncutFromBadAt(g, t, parent, depth, i + 1);
    }
  }

  // ----- twins -----

  /**
   A path that is not simple either enters a type of `visiting`, from where `q` goes on to the same end,
   or it enters some other type twice: leaving out the loop gives a strictly shorter path.
   */
  lemma {:induction false} Shortcut(g: Graph, t: TypeId, p: seq<nat>, visiting: set<TypeId>, k: Kind)
    returns (shorter: bool, q: seq<nat>, again: TypeId)
    requires Closed(g) && t in g && Follow(g, t, p) == Some(k) && !Simple(g, t, p, visiting)
    ensures shorter ==> |q| < |p| && Follow(g, t, q) == Some(k)
    ensures !shorter ==> again in visiting && again in g && |q| <= |p| && Follow(g, again, q) == Some(k)
    decreases |p|
  {
    if t in visiting {
      return false, p, t;
    }
    shorter, q, again := Shortcut(g, KindOf(g[t][p[0]]).target, p[1..], visiting + {t}, k);
    if shorter {
      var longer := [p[0]] + q;
      assert longer[1..] == q;
      q := longer;
    } else if again == t {
      shorter := true;
    }
  }

  /** Every path has a simple one with the same end that is shorter, unless the path is simple itself. */
  lemma {:induction false} Twin(g: Graph, t: TypeId, p: seq<nat>, k: Kind) returns (q: seq<nat>)
    requires Closed(g) && t in g && Follow(g, t, p) == Some(k)
    ensures Follow(g, t, q) == Some(k) && Simple(g, t, q, {})
    ensures q == p || (!Simple(g, t, p, {}) && |q| < |p|)
    decreases |p|
  {
    if Simple(g, t, p, {}) {
      q := p;
    } else {
      var _, shorter, _ := Shortcut(g, t, p, {}, k);
      q := Twin(g, t, shorter, k);
    }
  }

  /** A simple path is no longer than the number of types. */
  lemma {:induction false} SimpleIsShort(g: Graph, t: TypeId, p: seq<nat>, visiting: set<TypeId>)
    requires Closed(g) && t in g && visiting <= g.Keys && Follow(g, t, p).Some? && Simple(g, t, p, visiting)
    ensures |p| <= |g.Keys - visiting|
    decreases |p|
  {
    assert g.Keys - (visiting + {t}) == g.Keys - visiting - {t};
    if |p| > 1 {
      SimpleIsShort(g, KindOf(g[t][p[0]]).target, p[1..], visiting + {t});
    }
  }

  // ----- order -----

  /** slices.Compare(a, b) < 0. */
  predicate Before(a: seq<nat>, b: seq<nat>) {
    b != [] && (a == [] || a[0] < b[0] || (a[0] == b[0] && Before(a[1..], b[1..])))
  }

  lemma {:induction false} BeforePrefix(parent: seq<nat>, x: seq<nat>, y: seq<nat>)
    ensures Before(parent + x, parent + y) <==> Before(x, y)
    decreases |parent|
  {
    if parent == [] {
      assert parent + x == x && parent + y == y;
    } else {
      BeforePrefix(parent[1..], x, y);
      assert (parent + x)[1..] == parent[1..] + x && (parent + y)[1..] == parent[1..] + y;
    }
  }

  predicate InIndexOrder(cs: seq<Candidate>) {
    forall i, j :: 0 <= i < j < |cs| ==> Before(cs[i].index, cs[j].index)
  }

  lemma {:induction false} CollectInOrder(g: Graph, t: TypeId, parent: seq<nat>, visiting: set<TypeId>)
    requires Closed(g) && t in g && visiting <= g.Keys && Collect(g, t, parent, visiting).Fields?
    ensures InIndexOrder(Collect(g, t, parent, visiting).fields)
    decreases |g.Keys - visiting|, 0, 0
  {
    if t !in visiting {
      assert g.Keys - (visiting + {t}) == g.Keys - visiting - {t};
      CollectFromInOrder(g, t, parent, visiting + {t}, 0);
    }
  }

  lemma {:induction false} CollectFromInOrder(g: Graph, t: TypeId, parent: seq<nat>, visiting: set<TypeId>, i: nat)
    requires Closed(g) && t in g && visiting <= g.Keys && i <= |g[t]|
    requires CollectFrom(g, t, parent, visiting, i).Fields?
    ensures InIndexOrder(CollectFrom(g, t, parent, visiting, i).fields)
    decreases |g.Keys - visiting|, 1, |g[t]| - i
  {
    if i < |g[t]| {
      var rest := CollectFrom(g, t, parent, visiting, i + 1).fields;
      CollectFromInOrder(g, t, parent, visiting, i + 1);
      match KindOf(g[t][i])
      case Embed(u) =>
        var first := Collect(g, u, parent + [i], visiting).fields;
        CollectInOrder(g, u, parent + [i], visiting);
        forall a, b | a in first && b in rest ensures Before(a.index, b.index) {
          var p := CollectedPath(g, u, parent + [i], visiting, a);
          EarlierField(g, t, parent, visiting, i, [i] + p, b);
          assert parent + [i] + p == parent + ([i] + p);
        }
        assert CollectFrom(g, t, parent, visiting, i).fields == first + rest;
      case Leaf(name, tagged) =>
        forall b | b in rest ensures Before(parent + [i], b.index) {
          EarlierField(g, t, parent, visiting, i, [i], b);
        }
        assert CollectFrom(g, t, parent, visiting, i).fields == [Candidate(name, parent + [i], tagged)] + rest;
      case Skip =>
        assert CollectFrom(g, t, parent, visiting, i).fields == [] + rest == rest;
    }
  }

  lemma EarlierField(g: Graph, t: TypeId, parent: seq<nat>, visiting: set<TypeId>, i: nat, x: seq<nat>, b: Candidate)
    requires Closed(g) && t in g && visiting <= g.Keys && i < |g[t]| && x != [] && x[0] == i
    requires CollectFrom(g, t, parent, visiting, i + 1).Fields? &&
        b in CollectFrom(g, t, parent, visiting, i + 1).fields
    ensures Before(parent + x, b.index)
  {
    var p := CollectedAt(g, t, parent, visiting, i + 1, b);
    BeforePrefix(parent, x, p);
  }
}
