/**
 Idempotency keys of the in-memory executor.  Scope, name and key are joined with NUL bytes; this module says for which
 texts the joined key tells operations apart.
 */
module MemoryKeys {
  import opened Operations
  import opened Text
  import opened MemoryExecutor
  import opened MemoryTheorems

  predicate NulFree(s: string) {
    forall i :: 0 <= i < |s| ==> s[i] != '\0'
  }

  predicate NulFreeTriple(t: Triple) {
    NulFree(t.scope) && NulFree(t.name) && NulFree(t.key)
  }

  // ----- joined keys and where they are cut -----

  /** Positions of the two separators in the joined key. */
  function FirstCut(t: Triple): nat {
    |t.scope|
  }

  function SecondCut(t: Triple): nat {
    |t.scope| + 1 + |t.name|
  }

  /** The triple whose separators are at `x` and `y`. */
  function CutAt(joined: string, x: nat, y: nat): Triple
    requires x < y < |joined|
  {
    Triple(joined[..x], joined[x + 1..y], joined[y + 1..])
  }

  lemma JoinCuts(t: Triple)
    ensures FirstCut(t) < SecondCut(t) < |Join(t)|
    ensures Join(t)[FirstCut(t)] == '\0' && Join(t)[SecondCut(t)] == '\0'
    ensures CutAt(Join(t), FirstCut(t), SecondCut(t)) == t
  {
    var joined := Join(t);
    assert joined == t.scope + ("\0" + t.name + "\0" + t.key);
    assert joined[..|t.scope|] == t.scope;
    assert joined[|t.scope| + 1..SecondCut(t)] == t.name;
    assert joined[SecondCut(t) + 1..] == t.key;
  }

  lemma CutJoins(joined: string, x: nat, y: nat)
    requires x < y < |joined| && joined[x] == '\0' && joined[y] == '\0'
    ensures Join(CutAt(joined, x, y)) == joined
    ensures FirstCut(CutAt(joined, x, y)) == x && SecondCut(CutAt(joined, x, y)) == y
  {
    assert joined == joined[..x] + [joined[x]] + joined[x + 1..y] + [joined[y]] + joined[y + 1..];
  }

  /** Where a NUL in a joined key comes from. */
  lemma NulsOf(t: Triple, i: nat)
    requires i < |Join(t)| && Join(t)[i] == '\0' && i != FirstCut(t) && i != SecondCut(t)
    ensures !NulFreeTriple(t)
  {
    JoinCuts(t);
    if i < FirstCut(t) {
      assert t.scope[i] == '\0';
    } else if i < SecondCut(t) {
      assert t.name[i - FirstCut(t) - 1] == '\0';
    } else {
      assert t.key[i - SecondCut(t) - 1] == '\0';
    }
  }

  /** One NUL-free triple is enough: nothing else has its joined key. */
  lemma JoinInjective(t: Triple, u: Triple)
    requires NulFreeTriple(t)
    ensures Join(t) == Join(u) <==> t == u
  {
    if Join(t) == Join(u) {
      JoinCuts(t);
      JoinCuts(u);
      if FirstCut(u) != FirstCut(t) && FirstCut(u) != SecondCut(t) {
        NulsOf(t, FirstCut(u));
      }
      if SecondCut(u) != FirstCut(t) && SecondCut(u) != SecondCut(t) {
        NulsOf(t, SecondCut(u));
      }
    }
  }

  /** A triple with a NUL inside a part shares its joined key with another one, cut at that NUL. */
  lemma JoinCollides(t: Triple) returns (u: Triple)
    requires !NulFreeTriple(t)
    ensures u != t && Join(u) == Join(t)
  {
    JoinCuts(t);
    var joined, p, q := Join(t), FirstCut(t), SecondCut(t);
    var r := NulInside(t);
    if r < q {
      CutJoins(joined, r, q);
      u := CutAt(joined, r, q);
    } else {
      CutJoins(joined, p, r);
      u := CutAt(joined, p, r);
    }
  }

  lemma NulInside(t: Triple) returns (r: nat)
    requires !NulFreeTriple(t)
    ensures r < |Join(t)| && Join(t)[r] == '\0' && r != FirstCut(t) && r != SecondCut(t)
  {
    JoinCuts(t);
    if !NulFree(t.scope) {
      var i :| 0 <= i < |t.scope| && t.scope[i] == '\0';
      return i;
    }
    if !NulFree(t.name) {
      var i :| 0 <= i < |t.name| && t.name[i] == '\0';
      assert Join(t)[FirstCut(t) + 1 + i] == '\0';
      return FirstCut(t) + 1 + i;
    }
    var i :| 0 <= i < |t.key| && t.key[i] == '\0';
    assert Join(t)[SecondCut(t) + 1 + i] == '\0';
    return SecondCut(t) + 1 + i;
  }

  /** The joined key identifies a triple if and only if no part has a NUL. */
  lemma JoinIdentifiesIff(t: Triple)
    ensures NulFreeTriple(t) <==> forall u :: Join(u) == Join(t) ==> u == t
  {
    if NulFreeTriple(t) {
      forall u | Join(u) == Join(t) ensures u == t {
        JoinInjective(t, u);
      }
    } else {
      var u := JoinCollides(t);
    }
  }

  // ----- answers -----

  /** Keyed submissions get the same operation if and only if their joined keys agree, whatever the texts. */
  lemma OneOperationPerJoin(init: Exec, steps: seq<Step>, s: Exec, i: nat, j: nat)
    requires Reached(init, steps, s) && i < |s.answers| && j < |s.answers|
    ensures s.answers[i].id == s.answers[j].id <==> Join(s.answers[i].triple) == Join(s.answers[j].triple)
  {
    ReachedInv(init, steps, s);
  }

  /** When one of the two has no NUL, they get the same operation if and only if scope, name and key agree. */
  lemma OneOperationPerTriple(init: Exec, steps: seq<Step>, s: Exec, i: nat, j: nat)
    requires Reached(init, steps, s) && i < |s.answers| && j < |s.answers|
    requires NulFreeTriple(s.answers[i].triple) || NulFreeTriple(s.answers[j].triple)
    ensures s.answers[i].id == s.answers[j].id <==> s.answers[i].triple == s.answers[j].triple
  {
    OneOperationPerJoin(init, steps, s, i, j);
    if NulFreeTriple(s.answers[i].triple) {
      JoinInjective(s.answers[i].triple, s.answers[j].triple);
    } else {
      JoinInjective(s.answers[j].triple, s.answers[i].triple);
    }
  }

  // ----- which texts are answered with another one's operation -----

  /** A keyed triple as Submit forms it from trimmed texts. */
  predicate Submittable(t: Triple) {
    && t.scope != "" && t.name != "" && t.key != ""
    && Trimmed(t.scope) && Trimmed(t.name) && Trimmed(t.key)
  }

  /** In some run the triple is answered with the operation of a different one. */
  ghost predicate Shared(t: Triple) {
    exists init, steps, s, i: nat, j: nat ::
      && Reached(init, steps, s) && i < |s.answers| && j < |s.answers|
      && s.answers[i].triple == t && Submittable(s.answers[j].triple) && s.answers[j].triple != t
      && s.answers[i].id == s.answers[j].id
  }

  /**
   A NUL with text on both sides and no white space next to it: texts on either side stay as they are when trimmed.
   */
  predicate Boundary(joined: string, r: int) {
    0 < r < |joined| - 1 && joined[r] == '\0' && !IsSpace(joined[r - 1]) && !IsSpace(joined[r + 1])
  }

  /** The joined key has a boundary inside a part, other than a name that is a NUL and nothing else. */
  predicate Ambiguous(t: Triple) {
    exists r :: 0 <= r < |Join(t)|
      && Boundary(Join(t), r) && r != FirstCut(t) && r != SecondCut(t)
      && !(t.name == "\0" && r == FirstCut(t) + 1)
  }

  /** Cutting at two boundaries that are not adjacent gives a triple that can be submitted, and the other way round. */
  lemma SubmittableCut(joined: string, x: nat, y: nat)
    requires x < y < |joined| && joined[x] == '\0' && joined[y] == '\0'
    requires !IsSpace(joined[0]) && !IsSpace(joined[|joined| - 1])
    ensures Submittable(CutAt(joined, x, y)) <==> Boundary(joined, x) && Boundary(joined, y) && y > x + 1
  {
    var u := CutAt(joined, x, y);
    if 0 < x {
      assert u.scope[0] == joined[0] && u.scope[|u.scope| - 1] == joined[x - 1];
    }
    if x + 1 < y {
      assert u.name[0] == joined[x + 1] && u.name[|u.name| - 1] == joined[y - 1];
    }
    if y + 1 < |joined| {
      assert u.key[0] == joined[y + 1] && u.key[|u.key| - 1] == joined[|joined| - 1];
    }
  }

  lemma JoinEnds(t: Triple)
    requires Submittable(t)
    ensures !IsSpace(Join(t)[0]) && !IsSpace(Join(t)[|Join(t)| - 1])
    ensures Boundary(Join(t), FirstCut(t)) && Boundary(Join(t), SecondCut(t)) && SecondCut(t) > FirstCut(t) + 1
  {
    JoinCuts(t);
    assert Join(t)[0] == t.scope[0] && Join(t)[|Join(t)| - 1] == t.key[|t.key| - 1];
    SubmittableCut(Join(t), FirstCut(t), SecondCut(t));
  }

  /** Next to a third boundary, one of the two separators can stay. */
  lemma OtherCuts(t: Triple, r: nat) returns (x: nat, y: nat)
    requires FirstCut(t) + 1 < SecondCut(t) && r != FirstCut(t) && r != SecondCut(t)
    requires r == FirstCut(t) + 1 ==> r != SecondCut(t) - 1
    ensures x + 1 < y && (x != FirstCut(t) || y != SecondCut(t))
    ensures {x, y} <= {FirstCut(t), SecondCut(t), r}
  {
    if r < SecondCut(t) - 1 {
      return r, SecondCut(t);
    }
    return FirstCut(t), r;
  }

  lemma CollidingCut(t: Triple, x: nat, y: nat) returns (u: Triple)
    requires Submittable(t) && x + 1 < y && (x != FirstCut(t) || y != SecondCut(t))
    requires Boundary(Join(t), x) && Boundary(Join(t), y)
    ensures Submittable(u) && u != t && Join(u) == Join(t)
  {
    JoinEnds(t);
    CutJoins(Join(t), x, y);
    SubmittableCut(Join(t), x, y);
    u := CutAt(Join(t), x, y);
  }

  lemma NulName(t: Triple)
    requires Join(t)[FirstCut(t) + 1] == '\0' && SecondCut(t) == FirstCut(t) + 2
    ensures t.name == "\0"
  {
    JoinCuts(t);
    assert t.name == [Join(t)[FirstCut(t) + 1]];
  }

  lemma AmbiguousCollides(t: Triple) returns (u: Triple)
    requires Submittable(t) && Ambiguous(t)
    ensures Submittable(u) && u != t && Join(u) == Join(t)
  {
    JoinEnds(t);
    var r: nat :| r < |Join(t)| && Boundary(Join(t), r) && r != FirstCut(t) && r != SecondCut(t)
                  && !(t.name == "\0" && r == FirstCut(t) + 1);
    if r == FirstCut(t) + 1 == SecondCut(t) - 1 {
      NulName(t);
    }
    var x, y := OtherCuts(t, r);
    u := CollidingCut(t, x, y);
  }

  lemma CollidesAmbiguous(t: Triple, u: Triple)
    requires Submittable(t) && Submittable(u) && u != t && Join(u) == Join(t)
    ensures Ambiguous(t)
  {
    JoinCuts(t);
    JoinCuts(u);
    JoinEnds(t);
    JoinEnds(u);
    var p, q, x, y := FirstCut(t), SecondCut(t), FirstCut(u), SecondCut(u);
    var r := if x != p && x != q && !(t.name == "\0" && x == p + 1) then x else y;
    assert Boundary(Join(t), r);
  }

  lemma StepFirst(s: Exec, step: Step, rest: seq<Step>)
    requires Enabled(s, step) && Legal(Apply(s, step), rest)
    ensures Legal(s, [step] + rest) && After(s, [step] + rest) == After(Apply(s, step), rest)
  {
    assert ([step] + rest)[0] == step && ([step] + rest)[1..] == rest;
  }

  /**
   Two submissions with one joined key, one after the other: the second is answered with the first one's operation.
   */
  lemma SharedRun(t: Triple, u: Triple) returns (init: Exec, steps: seq<Step>, s: Exec)
    requires Submittable(t) && Submittable(u) && Join(t) == Join(u)
    ensures Reached(init, steps, s) && s.answers == [Answer(t, "op"), Answer(u, "op")]
  {
    var none := Metrics(0, 0, 0, 0, 0, 0, 0);
    init := Exec(1, 1, {t.name, u.name}, Created, map[], map[], [], false, [], none, false, [], [], [], []);
    var start, first, second := Step.Start, Submit(t, "op"), Submit(u, "other");
    var a := Apply(init, start);
    assert a.operations == map[];
    var b := Apply(a, first);
    assert SubmitAnswer(a, t, "op") == Accepted("op");
    assert b.operations.Keys == {"op"};
    s := Apply(b, second);
    assert SubmitAnswer(b, u, "other") == Existing("op");
    assert s.answers == [Answer(t, "op")] + [Answer(u, "op")];
    StepFirst(b, second, []);
    StepFirst(a, first, [second] + []);
    StepFirst(init, start, [first] + ([second] + []));
    steps := [start] + ([first] + ([second] + []));
  }

  /**
   A submittable triple is answered with the operation of a different one in some run if and only if it is ambiguous.
   In particular texts without NUL never are.
   */
  lemma SharedIff(t: Triple)
    requires Submittable(t)
    ensures Shared(t) <==> Ambiguous(t)
  {
    if Ambiguous(t) {
      var u := AmbiguousCollides(t);
      var init, steps, s := SharedRun(t, u);
      assert s.answers[0].triple == t && s.answers[1].triple == u;
    }
    if Shared(t) {
      var init, steps, s, i: nat, j: nat :|
        && Reached(init, steps, s) && i < |s.answers| && j < |s.answers|
        && s.answers[i].triple == t && Submittable(s.answers[j].triple) && s.answers[j].triple != t
        && s.answers[i].id == s.answers[j].id;
      OneOperationPerJoin(init, steps, s, i, j);
      CollidesAmbiguous(t, s.answers[j].triple);
    }
  }
}
