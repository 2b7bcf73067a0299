/** Which collected fields win: the dominance rule, the in-place filter, and its independence of the cut. */
module JsonSelect {
  import opened JsonWalk
  import opened JsonPaths

  // ----- the rule -----

  /** Shallower beats deeper; at equal depth a tagged name beats an untagged one. */
  predicate Beats(a: Candidate, b: Candidate) {
    |a.index| < |b.index| || (|a.index| == |b.index| && a.tagged && !b.tagged)
  }

  /** A candidate wins when it strictly beats every other candidate of its name. */
  predicate Winner(c: Candidate, cs: seq<Candidate>) {
    c in cs && forall d :: d in cs && d != c && d.name == c.name ==> Beats(c, d)
  }

  function Chosen(cs: seq<Candidate>, all: seq<Candidate>): seq<Candidate> {
    if cs == [] then []
    else (if Winner(cs[0], all) then [cs[0]] else []) + Chosen(cs[1..], all)
  }

  /** The winners, in the order of the candidates. */
  function Winners(cs: seq<Candidate>): seq<Candidate> {
    Chosen(cs, cs)
  }

  lemma {:induction false} ChosenHas(cs: seq<Candidate>, all: seq<Candidate>, c: Candidate)
    ensures c in Chosen(cs, all) <==> c in cs && Winner(c, all)
  {
    if cs != [] {
      ChosenHas(cs[1..], all, c);
    }
  }

  lemma {:induction false} ChosenInOrder(cs: seq<Candidate>, all: seq<Candidate>)
    requires InIndexOrder(cs)
    ensures InIndexOrder(Chosen(cs, all))
  {
    if cs != [] {
      ChosenInOrder(cs[1..], all);
      forall c | c in Chosen(cs[1..], all) ensures Before(cs[0].index, c.index) {
        ChosenHas(cs[1..], all, c);
      }
    }
  }

  /** At most one candidate wins per name. */
  lemma OneWinnerPerName(cs: seq<Candidate>, c: Candidate, d: Candidate)
    requires c in Winners(cs) && d in Winners(cs) && c.name == d.name
    ensures c == d
  {
    ChosenHas(cs, cs, c);
    ChosenHas(cs, cs, d);
  }

  lemma {:induction false} BeforeAsymmetric(a: seq<nat>, b: seq<nat>)
    requires Before(a, b)
    ensures a != b && !Before(b, a)
    decreases |a|
  {
    if a != [] && a[0] == b[0] {
      BeforeAsymmetric(a[1..], b[1..]);
    }
  }

  /** Two lists in index order with the same elements are the same list. */
  lemma {:induction false} OrderedUnique(a: seq<Candidate>, b: seq<Candidate>)
    requires InIndexOrder(a) && InIndexOrder(b) && forall c :: c in a <==> c in b
    ensures a == b
    decreases |a|
  {
    if a != [] || b != [] {
      SomeMember(a);
      SomeMember(b);
      assert a[0] in b && b[0] in a;
      if a[0] != b[0] {
        var j :| 0 <= j < |b| && b[j] == a[0];
        var i :| 0 <= i < |a| && a[i] == b[0];
        BeforeAsymmetric(a[0].index, b[0].index);
      }
      TailSame(a, b);
      OrderedUnique(a[1..], b[1..]);
    }
  }

  lemma SomeMember(s: seq<Candidate>)
    ensures s != [] <==> exists c :: c in s
  {
    if s != [] {
      assert s[0] in s;
    }
  }

  lemma TailSame(a: seq<Candidate>, b: seq<Candidate>)
    requires InIndexOrder(a) && InIndexOrder(b) && (forall c :: c in a <==> c in b) && a != [] && b != [] &&
        a[0] == b[0]
    ensures forall c :: c in a[1..] <==> c in b[1..]
  {
    forall c | c in a[1..] ensures c in b[1..] {
      BeforeAsymmetric(a[0].index, c.index);
      NotFirst(b, c);
    }
    forall c | c in b[1..] ensures c in a[1..] {
      BeforeAsymmetric(b[0].index, c.index);
      NotFirst(a, c);
    }
  }

  lemma NotFirst(s: seq<Candidate>, c: Candidate)
    requires s != [] && c in s && c != s[0]
    ensures c in s[1..]
  {
    var i :| 0 <= i < |s| && s[i] == c;
    assert s[1..][i - 1] == c;
  }

  // ----- the cut is invisible -----

  lemma {:induction false} UncutInOrder(g: Graph, t: TypeId, parent: seq<nat>, depth: nat)
    requires Closed(g) && t in g && Uncut(g, t, parent, depth).Fields?
    ensures InIndexOrder(Uncut(g, t, parent, depth).fields)
    decreases depth, 0, 0
  {
    if depth > 0 {
      UncutFromInOrder(g, t, parent, depth - 1, 0);
    }
  }

  lemma {:induction false} UncutFromInOrder(g: Graph, t: TypeId, parent: seq<nat>, depth: nat, i: nat)
    requires Closed(g) && t in g && i <= |g[t]| && UncutFrom(g, t, parent, depth, i).Fields?
    ensures InIndexOrder(UncutFrom(g, t, parent, depth, i).fields)
    ensures forall c :: c in UncutFrom(g, t, parent, depth, i).fields ==>
              |c.index| > |parent| && c.index[..|parent|] == parent && c.index[|parent|] >= i
    decreases depth, 1, |g[t]| - i
  {
    if i < |g[t]| {
      var rest := UncutFrom(g, t, parent, depth, i + 1).fields;
      UncutFromInOrder(g, t, parent, depth, i + 1);
      var first: seq<Candidate> := [];
      match KindOf(g[t][i]) {
        case Embed(u) =>
          first := Uncut(g, u, parent + [i], depth).fields;
          UncutInOrder(g, u, parent + [i], depth);
          forall a | a in first ensures |a.index| > |parent| && a.index[..|parent|] == parent &&
              a.index[|parent|] == i {
            var p := UncutAt(g, u, parent + [i], depth, a);
            assert a.index == parent + [i] + p;
          }
        case Leaf(name, tagged) =>
          first := [Candidate(name, parent + [i], tagged)];
          assert first[0].index[..|parent|] == parent;
        case Skip =>
      }
      assert UncutFrom(g, t, parent, depth, i).fields == first + rest;
      forall a, b | a in first && b in rest ensures Before(a.index, b.index) {
        LaterField(parent, a.index, b.index);
      }
    }
  }

  lemma LaterField(parent: seq<nat>, a: seq<nat>, b: seq<nat>)
    requires |a| > |parent| && |b| > |parent| && a[..|parent|] == parent && b[..|parent|] == parent
    requires a[|parent|] < b[|parent|]
    ensures Before(a, b)
  {
    BeforePrefix(parent, a[|parent|..], b[|parent|..]);
    assert a == parent + a[|parent|..] && b == parent + b[|parent|..];
  }

  /** Every candidate of the cut walk is one of the uncut walk, if that goes deep enough. */
  lemma CutWithinUncut(g: Graph, t: TypeId, depth: nat, c: Candidate)
    requires Closed(g) && t in g && depth >= |g|
    requires Collect(g, t, [], {}).Fields? && c in Collect(g, t, [], {}).fields && Uncut(g, t, [], depth).Fields?
    ensures c in Uncut(g, t, [], depth).fields
  {
    var p := CollectedPath(g, t, [], {}, c);
    SimpleIsShort(g, t, p, {});
    assert |g.Keys| == |g| && g.Keys - {} == g.Keys;
    UncutHas(g, t, [], depth, p);
  }

  /** A candidate beyond the cut has a strictly shallower twin within it, of the same name and tag. */
  lemma TwinWithinCut(g: Graph, t: TypeId, depth: nat, c: Candidate) returns (twin: Candidate)
    requires Closed(g) && t in g
    requires Collect(g, t, [], {}).Fields? && Uncut(g, t, [], depth).Fields? && c in Uncut(g, t, [], depth).fields
    ensures twin in Collect(g, t, [], {}).fields && twin.name == c.name && twin.tagged == c.tagged
    ensures twin == c || |twin.index| < |c.index|
  {
    var p := UncutAt(g, t, [], depth, c);
    var q := Twin(g, t, p, Follow(g, t, p).value);
    CollectHas(g, t, [], {}, q);
    twin := CandidateAt(g, t, [], q);
    assert [] + p == p && [] + q == q;
  }

  lemma SameWinner(g: Graph, t: TypeId, depth: nat, c: Candidate)
    requires Closed(g) && t in g && depth >= |g|
    requires Collect(g, t, [], {}).Fields? && Uncut(g, t, [], depth).Fields?
    ensures Winner(c, Collect(g, t, [], {}).fields) <==> Winner(c, Uncut(g, t, [], depth).fields)
  {
    var cut, uncut := Collect(g, t, [], {}).fields, Uncut(g, t, [], depth).fields;
    if Winner(c, cut) {
      CutWithinUncut(g, t, depth, c);
      forall d | d in uncut && d != c && d.name == c.name ensures Beats(c, d) {
        var twin := TwinWithinCut(g, t, depth, d);
        assert twin == c || Beats(c, twin);
      }
    }
    if Winner(c, uncut) {
      var twin := TwinWithinCut(g, t, depth, c);
      if twin != c {
        CutWithinUncut(g, t, depth, twin);
        assert Beats(c, twin);
      }
      forall d | d in cut && d != c && d.name == c.name ensures Beats(c, d) {
        CutWithinUncut(g, t, depth, d);
      }
    }
  }

  lemma SameError(g: Graph, t: TypeId, depth: nat)
    requires Closed(g) && t in g && depth >= |g|
    ensures Collect(g, t, [], {}).NonportableTag? <==> Uncut(g, t, [], depth).NonportableTag?
  {
    if Collect(g, t, [], {}).NonportableTag? {
      var p := CollectBadAt(g, t, [], {});
      SimpleIsShort(g, t, p, {});
      assert |g.Keys| == |g| && g.Keys - {} == g.Keys;
      UncutHas(g, t, [], depth, p);
    }
    if Uncut(g, t, [], depth).NonportableTag? {
      var p := UncutBadAt(g, t, [], depth);
      var q := Twin(g, t, p, Bad);
      CollectHas(g, t, [], {}, q);
    }
  }

  /**
   Cutting the walk at types already on its path changes nothing: for every type graph, cyclic or not,
   the walk fails exactly when the uncut walk does, and otherwise the same fields win in the same order,
   however deep the uncut walk goes.
   */
  lemma CutInvisible(g: Graph, t: TypeId, depth: nat)
    requires Closed(g) && t in g && depth >= |g|
    ensures Collect(g, t, [], {}).NonportableTag? <==> Uncut(g, t, [], depth).NonportableTag?
    ensures Collect(g, t, [], {}).Fields? ==>
              Winners(Collect(g, t, [], {}).fields) == Winners(Uncut(g, t, [], depth).fields)
  {
    SameError(g, t, depth);
    if Collect(g, t, [], {}).Fields? {
      var cut, uncut := Collect(g, t, [], {}).fields, Uncut(g, t, [], depth).fields;
      CollectInOrder(g, t, [], {});
      UncutInOrder(g, t, [], depth);
      ChosenInOrder(cut, cut);
      ChosenInOrder(uncut, uncut);
      forall c ensures c in Winners(cut) <==> c in Winners(uncut) {
        ChosenHas(cut, cut, c);
        ChosenHas(uncut, uncut, c);
        SameWinner(g, t, depth, c);
      }
      OrderedUnique(Winners(cut), Winners(uncut));
    }
  }

  // ----- sorting -----

  /** strings.Compare. */
  function NameOrder(a: string, b: string): int {
    if a == [] then (if b == [] then 0 else -1)
    else if b == [] then 1
    else if a[0] < b[0] then -1
    else if a[0] > b[0] then 1
    else NameOrder(a[1..], b[1..])
  }

  lemma {:induction false} NameOrderAntisymmetric(a: string, b: string)
    ensures NameOrder(a, b) == -NameOrder(b, a)
    ensures NameOrder(a, b) == 0 <==> a == b
  {
    if a != [] && b != [] && a[0] == b[0] {
      NameOrderAntisymmetric(a[1..], b[1..]);
      assert a == [a[0]] + a[1..] && b == [b[0]] + b[1..];
    }
  }

  lemma {:induction false} NameOrderTransitive(a: string, b: string, c: string)
    requires NameOrder(a, b) <= 0 && NameOrder(b, c) <= 0
    ensures NameOrder(a, c) <= 0
  {
    if a != [] && b != [] && c != [] && a[0] == b[0] == c[0] {
      NameOrderTransitive(a[1..], b[1..], c[1..]);
    }
  }

  /** compareJSONFields. */
  function Compare(a: Candidate, b: Candidate): int {
    if NameOrder(a.name, b.name) != 0 then NameOrder(a.name, b.name)
    else if |a.index| != |b.index| then |a.index| - |b.index|
    else if a.tagged != b.tagged then (if a.tagged then -1 else 1)
    else 0
  }

  predicate ByName(a: Candidate, b: Candidate) {
    Compare(a, b) <= 0
  }

  predicate ByIndex(a: Candidate, b: Candidate) {
    a.index == b.index || Before(a.index, b.index)
  }

  ghost predicate TotalPreorder(le: (Candidate, Candidate) -> bool) {
    && (forall a, b :: le(a, b) || le(b, a))
    && (forall a, b, c :: le(a, b) && le(b, c) ==> le(a, c))
  }

  lemma ByNameOrder()
    ensures TotalPreorder(ByName)
  {
    forall a, b ensures ByName(a, b) || ByName(b, a) {
      NameOrderAntisymmetric(a.name, b.name);
    }
    forall a, b, c | ByName(a, b) && ByName(b, c) ensures ByName(a, c) {
      NameOrderAntisymmetric(a.name, b.name);
      NameOrderAntisymmetric(b.name, c.name);
      NameOrderAntisymmetric(a.name, c.name);
      NameOrderTransitive(a.name, b.name, c.name);
      if NameOrder(a.name, c.name) == 0 {
        NameOrderTransitive(c.name, a.name, b.name);
      }
    }
  }

  lemma {:induction false} BeforeTotal(a: seq<nat>, b: seq<nat>)
    ensures a == b || Before(a, b) || Before(b, a)
  {
    if a != [] && b != [] && a[0] == b[0] {
      BeforeTotal(a[1..], b[1..]);
      assert a == [a[0]] + a[1..] && b == [b[0]] + b[1..];
    }
  }

  lemma {:induction false} BeforeTransitive(a: seq<nat>, b: seq<nat>, c: seq<nat>)
    requires Before(a, b) && Before(b, c)
    ensures Before(a, c)
  {
    if a != [] && a[0] == b[0] == c[0] {
      BeforeTransitive(a[1..], b[1..], c[1..]);
    }
  }

  lemma ByIndexOrder()
    ensures TotalPreorder(ByIndex)
  {
    forall a: Candidate, b: Candidate ensures ByIndex(a, b) || ByIndex(b, a) {
      BeforeTotal(a.index, b.index);
    }
    forall a, b, c | ByIndex(a, b) && ByIndex(b, c) ensures ByIndex(a, c) {
      if a.index != b.index && b.index != c.index {
        BeforeTransitive(a.index, b.index, c.index);
      }
    }
  }

  predicate SortedBy(le: (Candidate, Candidate) -> bool, s: seq<Candidate>) {
    forall i, j :: 0 <= i < j < |s| ==> le(s[i], s[j])
  }

  /**
   slices.SortFunc: some sorted permutation.  The contract says nothing about ties, so nothing proved
   from it depends on them.
   */
  method SortFunc(s: seq<Candidate>, le: (Candidate, Candidate) -> bool) returns (r: seq<Candidate>)
    requires TotalPreorder(le)
    ensures multiset(r) == multiset(s) && SortedBy(le, r)
  {
    r := [];
    var i := 0;
    while i < |s|
      invariant 0 <= i <= |s|
      invariant multiset(r) == multiset(s[..i]) && SortedBy(le, r)
    {
      r := Insert(r, s[i], le);
      assert s[..i + 1] == s[..i] + [s[i]];
      i := i + 1;
    }
    assert s[..|s|] == s;
  }

  method Insert(s: seq<Candidate>, c: Candidate, le: (Candidate, Candidate) -> bool) returns (r: seq<Candidate>)
    requires TotalPreorder(le) && SortedBy(le, s)
    ensures multiset(r) == multiset(s) + multiset{c} && SortedBy(le, r)
  {
    var k := 0;
    while k < |s| && le(s[k], c)
      invariant 0 <= k <= |s|
      invariant forall j :: 0 <= j < k ==> le(s[j], c)
    {
      k := k + 1;
    }
    assert s == s[..k] + s[k..];
    r := s[..k] + [c] + s[k..];
    InsertSorted(s, c, le, k);
  }

  lemma InsertSorted(s: seq<Candidate>, c: Candidate, le: (Candidate, Candidate) -> bool, k: nat)
    requires TotalPreorder(le) && SortedBy(le, s) && k <= |s|
    requires forall j :: 0 <= j < k ==> le(s[j], c)
    requires k < |s| ==> !le(s[k], c)
    ensures SortedBy(le, s[..k] + [c] + s[k..])
  {
    var r := s[..k] + [c] + s[k..];
    forall i, j | 0 <= i < j < |r| ensures le(r[i], r[j]) {
      if j == k {
        assert r[i] == s[i];
      } else if i == k {
        assert r[j] == s[j - 1] && le(c, s[k]) && (k < j - 1 ==> le(s[k], s[j - 1]));
      } else {
        assert le(s[if i < k then i else i - 1], s[if j < k then j else j - 1]);
      }
    }
  }
}
