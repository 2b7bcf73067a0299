/** jsonFields: collect, sort, filter in place, and sort back into index order (openapi/schema.go). */
module JsonFields {
  import opened Prelude
  import opened JsonWalk
  import opened JsonPaths
  import opened JsonSelect
  import opened JsonRule

  /** [index, end) holds exactly the candidates of one name. */
  predicate Group(s: seq<Candidate>, index: nat, end: nat) {
    && index < end <= |s|
    && (forall j :: index <= j < end ==> s[j].name == s[index].name)
    && (forall j :: 0 <= j < |s| && s[j].name == s[index].name ==> index <= j < end)
  }

  /** Names meet at no border: the entries before `index` and from `index` on share no name. */
  predicate Border(s: seq<Candidate>, index: nat) {
    index <= |s| && forall i, j :: 0 <= i < index <= j < |s| ==> s[i].name != s[j].name
  }

  /** A run of equal names in a sorted slice that stops at a different name is a whole group. */
  lemma RunIsGroup(s: seq<Candidate>, index: nat, end: nat)
    requires SortedBy(ByName, s) && Border(s, index) && index < end <= |s|
    requires forall j :: index <= j < end ==> s[j].name == s[index].name
    requires end < |s| ==> s[end].name != s[index].name
    ensures Group(s, index, end) && Border(s, end)
  {
    forall j | end <= j < |s| ensures s[j].name != s[index].name {
      NameOrderAntisymmetric(s[index].name, s[end].name);
      assert ByName(s[index], s[end]);
      if j > end {
        assert ByName(s[end], s[j]);
        NameOrderAntisymmetric(s[end].name, s[j].name);
      }
    }
    forall i, j | 0 <= i < end <= j < |s| ensures s[i].name != s[j].name {
      if i >= index {
        assert s[i].name == s[index].name;
      }
    }
  }

  /** The test of jsonFields looks at the first two entries of a group only. */
  predicate FirstWins(s: seq<Candidate>, index: nat, end: nat)
    requires index < end <= |s|
  {
    || end == index + 1
    || |s[index].index| < |s[index + 1].index|
    || s[index].tagged != s[index + 1].tagged
  }

  lemma SameNameOrder(a: Candidate, b: Candidate)
    requires ByName(a, b) && a.name == b.name
    ensures |a.index| <= |b.index|
    ensures !Beats(b, a)
    ensures Beats(a, b) <==> |a.index| < |b.index| || a.tagged != b.tagged
  {
    NameOrderAntisymmetric(a.name, b.name);
  }

  /** Looking at the first two entries decides the whole group: the first entry wins or none does. */
  lemma GroupWinner(s: seq<Candidate>, index: nat, end: nat, j: nat)
    requires SortedBy(ByName, s) && Distinct(s) && Group(s, index, end) && index <= j < end
    ensures Winner(s[j], s) <==> j == index && FirstWins(s, index, end)
  {
    if j > index {
      SameNameOrder(s[index], s[j]);
      assert s[index] in s && s[index] != s[j];
    } else if FirstWins(s, index, end) {
      forall d | d in s && d != s[index] && d.name == s[index].name ensures Beats(s[index], d) {
        var k :| 0 <= k < |s| && s[k] == d;
        SameNameOrder(s[index], s[index + 1]);
        SameNameOrder(s[index], s[k]);
        if k > index + 1 {
          SameNameOrder(s[index + 1], s[k]);
        }
      }
    } else {
      SameNameOrder(s[index], s[index + 1]);
      assert s[index + 1] in s && s[index + 1] != s[index];
    }
  }

  /** What the filter has selected after the groups in front of `index`. */
  ghost predicate Selected(kept: seq<Candidate>, s: seq<Candidate>, index: nat)
    requires index <= |s|
  {
    Distinct(kept) && forall c :: c in kept <==> c in s[..index] && Winner(c, s)
  }

  lemma SelectGroup(kept: seq<Candidate>, s: seq<Candidate>, index: nat, end: nat)
    requires SortedBy(ByName, s) && Distinct(s) && Group(s, index, end) && Selected(kept, s, index)
    ensures Selected(if FirstWins(s, index, end) then kept + [s[index]] else kept, s, end)
  {
    var kept' := if FirstWins(s, index, end) then kept + [s[index]] else kept;
    forall c ensures c in kept' <==> c in s[..end] && Winner(c, s) {
      GroupMember(kept, s, index, end, c);
    }
    assert s[index] !in s[..index];
  }

  lemma GroupMember(kept: seq<Candidate>, s: seq<Candidate>, index: nat, end: nat, c: Candidate)
    requires SortedBy(ByName, s) && Distinct(s) && Group(s, index, end) && Selected(kept, s, index)
    ensures (c in kept || (FirstWins(s, index, end) && c == s[index])) <==> c in s[..end] && Winner(c, s)
  {
    assert s[..end] == s[..index] + s[index..end];
    if c in s[index..end] {
      var j :| index <= j < end && s[j] == c;
      GroupWinner(s, index, end, j);
      assert c !in s[..index];
      assert s[index..end][0] == s[index];
    } else {
      assert s[index..end][0] == s[index];
    }
  }

  /**
   The in-place filter: `selected := fields[:0]` shares the array with `fields`, but an entry is only
   ever overwritten after it was read.
   */
  method Compact(fields: array<Candidate>) returns (n: nat)
    requires SortedBy(ByName, fields[..]) && Distinct(fields[..])
    modifies fields
    ensures n <= fields.Length
    ensures Selected(fields[..n], old(fields[..]), fields.Length)
  {
    ghost var s, kept := fields[..], fields[..0];
    n := 0;
    var index := 0;
    while index < fields.Length
      invariant n <= index <= fields.Length
      invariant forall j :: index <= j < fields.Length ==> fields[j] == s[j]
      invariant Border(s, index) && kept == fields[..n] && Selected(kept, s, index)
    {
      var end := index + 1;
      while end < fields.Length && fields[end].name == fields[index].name
        invariant index < end <= fields.Length
        invariant forall j :: index <= j < end ==> s[j].name == s[index].name
      {
        end := end + 1;
      }
      RunIsGroup(s, index, end);
      SelectGroup(kept, s, index, end);
      var first := fields[index];
      if end == index + 1 || |first.index| < |fields[index + 1].index| || first.tagged != fields[index + 1].tagged {
        fields[n] := first;
        n := n + 1;
        kept := kept + [first];
      }
      index := end;
    }
    assert s[..fields.Length] == s;
  }

  lemma TwiceCounts(b: seq<Candidate>, i: nat, j: nat)
    requires i < j < |b| && b[i] == b[j]
    ensures multiset(b)[b[i]] >= 2
  {
    assert b == b[..i] + [b[i]] + b[i + 1..j] + [b[j]] + b[j + 1..];
  }

  lemma DistinctByMultiset(a: seq<Candidate>, b: seq<Candidate>)
    requires multiset(a) == multiset(b) && Distinct(a)
    ensures Distinct(b) && forall c :: c in a <==> c in b
  {
    DistinctCounts(a);
    forall i, j | 0 <= i < j < |b| ensures b[i] != b[j] {
      if b[i] == b[j] {
        TwiceCounts(b, i, j);
      }
    }
    forall c ensures c in a <==> c in b {
      assert c in multiset(a) <==> c in multiset(b);
    }
  }

  lemma {:induction false} DistinctCounts(a: seq<Candidate>)
    requires Distinct(a)
    ensures forall c :: multiset(a)[c] <= 1
  {
    if a != [] {
      DistinctCounts(a[1..]);
      assert a == [a[0]] + a[1..];
      assert a[0] !in a[1..];
    }
  }

  lemma OrderedDistinct(s: seq<Candidate>)
    requires InIndexOrder(s)
    ensures Distinct(s)
    ensures forall c, d :: c in s && d in s && c.index == d.index ==> c == d
  {
    forall i, j | 0 <= i < j < |s| ensures s[i] != s[j] && s[i].index != s[j].index {
      BeforeAsymmetric(s[i].index, s[j].index);
    }
  }

  lemma WinnerByMembers(a: seq<Candidate>, b: seq<Candidate>, c: Candidate)
    requires forall d :: d in a <==> d in b
    ensures Winner(c, a) <==> Winner(c, b)
  {
  }

  /** The last sort: a sorted list of distinct winners is the winners in walk order. */
  lemma SortedBack(fields: seq<Candidate>, r: seq<Candidate>)
    requires InIndexOrder(fields) && SortedBy(ByIndex, r) && Distinct(r)
    requires forall c :: c in r <==> Winner(c, fields)
    ensures r == Winners(fields)
  {
    OrderedDistinct(fields);
    ChosenInOrder(fields, fields);
    assert InIndexOrder(r) by {
      forall i, j | 0 <= i < j < |r| ensures Before(r[i].index, r[j].index) {
        assert ByIndex(r[i], r[j]) && r[i] in r && r[j] in r;
      }
    }
    forall c ensures c in r <==> c in Winners(fields) {
      ChosenHas(fields, fields, c);
    }
    OrderedUnique(r, Winners(fields));
  }

  /**
   jsonFields returns exactly the fields that dominate all fields of their name on any path, in index order, whatever
   the sort does with ties; it fails exactly when some path leads to a nonportable tag.
   */
  method Select(g: Graph, t: TypeId) returns (r: Outcome)
    requires Closed(g) && t in g
    ensures Collect(g, t, [], {}).NonportableTag? ==> r == NonportableTag
    ensures Collect(g, t, [], {}).Fields? ==> r == Fields(Winners(Collect(g, t, [], {}).fields))
    ensures r.NonportableTag? <==> exists p :: NonportableAt(g, t, p)
    ensures r.Fields? ==> InIndexOrder(r.fields) && forall c :: c in r.fields <==> Dominant(g, t, c)
  {
    ErrorIff(g, t);
    var visiting := new PathSet();
    var collected := CollectFields(g, t, [], visiting);
    if collected.NonportableTag? {
      return NonportableTag;
    }
    ghost var walk := collected.fields;
    CollectInOrder(g, t, [], {});
    OrderedDistinct(walk);
    ByNameOrder();
    var sorted := SortFunc(collected.fields, ByName);
    DistinctByMultiset(walk, sorted);
    var fields := new Candidate[|sorted|](i requires 0 <= i < |sorted| => sorted[i]);
    assert fields[..] == sorted;
    var n := Compact(fields);
    assert sorted[..fields.Length] == sorted;
    ByIndexOrder();
    ghost var kept := fields[..n];
    var selected := SortFunc(fields[..n], ByIndex);
    DistinctByMultiset(kept, selected);
    forall c ensures c in selected <==> Winner(c, walk) {
      WinnerByMembers(walk, sorted, c);
    }
    SortedBack(walk, selected);
    ChosenInOrder(walk, walk);
    forall c ensures c in selected <==> Dominant(g, t, c) {
      WinnerIff(g, t, c);
    }
    return Fields(selected);
  }
}
