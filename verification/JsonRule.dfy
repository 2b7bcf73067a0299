/**
 The rule for JSON field names as encoding/json documents it: which fields count, what they are called, and which of
 several fields of one name is taken, over all paths through embedded structs, however long.
 */
module JsonRule {
  import opened Prelude
  import opened JsonWalk
  import opened JsonPaths
  import opened JsonSelect

  // ----- one field -----

  /** `name` is the part of the tag in front of its first comma. */
  predicate NamePart(tag: string, name: string) {
    name <= tag && ',' !in name && (|name| < |tag| ==> tag[|name|] == ',')
  }

  predicate LeftOut(f: Field) {
    f.tag == "-" || (!f.exported && !(f.anonymous && f.struct.Some?))
  }

  /** An embedded struct, or pointer to one, without a tag name: its fields count as fields of the outer struct. */
  predicate WalkedInto(f: Field) {
    !LeftOut(f) && NamePart(f.tag, "") && f.anonymous && f.struct.Some?
  }

  /** The tag has a name, with a character that is not allowed. */
  predicate Nonportable(f: Field) {
    !LeftOut(f) && !NamePart(f.tag, "") && !f.portable
  }

  /** The field counts under this name: its tag's, if that has one, else its own. */
  predicate CountsAs(f: Field, name: string, tagged: bool) {
    && !LeftOut(f) && !WalkedInto(f) && !Nonportable(f)
    && if NamePart(f.tag, "") then name == f.goName && !tagged else NamePart(f.tag, name) && tagged
  }

  lemma {:induction false} TagNameIsPart(tag: string, name: string)
    ensures NamePart(tag, name) <==> name == TagName(tag)
  {
    if tag != "" && tag[0] != ',' {
      if name != "" && name[0] == tag[0] {
        TagNameIsPart(tag[1..], name[1..]);
        assert name == [name[0]] + name[1..] && tag == [tag[0]] + tag[1..];
        assert name <= tag <==> name[1..] <= tag[1..];
        assert ',' in name <==> ',' in name[1..];
      } else {
        assert name != TagName(tag);
      }
    } else if name != "" {
      assert name <= tag ==> name[0] == tag[0];
    }
  }

  /** What the walk makes of a field is what the rule says of it. */
  lemma KindMeans(f: Field)
    ensures KindOf(f).Skip? <==> LeftOut(f)
    ensures KindOf(f).Bad? <==> Nonportable(f)
    ensures KindOf(f).Embed? <==> WalkedInto(f)
    ensures KindOf(f).Embed? ==> f.struct == Some(KindOf(f).target)
    ensures forall name, tagged :: KindOf(f) == Leaf(name, tagged) <==> CountsAs(f, name, tagged)
  {
    TagNameIsPart(f.tag, "");
    forall name, tagged ensures KindOf(f) == Leaf(name, tagged) <==> CountsAs(f, name, tagged) {
      TagNameIsPart(f.tag, name);
    }
  }

  // ----- paths -----

  /** The field at the end of a path of positions, all but the last through embedded structs. */
  function FieldAt(g: Graph, t: TypeId, p: seq<nat>): Option<Field>
    requires Closed(g) && t in g
    decreases |p|
  {
    if p == [] || p[0] >= |g[t]| then None
    else if |p| == 1 then Some(g[t][p[0]])
    else if WalkedInto(g[t][p[0]]) then FieldAt(g, g[t][p[0]].struct.value, p[1..])
    else None
  }

  /** The struct types that a path goes through. */
  function TypesOn(g: Graph, t: TypeId, p: seq<nat>): seq<TypeId>
    requires Closed(g) && t in g
    decreases |p|
  {
    if |p| > 1 && p[0] < |g[t]| && WalkedInto(g[t][p[0]]) then [t] + TypesOn(g, g[t][p[0]].struct.value, p[1..])
    else [t]
  }

  lemma {:induction false} FollowIsFieldAt(g: Graph, t: TypeId, p: seq<nat>)
    requires Closed(g) && t in g
    ensures Follow(g, t, p) == if FieldAt(g, t, p).Some? then Some(KindOf(FieldAt(g, t, p).value)) else None
    decreases |p|
  {
    if p != [] && p[0] < |g[t]| {
      KindMeans(g[t][p[0]]);
      if |p| > 1 && WalkedInto(g[t][p[0]]) {
        FollowIsFieldAt(g, g[t][p[0]].struct.value, p[1..]);
      }
    }
  }

  lemma DistinctCons(t: TypeId, rest: seq<TypeId>)
    ensures Distinct([t] + rest) <==> t !in rest && Distinct(rest)
  {
    var all := [t] + rest;
    if Distinct(all) {
      forall i, j | 0 <= i < j < |rest| ensures rest[i] != rest[j] {
        assert all[i + 1] != all[j + 1];
      }
      forall i | 0 <= i < |rest| ensures rest[i] != t {
        assert all[0] != all[i + 1];
      }
    }
  }

  lemma {:induction false} SimpleIsDistinct(g: Graph, t: TypeId, p: seq<nat>, visiting: set<TypeId>)
    requires Closed(g) && t in g
    ensures Simple(g, t, p, visiting) <==>
            Distinct(TypesOn(g, t, p)) && forall u :: u in TypesOn(g, t, p) ==> u !in visiting
    decreases |p|
  {
    if |p| > 1 && p[0] < |g[t]| {
      KindMeans(g[t][p[0]]);
      if WalkedInto(g[t][p[0]]) {
        var rest := TypesOn(g, g[t][p[0]].struct.value, p[1..]);
        SimpleIsDistinct(g, g[t][p[0]].struct.value, p[1..], visiting + {t});
        DistinctCons(t, rest);
        assert t in [t] + rest;
      }
    }
  }

  // ----- the rule -----

  /** Some path leads to a field that counts as the candidate. */
  predicate Offered(g: Graph, t: TypeId, c: Candidate)
    requires Closed(g) && t in g
  {
    FieldAt(g, t, c.index).Some? && CountsAs(FieldAt(g, t, c.index).value, c.name, c.tagged)
  }

  predicate NonportableAt(g: Graph, t: TypeId, p: seq<nat>)
    requires Closed(g) && t in g
  {
    FieldAt(g, t, p).Some? && Nonportable(FieldAt(g, t, p).value)
  }

  /** Every other field of that name lies deeper, or as deep but without a tag name while this one has one. */
  ghost predicate Dominant(g: Graph, t: TypeId, c: Candidate)
    requires Closed(g) && t in g
  {
    && Offered(g, t, c)
    && forall d :: Offered(g, t, d) && d.name == c.name && d != c ==>
         |c.index| < |d.index| || (|c.index| == |d.index| && c.tagged && !d.tagged)
  }

  lemma OfferedIff(g: Graph, t: TypeId, c: Candidate)
    requires Closed(g) && t in g
    ensures Offered(g, t, c) <==> IsLeaf(g, t, c.index) && c == CandidateAt(g, t, [], c.index)
  {
    FollowIsFieldAt(g, t, c.index);
    assert [] + c.index == c.index;
    if FieldAt(g, t, c.index).Some? {
      KindMeans(FieldAt(g, t, c.index).value);
    }
  }

  /** The walk collects exactly the fields on paths that visit no type twice. */
  lemma CollectedIff(g: Graph, t: TypeId, c: Candidate)
    requires Closed(g) && t in g && Collect(g, t, [], {}).Fields?
    ensures c in Collect(g, t, [], {}).fields <==> Offered(g, t, c) && Distinct(TypesOn(g, t, c.index))
  {
    SimpleIsDistinct(g, t, c.index, {});
    OfferedIff(g, t, c);
    if c in Collect(g, t, [], {}).fields {
      var p := CollectedPath(g, t, [], {}, c);
      assert [] + p == p;
    }
    if Offered(g, t, c) && Distinct(TypesOn(g, t, c.index)) {
      CollectHas(g, t, [], {}, c.index);
    }
  }

  /** The walk fails exactly when some path leads to a nonportable tag. */
  lemma ErrorIff(g: Graph, t: TypeId)
    requires Closed(g) && t in g
    ensures Collect(g, t, [], {}).NonportableTag? <==> exists p :: NonportableAt(g, t, p)
  {
    if Collect(g, t, [], {}).NonportableTag? {
      var p := CollectBadAt(g, t, [], {});
      FollowIsFieldAt(g, t, p);
      KindMeans(FieldAt(g, t, p).value);
      assert NonportableAt(g, t, p);
    }
    if exists p :: NonportableAt(g, t, p) {
      var p :| NonportableAt(g, t, p);
      FollowIsFieldAt(g, t, p);
      KindMeans(FieldAt(g, t, p).value);
      var q := Twin(g, t, p, Bad);
      CollectHas(g, t, [], {}, q);
    }
  }

  /** Every field that counts has a twin among the collected ones: itself, or one of the same name on a shorter path. */
  lemma CollectedTwin(g: Graph, t: TypeId, d: Candidate) returns (twin: Candidate)
    requires Closed(g) && t in g && Collect(g, t, [], {}).Fields? && Offered(g, t, d)
    ensures twin in Collect(g, t, [], {}).fields && twin.name == d.name && twin.tagged == d.tagged
    ensures twin == d || |twin.index| < |d.index|
  {
    OfferedIff(g, t, d);
    var q := Twin(g, t, d.index, Follow(g, t, d.index).value);
    CollectHas(g, t, [], {}, q);
    assert [] + q == q && [] + d.index == d.index;
    twin := CandidateAt(g, t, [], q);
  }

  /** The winners of the walk are exactly the dominant fields among all paths, the endless ones of a cycle included. */
  lemma WinnerIff(g: Graph, t: TypeId, c: Candidate)
    requires Closed(g) && t in g && Collect(g, t, [], {}).Fields?
    ensures Winner(c, Collect(g, t, [], {}).fields) <==> Dominant(g, t, c)
  {
    var fields := Collect(g, t, [], {}).fields;
    if Winner(c, fields) {
      CollectedIff(g, t, c);
      forall d | Offered(g, t, d) && d.name == c.name && d != c
        ensures |c.index| < |d.index| || (|c.index| == |d.index| && c.tagged && !d.tagged)
      {
        var twin := CollectedTwin(g, t, d);
        assert twin == c || Beats(c, twin);
      }
    }
    if Dominant(g, t, c) {
      var twin := CollectedTwin(g, t, c);
      CollectedIff(g, t, twin);
      assert twin == c;
      forall d | d in fields && d != c && d.name == c.name ensures Beats(c, d) {
        CollectedIff(g, t, d);
      }
    }
  }
}
