/**
 The walk that collects the JSON fields of a struct type (openapi/schema.go).  Struct types form a
 graph that may be cyclic through embedded pointers; the walk is cut at types already on its path.
 */
module JsonWalk {
  import opened Prelude

  type TypeId = string

  /**
   One struct field.  `struct` is the struct type behind the field's type or its pointer, if any;
   `portable` says whether every character of the tag name is allowed.
   */
  datatype Field = Field(goName: string, exported: bool, anonymous: bool, struct: Option<TypeId>, tag: string,
      portable: bool)

  type Graph = map<TypeId, seq<Field>>

  predicate Closed(g: Graph) {
    forall t, i :: t in g && 0 <= i < |g[t]| && g[t][i].struct.Some? ==> g[t][i].struct.value in g
  }

  datatype Candidate = Candidate(name: string, index: seq<nat>, tagged: bool)

  /** What collectJSONField makes of a field. */
  datatype Kind = Skip | Bad | Embed(target: TypeId) | Leaf(name: string, tagged: bool)

  function TagName(tag: string): string {
    if tag == "" || tag[0] == ',' then "" else [tag[0]] + TagName(tag[1..])
  }

  function KindOf(f: Field): Kind {
    if !f.exported && (!f.anonymous || f.struct.None?) then Skip
    else if f.tag == "-" then Skip
    else
      var name := TagName(f.tag);
      if name != "" && !f.portable then Bad
      else if f.anonymous && name == "" && f.struct.Some? then Embed(f.struct.value)
      else Leaf(if name == "" then f.goName else name, name != "")
  }

  datatype Outcome = Fields(fields: seq<Candidate>) | NonportableTag

  function Append(first: Outcome, rest: Outcome): Outcome {
    if first.NonportableTag? || rest.NonportableTag? then NonportableTag else Fields(first.fields + rest.fields)
  }

  lemma AppendThree(a: Outcome, b: Outcome, c: Outcome)
    ensures Append(a, Append(b, c)) == Append(Append(a, b), c)
  {
    if a.Fields? && b.Fields? && c.Fields? {
      assert a.fields + (b.fields + c.fields) == a.fields + b.fields + c.fields;
    }
  }

  lemma AppendNone(a: Outcome)
    ensures Append(a, Fields([])) == a && Append(Fields([]), a) == a
  {
    if a.Fields? {
      assert a.fields + [] == a.fields && [] + a.fields == a.fields;
    }
  }

  // ----- the walk as a function -----

  /** collectJSONFields, with the set of types on the current path. */
  function Collect(g: Graph, t: TypeId, parent: seq<nat>, visiting: set<TypeId>): Outcome
    requires Closed(g) && t in g && visiting <= g.Keys
    decreases |g.Keys - visiting|, 0, 0
  {
    if t in visiting then Fields([])
    else
      assert g.Keys - (visiting + {t}) == g.Keys - visiting - {t};
      CollectFrom(g, t, parent, visiting + {t}, 0)
  }

  function CollectFrom(g: Graph, t: TypeId, parent: seq<nat>, visiting: set<TypeId>, i: nat): Outcome
    requires Closed(g) && t in g && visiting <= g.Keys && i <= |g[t]|
    decreases |g.Keys - visiting|, 1, |g[t]| - i
  {
    if i == |g[t]| then Fields([])
    else
      Append(
        match KindOf(g[t][i])
        case Skip => Fields([])
        case Bad => NonportableTag
        case Embed(u) => Collect(g, u, parent + [i], visiting)
        case Leaf(name, tagged) => Fields([Candidate(name, parent + [i], tagged)]),
        CollectFrom(g, t, parent, visiting, i + 1))
  }

  /** The walk that is never cut, down to `depth` levels. */
  function Uncut(g: Graph, t: TypeId, parent: seq<nat>, depth: nat): Outcome
    requires Closed(g) && t in g
    decreases depth, 0, 0
  {
    if depth == 0 then Fields([]) else UncutFrom(g, t, parent, depth - 1, 0)
  }

  function UncutFrom(g: Graph, t: TypeId, parent: seq<nat>, depth: nat, i: nat): Outcome
    requires Closed(g) && t in g && i <= |g[t]|
    decreases depth, 1, |g[t]| - i
  {
    if i == |g[t]| then Fields([])
    else
      Append(
        match KindOf(g[t][i])
        case Skip => Fields([])
        case Bad => NonportableTag
        case Embed(u) => Uncut(g, u, parent + [i], depth)
        case Leaf(name, tagged) => Fields([Candidate(name, parent + [i], tagged)]),
        UncutFrom(g, t, parent, depth, i + 1))
  }

  /** The map of types on the current path, which the recursive walk fills and empties in place. */
  class PathSet {
    var types: set<TypeId>

    constructor ()
      ensures types == {}
    {
      types := {};
    }
  }

  method CollectFields(g: Graph, t: TypeId, parent: seq<nat>, visiting: PathSet) returns (r: Outcome)
    requires Closed(g) && t in g && visiting.types <= g.Keys
    modifies visiting
    ensures visiting.types == old(visiting.types)
    ensures r == Collect(g, t, parent, old(visiting.types))
    decreases |g.Keys - visiting.types|
  {
    if t in visiting.types {
      return Fields([]);
    }
    ghost var before := visiting.types;
    visiting.types := visiting.types + {t};
    assert g.Keys - visiting.types == g.Keys - before - {t};
    r := Fields([]);
    var i := 0;
    AppendNone(CollectFrom(g, t, parent, visiting.types, 0));
    while i < |g[t]|
      invariant 0 <= i <= |g[t]|
      invariant visiting.types == before + {t}
      invariant r.Fields?
      invariant Append(r, CollectFrom(g, t, parent, visiting.types, i)) == Collect(g, t, parent, before)
    {
      var part := Fields([]);
      match KindOf(g[t][i]) {
        case Skip =>
        case Bad => part := NonportableTag;
        case Embed(u) => part := CollectFields(g, u, parent + [i], visiting);
        case Leaf(name, tagged) => part := Fields([Candidate(name, parent + [i], tagged)]);
      }
      AppendThree(r, part, CollectFrom(g, t, parent, visiting.types, i + 1));
      if part.NonportableTag? {
        visiting.types := visiting.types - {t};
        assert visiting.types == before;
        return NonportableTag;
      }
      r := Fields(r.fields + part.fields);
      i := i + 1;
    }
    AppendNone(r);
    visiting.types := visiting.types - {t};
    assert visiting.types == before;
  }

  // ----- paths -----

  /** Where a path of field positions leads: through embedded structs to a last field. */
  function Follow(g: Graph, t: TypeId, p: seq<nat>): Option<Kind>
    requires Closed(g) && t in g
    decreases |p|
  {
    if p == [] || p[0] >= |g[t]| then None
    else if |p| == 1 then Some(KindOf(g[t][p[0]]))
    else
      match KindOf(g[t][p[0]])
      case Embed(u) => Follow(g, u, p[1..])
      case _ => None
  }

  /** No type on the path repeats, nor is in `visiting`. */
  predicate Simple(g: Graph, t: TypeId, p: seq<nat>, visiting: set<TypeId>)
    requires Closed(g) && t in g
    decreases |p|
  {
    t !in visiting &&
    (|p| > 1 && p[0] < |g[t]| && KindOf(g[t][p[0]]).Embed? ==>
       Simple(g, KindOf(g[t][p[0]]).target, p[1..], visiting + {t}))
  }

  predicate IsLeaf(g: Graph, t: TypeId, p: seq<nat>)
    requires Closed(g) && t in g
  {
    Follow(g, t, p).Some? && Follow(g, t, p).value.Leaf?
  }

  predicate IsBad(g: Graph, t: TypeId, p: seq<nat>)
    requires Closed(g) && t in g
  {
    Follow(g, t, p) == Some(Bad)
  }

  function CandidateAt(g: Graph, t: TypeId, parent: seq<nat>, p: seq<nat>): Candidate
    requires Closed(g) && t in g && IsLeaf(g, t, p)
  {
    Candidate(Follow(g, t, p).value.name, parent + p, Follow(g, t, p).value.tagged)
  }
}
