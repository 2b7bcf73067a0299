/** The URL of a named route matches its template and gives back exactly the supplied parameters. */
module RouteTheorems {
  import opened Prelude
  import opened Splitting
  import opened UrlText
  import opened RouteUrl

  // ----- which templates -----

  /** A literal carries no opening brace, a parameter has a proper name, and a tail stands last. */
  predicate GoodSegment(segment: Text, last: bool) {
    match PieceOf(segment)
    case Literal(text) => Free(text, OPEN)
    case Single(name) => Free(name, CLOSE) && name != [] && name != [DOLLAR]
    case Tail(name) => Free(name, CLOSE) && name != [] && name != [DOLLAR] && last
  }

  predicate GoodSegments(segments: seq<Text>) {
    forall i :: 0 <= i < |segments| ==> GoodSegment(segments[i], i == |segments| - 1)
  }

  function Segments(path: Text): seq<Text> {
    Split(TrimSuffix(path, END))
  }

  predicate GoodTemplate(path: Text) {
    HasPrefix(path, [SLASH]) && GoodSegments(Segments(path)) && Distinct(Names(Segments(path)))
  }

  // ----- parameter names -----

  lemma {:induction false} IndexAfter(a: Text, rest: Text, b: byte)
    requires Free(a, b)
    ensures IndexOf(a + rest, b) == |a| + IndexOf(rest, b)
  {
    if a == [] {
      assert a + rest == rest;
    } else {
      assert (a + rest)[1..] == a[1..] + rest;
      IndexAfter(a[1..], rest, b);
    }
  }

  lemma GroupAfterLiteral(a: Text, rest: Text)
    requires Free(a, OPEN)
    ensures FirstGroup(a + rest) == FirstGroup(rest)
  {
    var n := IndexOf(rest, OPEN);
    IndexAfter(a, rest, OPEN);
    GroupFrom(a + rest, |a| + n);
    GroupFrom(rest, n);
    if n < |rest| {
      DropAppend(a, rest, n + 1);
      assert |a| + n + 1 == |a| + (n + 1);
    }
  }

  lemma GroupFrom(pattern: Text, start: nat)
    requires start == IndexOf(pattern, OPEN)
    ensures FirstGroup(pattern) == if start == |pattern| then NoGroup else Enclosed(pattern[start + 1..])
  {
  }

  lemma NamesAfterLiteral(a: Text, rest: Text)
    requires Free(a, OPEN)
    ensures ParameterNames(a + rest) == ParameterNames(rest)
  {
    GroupAfterLiteral(a, rest);
  }

  lemma DropAppend(a: Text, rest: Text, k: nat)
    requires k <= |rest|
    ensures (a + rest)[|a| + k..] == rest[k..]
  {
  }

  lemma GroupFirst(inner: Text, rest: Text)
    requires Free(inner, CLOSE)
    ensures FirstGroup([OPEN] + inner + [CLOSE] + rest) == Group(inner, rest)
  {
    var s := [OPEN] + inner + [CLOSE] + rest;
    IndexOfUnique(s, OPEN, 0);
    assert s[1..] == inner + [CLOSE] + rest;
    assert s[1..][..|inner|] == inner;
    IndexOfUnique(s[1..], CLOSE, |inner|);
    assert s[1..][|inner| + 1..] == rest;
  }

  lemma NamesAfterGroup(inner: Text, rest: Text)
    requires Free(inner, CLOSE)
    ensures ParameterNames([OPEN] + inner + [CLOSE] + rest) == NameIn(inner) + ParameterNames(rest)
  {
    GroupFirst(inner, rest);
  }

  lemma TrimmedFree(inner: Text)
    requires Free(TrimSuffix(inner, DOTS), CLOSE)
    ensures Free(inner, CLOSE)
  {
    if HasSuffix(inner, DOTS) {
      assert inner == inner[..|inner| - 3] + DOTS;
      forall i | 0 <= i < |inner| ensures inner[i] != CLOSE {
        if i >= |inner| - 3 {
          assert inner[i] == DOTS[i - (|inner| - 3)];
        }
      }
    }
  }

  function NamesOf(segment: Text): seq<Text> {
    match PieceOf(segment)
    case Literal(_) => []
    case Single(name) => [name]
    case Tail(name) => [name]
  }

  lemma NamesCons(segments: seq<Text>)
    requires segments != []
    ensures Names(segments) == NamesOf(segments[0]) + Names(segments[1..])
  {
  }

  lemma NamesAfterSegment(segment: Text, last: bool, rest: Text)
    requires GoodSegment(segment, last)
    ensures ParameterNames(segment + rest) == NamesOf(segment) + ParameterNames(rest)
  {
    if !Braced(segment) {
      NamesAfterLiteral(segment, rest);
    } else {
      var inner := Inner(segment);
      BracedLength(segment);
      assert segment[0] == OPEN && segment[|segment| - 1] == CLOSE;
      assert segment == [OPEN] + inner + [CLOSE];
      TrimmedFree(inner);
      NamesAfterGroup(inner, rest);
      assert NamesOf(segment) == NameIn(inner);
    }
  }

  lemma {:induction false} NamesOfJoin(segments: seq<Text>, rest: Text)
    requires segments != [] && GoodSegments(segments)
    ensures ParameterNames(Join(segments) + rest) == Names(segments) + ParameterNames(rest)
  {
    var first := segments[0];
    NamesCons(segments);
    if |segments| == 1 {
      NamesAfterSegment(first, true, rest);
      assert NamesOf(first) + [] == NamesOf(first);
    } else {
      var tail := Join(segments[1..]) + rest;
      assert Join(segments) + rest == first + ([SLASH] + tail);
      assert GoodSegment(first, false);
      NamesAfterSegment(first, false, [SLASH] + tail);
      NamesAfterLiteral([SLASH], tail);
      GoodRest(segments);
      NamesOfJoin(segments[1..], rest);
      Regroup(NamesOf(first), Names(segments[1..]), ParameterNames(rest));
    }
  }

  lemma GoodRest(segments: seq<Text>)
    requires segments != [] && GoodSegments(segments)
    ensures GoodSegments(segments[1..])
  {
    forall i | 0 <= i < |segments[1..]| ensures GoodSegment(segments[1..][i], i == |segments[1..]| - 1) {
      assert segments[1..][i] == segments[i + 1];
    }
  }

  /** `{$}` names nothing, once or twice. */
  lemma MarkersHaveNoName(marker: Text, after: Text)
    requires (marker == [] || marker == END) && (after == [] || after == END)
    ensures ParameterNames(marker + after) == []
  {
    assert ParameterNames([]) == [] && NameIn([DOLLAR]) == [];
    NamesAfterGroup([DOLLAR], []);
    assert [OPEN] + [DOLLAR] + [CLOSE] + [] == END;
    NamesAfterGroup([DOLLAR], after);
    assert [OPEN] + [DOLLAR] + [CLOSE] + after == END + after;
    assert [] + after == after && ParameterNames(after) == [];
  }

  /**
   The names a route requires are those of its template: scanning the registered pattern for braces
   finds every whole-segment parameter, in order, and not the `{$}` marker.
   */
  lemma ParameterNamesOfPattern(before: Text, path: Text, after: Text)
    requires GoodTemplate(path) && Free(before, OPEN) && (after == [] || after == END)
    ensures ParameterNames(before + path + after) == Names(Segments(path))
  {
    var trimmed := TrimSuffix(path, END);
    var marker := TrimmedMarker(path);
    Regroup(before, path, after);
    Regroup(trimmed, marker, after);
    NamesAfterLiteral(before, trimmed + (marker + after));
    NamesOfTrimmed(trimmed, marker + after);
    MarkersHaveNoName(marker, after);
    assert Names(Segments(path)) + [] == Names(Segments(path));
  }

  lemma TrimmedMarker(path: Text) returns (marker: Text)
    ensures path == TrimSuffix(path, END) + marker && (marker == [] || marker == END)
  {
    marker := path[|TrimSuffix(path, END)|..];
  }

  lemma NamesOfTrimmed(trimmed: Text, rest: Text)
    requires GoodSegments(Split(trimmed))
    ensures ParameterNames(trimmed + rest) == Names(Split(trimmed)) + ParameterNames(rest)
  {
    JoinSplit(trimmed, SLASH);
    NamesOfJoin(Split(trimmed), rest);
  }

  // ----- expanding a segment -----

  lemma LiteralExpands(segment: Text, parameters: map<Text, Text>)
    requires PieceOf(segment).Literal? && Free(segment, SLASH)
    ensures Expand(segment, parameters).Ok?
    ensures var e := Expand(segment, parameters).value;
            && Free(e, SLASH) && Unescape(e) == Some(Decoded(segment)) && (e == [] <==> segment == [])
            && Unescape(e) == (if Unescape(segment).Some? then Unescape(segment) else Some(segment))
  {
    EscapeFree(Decoded(segment));
    EscapeRoundTrip(Decoded(segment));
    EscapeKeepsDots(Decoded(segment));
    UnescapeEmpty(segment);
  }

  lemma UnescapeEmpty(s: Text)
    ensures Unescape(s) == Some([]) <==> s == []
  {
  }

  lemma SingleExpands(segment: Text, parameters: map<Text, Text>)
    requires PieceOf(segment).Single? && Expand(segment, parameters).Ok?
    ensures PieceOf(segment).name in parameters
    ensures var e, v := Expand(segment, parameters).value, parameters[PieceOf(segment).name];
            Free(e, SLASH) && Unescape(e) == Some(v) && v != [] && !Dotted(v) && e != []
  {
    var v := parameters[PieceOf(segment).name];
    assert EscapeParts([v], false) == Some([Escape(v)] + []) by {
      var one: seq<Text> := [v];
      assert one[0] == v && one[1..] == [];
    }
    assert [Escape(v)] + [] == [Escape(v)];
    EscapeFree(v);
    EscapeRoundTrip(v);
    EscapeKeepsDots(v);
  }

  lemma {:induction false} PartsExpand(parts: seq<Text>)
    requires EscapeParts(parts, true).Some?
    ensures var out := EscapeParts(parts, true).value;
            UnescapeAll(out) == Some(parts) && forall i :: 0 <= i < |out| ==> Free(out[i], SLASH)
    ensures forall i :: 0 <= i < |parts| ==> !Dotted(parts[i]) && (i < |parts| - 1 ==> parts[i] != [])
  {
    if parts != [] {
      PartsExpand(parts[1..]);
      EscapeFree(parts[0]);
      EscapeRoundTrip(parts[0]);
      assert [parts[0]] + parts[1..] == parts;
      var out := EscapeParts(parts, true).value;
      assert out[1..] == EscapeParts(parts[1..], true).value;
      forall i | 0 <= i < |parts| ensures !Dotted(parts[i]) && (i < |parts| - 1 ==> parts[i] != []) {
        if i > 0 {
          assert parts[i] == parts[1..][i - 1];
        }
      }
    }
  }

  lemma TailExpands(segment: Text, parameters: map<Text, Text>)
    requires PieceOf(segment).Tail? && Expand(segment, parameters).Ok?
    ensures PieceOf(segment).name in parameters
    ensures var e, v := Expand(segment, parameters).value, parameters[PieceOf(segment).name];
            && UnescapeAll(Split(e)) == Some(Split(v)) && Join(Split(v)) == v
            && (e == [] || e[0] != SLASH)
  {
    var v := parameters[PieceOf(segment).name];
    var out := EscapeParts(Split(v), true).value;
    PartsExpand(Split(v));
    SplitJoin(out, SLASH);
    JoinSplit(v, SLASH);
    EscapeKeepsDots(Split(v)[0]);
    assert out[0] == Escape(Split(v)[0]);
  }

  // ----- the round trip -----

  function Restricted(parameters: map<Text, Text>, names: seq<Text>): map<Text, Text> {
    map n | n in names && n in parameters :: parameters[n]
  }

  /** Matching the expanded segments reads back the values of the names they mention. */
  lemma {:induction false} MatchExpanded(segments: seq<Text>, parameters: map<Text, Text>)
    requires segments != [] && GoodSegments(segments) && Distinct(Names(segments))
    requires forall i :: 0 <= i < |segments| ==> Free(segments[i], SLASH)
    requires ExpandAll(segments, parameters).Ok?
    ensures Match(Pieces(segments), Split(Join(ExpandAll(segments, parameters).value))) ==
            Some(Restricted(parameters, Names(segments)))
    ensures forall n :: n in Names(segments) ==> n in parameters
  {
    var out := ExpandAll(segments, parameters).value;
    var first := segments[0];
    if |segments| == 1 {
      assert segments[1..] == [] && out == [out[0]];
      MatchLast(first, parameters);
      assert segments == [first];
    } else {
      var rest, rests := segments[1..], ExpandAll(segments[1..], parameters).value;
      assert out[1..] == rests && Pieces(segments)[1..] == Pieces(rest);
      RestGood(segments);
      MatchExpanded(rest, parameters);
      if PieceOf(first).Literal? {
        LiteralExpands(first, parameters);
      } else {
        assert PieceOf(first).Single?;
        SingleExpands(first, parameters);
      }
      SplitFirst(out);
      MatchFirst(Pieces(segments), Split(Join(out)), Restricted(parameters, Names(rest)));
      RestrictedCons(first, rest, segments, parameters);
    }
  }

  lemma SplitFirst(out: seq<Text>)
    requires |out| > 1 && Free(out[0], SLASH)
    ensures Split(Join(out))[0] == out[0] && Split(Join(out))[1..] == Split(Join(out[1..]))
  {
    SplitCons(out[0], Join(out[1..]), SLASH);
  }

  lemma MatchFirst(pieces: seq<Piece>, parts: seq<Text>, rest: map<Text, Text>)
    requires pieces != [] && parts != [] && !pieces[0].Tail? && Match(pieces[1..], parts[1..]) == Some(rest)
    requires pieces[0].Literal? ==> Unescape(parts[0]) == Some(Decoded(pieces[0].text))
    requires pieces[0].Single? ==> Unescape(parts[0]).Some? && Unescape(parts[0]).value != []
    ensures Match(pieces, parts)
         == Some(if pieces[0].Single? then rest[pieces[0].name := Unescape(parts[0]).value] else rest)
  {
  }

  lemma RestrictedCons(first: Text, rest: seq<Text>, segments: seq<Text>, parameters: map<Text, Text>)
    requires segments != [] && first == segments[0] && rest == segments[1..] && !PieceOf(first).Tail?
    ensures PieceOf(first).Literal? ==> Names(segments) == Names(rest)
    ensures PieceOf(first).Single? ==> Names(segments) == [PieceOf(first).name] + Names(rest)
    ensures PieceOf(first).Single? && PieceOf(first).name in parameters ==>
      Restricted(parameters, Names(rest))[PieceOf(first).name := parameters[PieceOf(first).name]]
      == Restricted(parameters, Names(segments))
  {
    NamesCons(segments);
  }

  lemma RestGood(segments: seq<Text>)
    requires |segments| > 1 && GoodSegments(segments) && Distinct(Names(segments))
    ensures GoodSegments(segments[1..]) && Distinct(Names(segments[1..]))
    ensures PieceOf(segments[0]).Literal? || PieceOf(segments[0]).Single?
  {
    GoodRest(segments);
    assert GoodSegment(segments[0], false);
    NamesCons(segments);
    DistinctRest(NamesOf(segments[0]), Names(segments[1..]));
  }

  lemma DistinctRest(a: seq<Text>, b: seq<Text>)
    requires Distinct(a + b)
    ensures Distinct(b)
  {
    forall i, j | 0 <= i < j < |b| ensures b[i] != b[j] {
      assert (a + b)[|a| + i] == b[i] && (a + b)[|a| + j] == b[j];
    }
  }

  lemma TailMatches(name: Text, segments: seq<Text>, parts: seq<Text>)
    requires segments != [] && UnescapeAll(segments) == Some(parts)
    ensures Match([Tail(name)], segments) == Some(map[name := Join(parts)])
  {
  }

  lemma OneMatches(piece: Piece, segment: Text)
    requires piece.Literal? ==> Unescape(segment) == Some(Decoded(piece.text))
    requires piece.Single? ==> Unescape(segment).Some? && Unescape(segment).value != []
    requires !piece.Tail?
    ensures Match([piece], [segment]) ==
        Some(if piece.Single? then map[piece.name := Unescape(segment).value] else map[])
  {
    var none: seq<Piece> := [piece][1..];
    var left: seq<Text> := [segment][1..];
    assert none == [] && left == [] && Match(none, left) == Some(map[]);
  }

  lemma MatchLast(segment: Text, parameters: map<Text, Text>)
    requires Free(segment, SLASH) && Expand(segment, parameters).Ok?
    ensures Match(Pieces([segment]), Split(Join([Expand(segment, parameters).value]))) ==
            Some(Restricted(parameters, Names([segment])))
    ensures forall n :: n in Names([segment]) ==> n in parameters
  {
    var e := Expand(segment, parameters).value;
    assert [segment][1..] == [] && Join([e]) == e && Pieces([segment]) == [PieceOf(segment)];
    NamesCons([segment]);
    match PieceOf(segment)
    case Literal(_) =>
      LiteralExpands(segment, parameters);
      SplitPart(e, SLASH);
      OneMatches(PieceOf(segment), e);
      assert Names([segment]) == [];
      assert Restricted(parameters, []) == map[];
    case Single(name) =>
      SingleExpands(segment, parameters);
      SplitPart(e, SLASH);
      OneMatches(PieceOf(segment), e);
      assert Names([segment]) == [name];
      assert Restricted(parameters, [name]) == map[name := parameters[name]];
    case Tail(name) =>
      TailExpands(segment, parameters);
      TailMatches(name, Split(e), Split(parameters[name]));
      assert Names([segment]) == [name];
      assert Restricted(parameters, [name]) == map[name := parameters[name]];
  }

  lemma SubsetSameSize(a: set<Text>, b: set<Text>)
    requires a <= b && |a| == |b|
    ensures a == b
  {
    assert |b - a| == 0;
    assert b == a + (b - a);
  }

  lemma AllNamed(parameters: map<Text, Text>, names: seq<Text>)
    requires Distinct(names) && |parameters| == |names| && forall n :: n in names ==> n in parameters
    ensures Restricted(parameters, names) == parameters
  {
    DistinctSize(names);
    assert |parameters.Keys| == |parameters|;
    SubsetSameSize((set n | n in names), parameters.Keys);
  }

  /**
   URL round trip: for every good template, whenever URL succeeds, splitting the result at slashes and
   decoding each segment matches the template and gives back exactly the supplied parameters.
   */
  lemma UrlRoundTrip(path: Text, parameters: map<Text, Text>)
    requires GoodTemplate(path)
    requires UrlOf(path, Names(Segments(path)), parameters).Ok?
    ensures Match(Pieces(Segments(path)), Split(UrlOf(path, Names(Segments(path)), parameters).value)) ==
        Some(parameters)
  {
    SplitFree(TrimSuffix(path, END), SLASH);
    MatchExpanded(Segments(path), parameters);
    AllNamed(parameters, Names(Segments(path)));
  }

  // ----- when URL succeeds -----

  /** What a parameter may carry: no empty, dot or slash-only segment, except that a tail may end in a slash. */
  predicate Carries(segment: Text, parameters: map<Text, Text>) {
    match PieceOf(segment)
    case Literal(_) => true
    case Single(name) =>
      name in parameters && parameters[name] != [] && !Dotted(parameters[name]) && parameters[name] != [SLASH]
    case Tail(name) =>
      && name in parameters
      && forall i :: 0 <= i < |Split(parameters[name])| ==>
           var part := Split(parameters[name])[i];
           !Dotted(part) && (part == [] ==> i == |Split(parameters[name])| - 1)
  }

  lemma {:induction false} PartsAllowed(parts: seq<Text>, wildcard: bool)
    ensures EscapeParts(parts, wildcard).Some? <==>
            forall i :: 0 <= i < |parts| ==> !BadPart(parts[i], wildcard, i == |parts| - 1)
  {
    if parts != [] {
      PartsAllowed(parts[1..], wildcard);
      if EscapeParts(parts[1..], wildcard).Some? {
        forall i | 1 <= i < |parts| ensures !BadPart(parts[i], wildcard, i == |parts| - 1) {
          assert parts[i] == parts[1..][i - 1];
        }
      } else {
        var i :| 0 <= i < |parts| - 1 && BadPart(parts[1..][i], wildcard, i == |parts| - 2);
        assert parts[i + 1] == parts[1..][i];
      }
    }
  }

  lemma ExpandsIff(segment: Text, parameters: map<Text, Text>)
    ensures Expand(segment, parameters).Ok? <==> Carries(segment, parameters)
  {
    match PieceOf(segment)
    case Literal(_) =>
    case Single(name) =>
      if name in parameters {
        var one := [parameters[name]];
        PartsAllowed(one, false);
        assert one[0] == parameters[name];
      }
    case Tail(name) =>
      if name in parameters {
        SplitFree(parameters[name], SLASH);
        PartsAllowed(Split(parameters[name]), true);
      }
  }

  lemma {:induction false} ExpandAllIff(segments: seq<Text>, parameters: map<Text, Text>)
    ensures ExpandAll(segments, parameters).Ok? <==>
        forall i :: 0 <= i < |segments| ==> Carries(segments[i], parameters)
  {
    if segments != [] {
      ExpandsIff(segments[0], parameters);
      ExpandAllIff(segments[1..], parameters);
      assert segments == [segments[0]] + segments[1..];
    }
  }

  /** URL succeeds exactly for the right number of parameters, a root-relative template and carriable values. */
  lemma UrlSucceedsIff(path: Text, names: seq<Text>, parameters: map<Text, Text>)
    ensures UrlOf(path, names, parameters).Ok? <==>
            && |parameters| == |names|
            && !HasPrefix(TrimSuffix(path, END), [SLASH, SLASH])
            && forall i :: 0 <= i < |Segments(path)| ==> Carries(Segments(path)[i], parameters)
  {
    ExpandAllIff(Segments(path), parameters);
  }

  /**
   When URL fails, the parameters are wrong in number, the template is not root-relative, or it is the first segment
   that cannot be filled: for want of its parameter, or because the value cannot stand there.
   */
  lemma UrlErrorIs(path: Text, names: seq<Text>, parameters: map<Text, Text>)
    requires UrlOf(path, names, parameters).Err?
    ensures UrlOf(path, names, parameters).error ==
            if |parameters| != |names| then WrongCount
            else if HasPrefix(TrimSuffix(path, END), [SLASH, SLASH]) then NotRootRelative
            else SegmentError(Segments(path), parameters)
  {
    if |parameters| == |names| && !HasPrefix(TrimSuffix(path, END), [SLASH, SLASH]) {
      FirstError(Segments(path), parameters);
    }
  }

  /** What is wrong with the first segment that cannot be filled. */
  function SegmentError(segments: seq<Text>, parameters: map<Text, Text>): UrlError {
    if segments == [] then BadSegment
    else if Carries(segments[0], parameters) then SegmentError(segments[1..], parameters)
    else
      match PieceOf(segments[0])
      case Literal(_) => BadSegment
      case Single(name) => if name in parameters then BadSegment else MissingParameter
      case Tail(name) => if name in parameters then BadSegment else MissingParameter
  }

  lemma {:induction false} FirstError(segments: seq<Text>, parameters: map<Text, Text>)
    requires ExpandAll(segments, parameters).Err?
    ensures ExpandAll(segments, parameters).error == SegmentError(segments, parameters)
  {
    ExpandsIff(segments[0], parameters);
    if Carries(segments[0], parameters) {
      FirstError(segments[1..], parameters);
    }
  }

  /** A literal that is already encoded stays as it is. */
  lemma EncodedLiteralStays(text: Text, parameters: map<Text, Text>)
    ensures PieceOf(Escape(text)).Literal? && Expand(Escape(text), parameters) == Ok(Escape(text))
  {
    EscapeRoundTrip(text);
    NoBrace(text);
    EscapeKeepsDots(text);
  }

  lemma NoBrace(text: Text)
    ensures !HasPrefix(Escape(text), [OPEN])
  {
    if text != [] {
      assert Escape(text)[0] == EscapeByte(text[0])[0] && Escape(text)[..1][0] == Escape(text)[0];
    }
  }

  // ----- shape of the result -----

  /** The result starts with one slash and never with two, so it stays relative to the root. */
  lemma UrlIsRootRelative(path: Text, parameters: map<Text, Text>)
    requires GoodTemplate(path)
    requires UrlOf(path, Names(Segments(path)), parameters).Ok?
    ensures var u := UrlOf(path, Names(Segments(path)), parameters).value;
            HasPrefix(u, [SLASH]) && !HasPrefix(u, [SLASH, SLASH])
  {
    var trimmed := TrimSuffix(path, END);
    TrimKeepsSlash(path);
    var segments := Split(trimmed);
    var out := ExpandAll(segments, parameters).value;
    var u := Join(out);
    assert segments[0] == [] && segments[1..] == Split(trimmed[1..]);
    SplitFree(trimmed, SLASH);
    LiteralExpands(segments[0], parameters);
    assert out[0] == [] && |out| >= 2 && u == [] + [SLASH] + Join(out[1..]);
    assert out[1..] == ExpandAll(segments[1..], parameters).value && out[1] == Expand(segments[1], parameters).value;
    SecondSegment(segments, parameters);
    if out[1] == [] && |out| > 2 {
      SecondEmpty(trimmed, segments, parameters);
    }
    if |out| > 2 {
      assert Join(out[1..]) == out[1] + [SLASH] + Join(out[1..][1..]);
    } else {
      assert Join(out[1..]) == out[1];
    }
    assert out[1] != [] ==> u[1] == out[1][0];
  }

  lemma TrimKeepsSlash(path: Text)
    requires HasPrefix(path, [SLASH])
    ensures TrimSuffix(path, END) != [] && TrimSuffix(path, END)[0] == SLASH
  {
    assert path[0] == SLASH;
    if HasSuffix(path, END) {
      assert path[|path| - 3] == END[0];
    }
  }

  lemma SecondSegment(segments: seq<Text>, parameters: map<Text, Text>)
    requires |segments| >= 2 && Free(segments[1], SLASH) && Expand(segments[1], parameters).Ok?
    ensures var e := Expand(segments[1], parameters).value; e == [] || e[0] != SLASH
  {
    match PieceOf(segments[1])
    case Literal(_) => LiteralExpands(segments[1], parameters);
    case Single(_) => SingleExpands(segments[1], parameters);
    case Tail(_) => TailExpands(segments[1], parameters);
  }

  /** Only a template that starts with two slashes has an empty segment right after the root, and App.URL refuses it. */
  lemma SecondEmpty(trimmed: Text, segments: seq<Text>, parameters: map<Text, Text>)
    requires segments == Split(trimmed) && |segments| > 2 && segments[0] == [] && GoodSegments(segments)
    requires Free(segments[1], SLASH) && Expand(segments[1], parameters) == Ok([])
    ensures HasPrefix(trimmed, [SLASH, SLASH])
  {
    JoinSplit(trimmed, SLASH);
    if PieceOf(segments[1]).Literal? {
      LiteralExpands(segments[1], parameters);
    } else {
      assert PieceOf(segments[1]).Single?;
      SingleExpands(segments[1], parameters);
    }
    assert Join(segments) == [] + [SLASH] + Join(segments[1..]);
    assert Join(segments[1..]) == [] + [SLASH] + Join(segments[1..][1..]);
  }
}
