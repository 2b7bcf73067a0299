/** Building the path of a named route, and matching it back (route.go). */
module RouteUrl {
  import opened Prelude
  import opened Splitting
  import opened UrlText

  datatype UrlError = WrongCount | NotRootRelative | MissingParameter | BadSegment

  // ----- templates -----

  /** A path template is split at slashes; a segment in braces is a parameter, with dots a tail. */
  datatype Piece = Literal(text: Text) | Single(name: Text) | Tail(name: Text)

  predicate Braced(segment: Text) {
    HasPrefix(segment, [OPEN]) && HasSuffix(segment, [CLOSE])
  }

  lemma BracedLength(segment: Text)
    requires Braced(segment)
    ensures |segment| >= 2
  {
    assert segment[0] == OPEN && segment[|segment| - 1] == CLOSE;
  }

  function Inner(segment: Text): Text
    requires Braced(segment)
  {
    BracedLength(segment);
    segment[1..|segment| - 1]
  }

  function PieceOf(segment: Text): Piece {
    if !Braced(segment) then Literal(segment)
    else if HasSuffix(Inner(segment), DOTS) then Tail(TrimSuffix(Inner(segment), DOTS))
    else Single(Inner(segment))
  }

  function Pieces(segments: seq<Text>): (r: seq<Piece>)
    ensures |r| == |segments|
  {
    if segments == [] then [] else [PieceOf(segments[0])] + Pieces(segments[1..])
  }

  function Names(segments: seq<Text>): seq<Text> {
    if segments == [] then []
    else
      (match PieceOf(segments[0])
       case Literal(_) => []
       case Single(name) => [name]
       case Tail(name) => [name]) + Names(segments[1..])
  }

  predicate Dotted(part: Text) {
    part == [DOT] || part == [DOT, DOT]
  }

  // ----- App.URL as a function -----

  /** The literal as url.PathUnescape reads it, or as it stands when it cannot be read. */
  function Decoded(literal: Text): Text {
    if Unescape(literal).Some? then Unescape(literal).value else literal
  }

  predicate BadPart(part: Text, wildcard: bool, last: bool) {
    Dotted(part) || part == [SLASH] || (part == [] && !(wildcard && last))
  }

  function EscapeParts(parts: seq<Text>, wildcard: bool): (r: Option<seq<Text>>)
    ensures r.Some? ==> |r.value| == |parts|
  {
    if parts == [] then Some([])
    else if BadPart(parts[0], wildcard, |parts| == 1) then None
    else
      var rest := EscapeParts(parts[1..], wildcard);
      if rest.None? then None else Some([Escape(parts[0])] + rest.value)
  }

  function Fill(name: Text, wildcard: bool, parameters: map<Text, Text>): Result<Text, UrlError> {
    if name !in parameters then Err(MissingParameter)
    else
      var parts := EscapeParts(if wildcard then Split(parameters[name]) else [parameters[name]], wildcard);
      if parts.None? then Err(BadSegment) else Ok(Join(parts.value))
  }

  function Expand(segment: Text, parameters: map<Text, Text>): Result<Text, UrlError> {
    match PieceOf(segment)
    case Literal(text) => Ok(if Dotted(Decoded(text)) then text else Escape(Decoded(text)))
    case Single(name) => Fill(name, false, parameters)
    case Tail(name) => Fill(name, true, parameters)
  }

  function ExpandAll(segments: seq<Text>, parameters: map<Text, Text>): (r: Result<seq<Text>, UrlError>)
    ensures r.Ok? ==> |r.value| == |segments|
  {
    if segments == [] then Ok([])
    else
      var first := Expand(segments[0], parameters);
      if first.Err? then Err(first.error)
      else
        var rest := ExpandAll(segments[1..], parameters);
        if rest.Err? then rest else Ok([first.value] + rest.value)
  }

  function UrlOf(path: Text, names: seq<Text>, parameters: map<Text, Text>): Result<Text, UrlError> {
    if |parameters| != |names| then Err(WrongCount)
    else if HasPrefix(TrimSuffix(path, END), [SLASH, SLASH]) then Err(NotRootRelative)
    else
      var segments := ExpandAll(Split(TrimSuffix(path, END)), parameters);
      if segments.Err? then Err(segments.error) else Ok(Join(segments.value))
  }

  lemma ConsSnoc(first: Text, rest: seq<Text>, last: Text)
    ensures [first] + (rest + [last]) == [first] + rest + [last]
  {
  }

  lemma {:induction false} ExpandAllSnoc(segments: seq<Text>, last: Text, parameters: map<Text, Text>)
    ensures ExpandAll(segments + [last], parameters) ==
            match ExpandAll(segments, parameters)
            case Err(e) => Err(e)
            case Ok(out) => (match Expand(last, parameters) case Err(e) => Err(e) case Ok(x) => Ok(out + [x]))
  {
    if segments == [] {
      assert segments + [last] == [last] && [last][1..] == [];
      var x := Expand(last, parameters);
      assert x.Ok? ==> [x.value] + [] == [] + [x.value];
    } else {
      ExpandAllSnoc(segments[1..], last, parameters);
      assert (segments + [last])[0] == segments[0] && (segments + [last])[1..] == segments[1..] + [last];
      var first, rest := Expand(segments[0], parameters), ExpandAll(segments[1..], parameters);
      var x := Expand(last, parameters);
      if first.Ok? && rest.Ok? && x.Ok? {
        ConsSnoc(first.value, rest.value, x.value);
      }
    }
  }

  lemma {:induction false} ExpandAllError(done: seq<Text>, rest: seq<Text>, parameters: map<Text, Text>)
    requires ExpandAll(done, parameters).Err?
    ensures ExpandAll(done + rest, parameters) == ExpandAll(done, parameters)
  {
    assert (done + rest)[1..] == done[1..] + rest;
    if Expand(done[0], parameters).Ok? {
      ExpandAllError(done[1..], rest, parameters);
    }
  }

  lemma {:induction false} EscapePartsBad(parts: seq<Text>, wildcard: bool, i: nat)
    requires i < |parts| && BadPart(parts[i], wildcard, i == |parts| - 1)
    ensures EscapeParts(parts, wildcard).None?
  {
    if i > 0 {
      EscapePartsBad(parts[1..], wildcard, i - 1);
    }
  }

  lemma {:induction false} EscapePartsGood(parts: seq<Text>, wildcard: bool, out: seq<Text>)
    requires |out| == |parts|
    requires forall i :: 0 <= i < |parts| ==>
        !BadPart(parts[i], wildcard, i == |parts| - 1) && out[i] == Escape(parts[i])
    ensures EscapeParts(parts, wildcard) == Some(out)
  {
    if parts != [] {
      EscapePartsGood(parts[1..], wildcard, out[1..]);
      assert [out[0]] + out[1..] == out;
    }
  }

  /** App.URL: nested loops that overwrite the segments and the parts of a value. */
  method Url(path: Text, names: seq<Text>, parameters: map<Text, Text>) returns (r: Result<Text, UrlError>)
    ensures r == UrlOf(path, names, parameters)
  {
    if |parameters| != |names| {
      return Err(WrongCount);
    }
    var trimmed := TrimSuffix(path, END);
    if HasPrefix(trimmed, [SLASH, SLASH]) {
      return Err(NotRootRelative);
    }
    var segments := Split(trimmed);
    ghost var original := segments;
    var index := 0;
    while index < |segments|
      invariant 0 <= index <= |segments| == |original|
      invariant forall i :: index <= i < |segments| ==> segments[i] == original[i]
      invariant ExpandAll(original[..index], parameters) == Ok(segments[..index])
    {
      var expanded := ExpandSegment(segments[index], parameters);
      Around(original, index);
      ExpandedPrefix(original[..index], original[index], original[index + 1..], segments[..index], parameters);
      if expanded.Err? {
        return Err(expanded.error);
      }
      UpdatedPrefix(segments, index, expanded.value);
      segments := segments[index := expanded.value];
      index := index + 1;
    }
    assert original[..|original|] == original && segments[..|segments|] == segments;
    return Ok(Join(segments));
  }

  /** Where the loop of App.URL stands after one more segment. */
  lemma ExpandedPrefix(done: seq<Text>, segment: Text, rest: seq<Text>, out: seq<Text>, parameters: map<Text, Text>)
    requires ExpandAll(done, parameters) == Ok(out)
    ensures var x := Expand(segment, parameters);
            && (x.Err? ==> ExpandAll(done + [segment] + rest, parameters) == Err(x.error))
            && (x.Ok? ==> ExpandAll(done + [segment], parameters) == Ok(out + [x.value]))
  {
    ExpandAllSnoc(done, segment, parameters);
    if Expand(segment, parameters).Err? {
      ExpandAllError(done + [segment], rest, parameters);
    }
  }

  /** The body of that loop: a literal is re-encoded, a parameter is filled in. */
  method ExpandSegment(segment: Text, parameters: map<Text, Text>) returns (r: Result<Text, UrlError>)
    ensures r == Expand(segment, parameters)
  {
    if !Braced(segment) {
      var decoded := Decoded(segment);
      if Dotted(decoded) {
        return Ok(segment);
      }
      return Ok(Escape(decoded));
    }
    var parameter := Inner(segment);
    var wildcard := HasSuffix(parameter, DOTS);
    parameter := TrimSuffix(parameter, DOTS);
    if parameter !in parameters {
      return Err(MissingParameter);
    }
    r := FillSegment(parameter, wildcard, parameters);
  }

  /** The inner loop of App.URL, over the parts of one value. */
  method FillSegment(name: Text, wildcard: bool, parameters: map<Text, Text>) returns (r: Result<Text, UrlError>)
    requires name in parameters
    ensures r == Fill(name, wildcard, parameters)
  {
    var parts := [parameters[name]];
    if wildcard {
      parts := Split(parameters[name]);
    }
    ghost var original := parts;
    var partIndex := 0;
    while partIndex < |parts|
      invariant 0 <= partIndex <= |parts| == |original|
      invariant forall i :: partIndex <= i < |parts| ==> parts[i] == original[i]
      invariant forall i :: 0 <= i < partIndex ==>
                  !BadPart(original[i], wildcard, i == |original| - 1) && parts[i] == Escape(original[i])
    {
      var part := parts[partIndex];
      if part == [DOT] || part == [DOT, DOT] || part == [SLASH] ||
          (part == [] && (!wildcard || partIndex != |parts| - 1)) {
        EscapePartsBad(original, wildcard, partIndex);
        return Err(BadSegment);
      }
      parts := parts[partIndex := Escape(part)];
      partIndex := partIndex + 1;
    }
    EscapePartsGood(original, wildcard, parts);
    return Ok(Join(parts));
  }

  // ----- parameter names of a pattern -----

  /** strings.IndexByte, or the length when absent. */
  function IndexOf(s: Text, b: byte): (n: nat)
    ensures n <= |s|
  {
    if s == [] || s[0] == b then 0 else 1 + IndexOf(s[1..], b)
  }

  lemma {:induction false} IndexOfFirst(s: Text, b: byte)
    ensures Free(s[..IndexOf(s, b)], b) && (IndexOf(s, b) < |s| ==> s[IndexOf(s, b)] == b)
  {
    if s != [] && s[0] != b {
      IndexOfFirst(s[1..], b);
      assert s[..IndexOf(s, b)] == [s[0]] + s[1..][..IndexOf(s[1..], b)];
    }
  }

  lemma {:induction false} IndexOfUnique(s: Text, b: byte, n: nat)
    requires n <= |s| && Free(s[..n], b) && (n < |s| ==> s[n] == b)
    ensures IndexOf(s, b) == n
  {
    if n > 0 {
      assert s[..n][0] == s[0] && s[1..][..n - 1] == s[..n][1..];
      IndexOfUnique(s[1..], b, n - 1);
    }
  }

  function NameIn(group: Text): seq<Text> {
    var name := TrimSuffix(group, DOTS);
    if name != [DOLLAR] && name != [] then [name] else []
  }

  /** The first pair of braces of a pattern: what it encloses and what follows it. */
  datatype Group = NoGroup | Group(inner: Text, rest: Text)

  function FirstGroup(pattern: Text): (g: Group)
    ensures g.Group? ==> |g.rest| < |pattern|
  {
    var start := IndexOf(pattern, OPEN);
    if start == |pattern| then NoGroup else Enclosed(pattern[start + 1..])
  }

  /** The group whose opening brace was just read. */
  function Enclosed(left: Text): (g: Group)
    ensures g.Group? ==> |g.rest| < |left|
  {
    var end := IndexOf(left, CLOSE);
    if end == |left| then NoGroup else Group(left[..end], left[end + 1..])
  }

  function ParameterNames(pattern: Text): seq<Text>
    decreases |pattern|
  {
    match FirstGroup(pattern)
    case NoGroup => []
    case Group(inner, rest) => NameIn(inner) + ParameterNames(rest)
  }

  /** One more group read: its name, if it has one, joins the names found so far. */
  lemma GroupRead(found: seq<Text>, pattern: Text, inner: Text, rest: Text)
    requires FirstGroup(pattern) == Group(inner, rest)
    ensures found + ParameterNames(pattern) == found + NameIn(inner) + ParameterNames(rest)
  {
    Regroup(found, NameIn(inner), ParameterNames(rest));
  }

  lemma NoGroupLeft(found: seq<Text>, pattern: Text)
    requires FirstGroup(pattern) == NoGroup
    ensures found + ParameterNames(pattern) == found
  {
  }

  /** routeParameterNames: a loop over a shrinking string. */
  method RouteParameterNames(pattern: Text) returns (parameters: seq<Text>)
    ensures parameters == ParameterNames(pattern)
  {
    parameters := [];
    var left := pattern;
    ghost var all := ParameterNames(pattern);
    while true
      invariant parameters + ParameterNames(left) == all
      decreases |left|
    {
      ghost var before := left;
      var start := IndexOf(left, OPEN);
      if start == |left| {
        NoGroupLeft(parameters, before);
        return;
      }
      left := left[start + 1..];
      var end := IndexOf(left, CLOSE);
      if end == |left| {
        NoGroupLeft(parameters, before);
        return;
      }
      var inner := left[..end];
      var name := TrimSuffix(inner, DOTS);
      left := left[end + 1..];
      GroupRead(parameters, before, inner, left);
      if name != [DOLLAR] && name != [] {
        parameters := parameters + [name];
      } else {
        assert parameters + NameIn(inner) == parameters;
      }
    }
  }

  // ----- matching -----

  /** The reader: segments of a URL against the pieces of a template; a tail takes all remaining segments. */
  function Match(pieces: seq<Piece>, segments: seq<Text>): Option<map<Text, Text>> {
    if pieces == [] then (if segments == [] then Some(map[]) else None)
    else if segments == [] then None
    else
      match pieces[0]
      case Literal(text) =>
        if Unescape(segments[0]) == Some(Decoded(text)) then Match(pieces[1..], segments[1..]) else None
      case Single(name) =>
        var value := Unescape(segments[0]);
        var rest := Match(pieces[1..], segments[1..]);
        if value.None? || value.value == [] || rest.None? then None else Some(rest.value[name := value.value])
      case Tail(name) =>
        var parts := UnescapeAll(segments);
        if |pieces| > 1 || parts.None? then None else Some(map[name := Join(parts.value)])
  }

  function UnescapeAll(segments: seq<Text>): Option<seq<Text>> {
    if segments == [] then Some([])
    else
      var first, rest := Unescape(segments[0]), UnescapeAll(segments[1..]);
      if first.None? || rest.None? then None else Some([first.value] + rest.value)
  }
}
