/** The few text functions of the Go library that both executors rely on. */
module Text {

  /** unicode.IsSpace. */
  predicate IsSpace(c: char) {
    || c == '\t' || c == '\n' || c == '\U{0B}' || c == '\U{0C}' || c == '\r' || c == ' '
    || c == '\U{85}' || c == '\U{A0}' || c == '\U{1680}' || '\U{2000}' <= c <= '\U{200A}'
    || c == '\U{2028}' || c == '\U{2029}' || c == '\U{202F}' || c == '\U{205F}' || c == '\U{3000}'
  }

  predicate Trimmed(s: string) {
    s == "" || (!IsSpace(s[0]) && !IsSpace(s[|s| - 1]))
  }

  predicate Blank(s: string) {
    forall i :: 0 <= i < |s| ==> IsSpace(s[i])
  }

  /** strings.TrimSpace. */
  function TrimSpace(s: string): (r: string)
    ensures Trimmed(r)
    ensures r == "" <==> Blank(s)
    ensures Trimmed(s) ==> r == s
  {
    if s == "" then ""
    else if IsSpace(s[0]) then TrimSpace(s[1..])
    else if IsSpace(s[|s| - 1]) then TrimSpace(s[..|s| - 1])
    else s
  }

  lemma BlankFirst(c: char, s: string)
    requires IsSpace(c) && Blank(s)
    ensures Blank([c] + s)
  {
  }

  lemma BlankLast(s: string, c: char)
    requires IsSpace(c) && Blank(s)
    ensures Blank(s + [c])
  {
  }

  lemma Regrouped(c: char, before: string, middle: string, after: string, d: char)
    ensures [c] + (before + middle + after) == [c] + before + middle + after
    ensures before + middle + after + [d] == before + middle + (after + [d])
  {
  }

  /** Trimming cuts white space at both ends, and only that. */
  lemma {:induction false} TrimSpaceCuts(s: string) returns (before: string, after: string)
    ensures s == before + TrimSpace(s) + after && Blank(before) && Blank(after)
    decreases |s|
  {
    if s == "" || (!IsSpace(s[0]) && !IsSpace(s[|s| - 1])) {
      before, after := "", "";
      assert TrimSpace(s) == s;
    } else if IsSpace(s[0]) {
      var rest := s[1..];
      before, after := TrimSpaceCuts(rest);
      BlankFirst(s[0], before);
      Regrouped(s[0], before, TrimSpace(rest), after, s[0]);
      assert s == [s[0]] + rest && TrimSpace(s) == TrimSpace(rest);
      before := [s[0]] + before;
    } else {
      var rest, c := s[..|s| - 1], s[|s| - 1];
      before, after := TrimSpaceCuts(rest);
      BlankLast(after, c);
      Regrouped(c, before, TrimSpace(rest), after, c);
      assert s == rest + [c] && TrimSpace(s) == TrimSpace(rest);
      after := after + [c];
    }
  }
}
