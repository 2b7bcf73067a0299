/** Splitting a sequence at a separator and joining it again. */
module Splitting {

  predicate Free<T(==)>(s: seq<T>, b: T) {
    forall i :: 0 <= i < |s| ==> s[i] != b
  }

  function SplitAt<T(==)>(s: seq<T>, sep: T): (parts: seq<seq<T>>)
    ensures |parts| >= 1
  {
    if s == [] then [[]]
    else
      var rest := SplitAt(s[1..], sep);
      if s[0] == sep then [[]] + rest else [[s[0]] + rest[0]] + rest[1..]
  }

  function JoinWith<T>(parts: seq<seq<T>>, sep: T): seq<T> {
    if parts == [] then []
    else if |parts| == 1 then parts[0]
    else parts[0] + [sep] + JoinWith(parts[1..], sep)
  }

  lemma {:induction false} SplitFree<T>(s: seq<T>, sep: T)
    ensures forall i :: 0 <= i < |SplitAt(s, sep)| ==> Free(SplitAt(s, sep)[i], sep)
  {
    if s != [] {
      SplitFree(s[1..], sep);
    }
  }

  lemma {:induction false} JoinSplit<T>(s: seq<T>, sep: T)
    ensures JoinWith(SplitAt(s, sep), sep) == s
  {
    if s != [] {
      JoinSplit(s[1..], sep);
      var rest := SplitAt(s[1..], sep);
      if s[0] == sep {
        assert SplitAt(s, sep)[1..] == rest;
        assert [] + [sep] + s[1..] == s;
      } else if |rest| > 1 {
        assert SplitAt(s, sep)[1..] == rest[1..];
        assert [s[0]] + rest[0] + [sep] + JoinWith(rest[1..], sep) == [s[0]] + s[1..];
      }
    }
  }

  lemma {:induction false} SplitPart<T>(p: seq<T>, sep: T)
    requires Free(p, sep)
    ensures SplitAt(p, sep) == [p]
  {
    if p != [] {
      SplitPart(p[1..], sep);
      assert [p[0]] + p[1..] == p;
    }
  }

  lemma {:induction false} SplitCons<T>(p: seq<T>, rest: seq<T>, sep: T)
    requires Free(p, sep)
    ensures SplitAt(p + [sep] + rest, sep) == [p] + SplitAt(rest, sep)
  {
    var s := p + [sep] + rest;
    if p == [] {
      assert s[1..] == rest;
    } else {
      SplitCons(p[1..], rest, sep);
      assert s[1..] == p[1..] + [sep] + rest;
      assert [p[0]] + p[1..] == p;
    }
  }

  /** Joining parts that do not contain the separator loses nothing. */
  lemma {:induction false} SplitJoin<T>(parts: seq<seq<T>>, sep: T)
    requires parts != [] && forall i :: 0 <= i < |parts| ==> Free(parts[i], sep)
    ensures SplitAt(JoinWith(parts, sep), sep) == parts
  {
    if |parts| == 1 {
      SplitPart(parts[0], sep);
    } else {
      SplitJoin(parts[1..], sep);
      SplitCons(parts[0], JoinWith(parts[1..], sep), sep);
    }
  }
}
