/** Path text as bytes: splitting on slashes and percent-encoding (section 2.1 of RFC 3986). */
module UrlText {
  import opened Prelude
  import opened Splitting

  type byte = b: int | 0 <= b < 256

  type Text = seq<byte>

  const SLASH: byte := 47
  const PERCENT: byte := 37
  const DOT: byte := 46
  const OPEN: byte := 123
  const CLOSE: byte := 125
  const DOLLAR: byte := 36

  const DOTS: Text := [DOT, DOT, DOT]
  const END: Text := [OPEN, DOLLAR, CLOSE]

  predicate HasPrefix(s: Text, p: Text) {
    |p| <= |s| && s[..|p|] == p
  }

  predicate HasSuffix(s: Text, p: Text) {
    |p| <= |s| && s[|s| - |p|..] == p
  }

  function TrimSuffix(s: Text, p: Text): Text {
    if HasSuffix(s, p) then s[..|s| - |p|] else s
  }

  // ----- splitting -----

  /** strings.Split(s, "/"). */
  function Split(s: Text): (parts: seq<Text>)
    ensures |parts| >= 1
  {
    SplitAt(s, SLASH)
  }

  /** strings.Join(parts, "/"). */
  function Join(parts: seq<Text>): Text {
    JoinWith(parts, SLASH)
  }

  // ----- percent-encoding -----

  /** The bytes url.PathEscape leaves alone in a path segment. */
  predicate Plain(b: byte) {
    || 97 <= b <= 122 || 65 <= b <= 90 || 48 <= b <= 57        // letters and digits
    || b == 45 || b == 95 || b == 46 || b == 126               // - _ . ~
    || b == 36 || b == 38 || b == 43 || b == 58 || b == 61 || b == 64 // $ & + : = @
  }

  function HexDigit(n: int): byte
    requires 0 <= n < 16
  {
    if n < 10 then 48 + n else 55 + n
  }

  function HexValue(b: byte): Option<int> {
    if 48 <= b <= 57 then Some(b - 48)
    else if 65 <= b <= 70 then Some(b - 55)
    else if 97 <= b <= 102 then Some(b - 87)
    else None
  }

  function EscapeByte(b: byte): Text {
    if Plain(b) then [b] else [PERCENT, HexDigit(b / 16), HexDigit(b % 16)]
  }

  /** url.PathEscape. */
  function Escape(s: Text): Text {
    if s == [] then [] else EscapeByte(s[0]) + Escape(s[1..])
  }

  /** url.PathUnescape; None is its error. */
  function Unescape(s: Text): Option<Text> {
    if s == [] then Some([])
    else if s[0] != PERCENT then
      var rest := Unescape(s[1..]);
      if rest.None? then None else Some([s[0]] + rest.value)
    else if |s| < 3 || HexValue(s[1]).None? || HexValue(s[2]).None? then None
    else
      var rest := Unescape(s[3..]);
      if rest.None? then None else Some([16 * HexValue(s[1]).value + HexValue(s[2]).value] + rest.value)
  }

  lemma HexRoundTrip(n: int)
    requires 0 <= n < 16
    ensures HexValue(HexDigit(n)) == Some(n)
  {
  }

  /** Decoding undoes encoding, for every byte string. */
  lemma {:induction false} EscapeRoundTrip(s: Text)
    ensures Unescape(Escape(s)) == Some(s)
  {
    if s != [] {
      EscapeRoundTrip(s[1..]);
      var e := EscapeByte(s[0]);
      assert (e + Escape(s[1..]))[|e|..] == Escape(s[1..]);
      if Plain(s[0]) {
        assert [s[0]] + s[1..] == s;
      } else {
        HexRoundTrip(s[0] / 16);
        HexRoundTrip(s[0] % 16);
        assert [s[0]] + s[1..] == s;
      }
    }
  }

  /** The characters that may stand in a path segment as they are. */
  predicate Untouched(c: char) {
    || 'a' <= c <= 'z' || 'A' <= c <= 'Z' || '0' <= c <= '9'
    || c == '-' || c == '_' || c == '.' || c == '~'
    || c == '$' || c == '&' || c == '+' || c == ':' || c == '=' || c == '@'
  }

  /** A digit of a hexadecimal number, in upper case. */
  function UpperHex(n: int): char
    requires 0 <= n < 16
  {
    if n < 10 then '0' + n as char else 'A' + (n - 10) as char
  }

  lemma {:induction false} EscapeAppend(a: Text, c: Text)
    ensures Escape(a + c) == Escape(a) + Escape(c)
  {
    if a == [] {
      assert a + c == c;
    } else {
      assert (a + c)[1..] == a[1..] + c;
      EscapeAppend(a[1..], c);
      Regroup(EscapeByte(a[0]), Escape(a[1..]), Escape(c));
    }
  }

  lemma EscapeOne(b: byte)
    ensures Escape([b]) == if Untouched(b as char) then [b]
                           else ['%' as int, UpperHex(b / 16) as int, UpperHex(b % 16) as int]
  {
    var one := [b];
    assert one[1..] == [] && Escape(one) == EscapeByte(b) + [] == EscapeByte(b);
  }

  /** Each byte is encoded by itself: left alone exactly when it may stand in a segment, else as % and two digits. */
  lemma EscapeByteByByte(a: Text, b: byte, c: Text)
    ensures Escape(a + [b] + c) ==
            Escape(a) + (if Untouched(b as char) then [b]
                         else ['%' as int, UpperHex(b / 16) as int, UpperHex(b % 16) as int]) + Escape(c)
  {
    EscapeAppend(a + [b], c);
    EscapeAppend(a, [b]);
    EscapeOne(b);
  }

  lemma {:induction false} EscapeFree(s: Text)
    ensures Free(Escape(s), SLASH)
  {
    if s != [] {
      EscapeFree(s[1..]);
    }
  }

  /** An encoded segment is empty or a dot segment only if the segment was. */
  lemma EscapeKeepsDots(s: Text)
    ensures Escape(s) == [] <==> s == []
    ensures Escape(s) == [DOT] <==> s == [DOT]
    ensures Escape(s) == [DOT, DOT] <==> s == [DOT, DOT]
  {
    EscapeRoundTrip(s);
    assert Escape([DOT]) == EscapeByte(DOT) + Escape([DOT][1..]) == [DOT];
    assert [DOT, DOT][1..] == [DOT];
    assert Escape([DOT, DOT]) == EscapeByte(DOT) + Escape([DOT]) == [DOT, DOT];
    assert [DOT] + [] == [DOT] && [DOT] + [DOT] == [DOT, DOT];
    assert Unescape([DOT][1..]) == Some([]) && Unescape([DOT]) == Some([DOT]);
    assert Unescape([DOT, DOT]) == Some([DOT, DOT]);
  }
}
