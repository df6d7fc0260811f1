/**
 * The string operation the checklist relies on: JavaScript's
 * `String.prototype.trim`, which strips ECMAScript WhiteSpace and
 * LineTerminator characters from both ends of a string.
 */
module Text {

  /** ECMAScript WhiteSpace (TAB, VT, FF, SP, NBSP, ZWNBSP and the Zs
      category) and LineTerminator (LF, CR, LS, PS). */
  predicate IsWhitespace(c: char) {
    || c == '\t' || c == '\n' || c == '\U{B}' || c == '\U{C}' || c == '\r'
    || c == ' ' || c == '\U{A0}' || c == '\U{1680}'
    || ('\U{2000}' <= c <= '\U{200A}')
    || c == '\U{2028}' || c == '\U{2029}' || c == '\U{202F}' || c == '\U{205F}'
    || c == '\U{3000}' || c == '\U{FEFF}'
  }

  predicate AllWhitespace(s: string) {
    forall i :: 0 <= i < |s| ==> IsWhitespace(s[i])
  }

  /** `s` without its leading whitespace. */
  function TrimStart(s: string): (r: string)
    ensures |r| <= |s| && r == s[|s| - |r|..]
    ensures AllWhitespace(s[..|s| - |r|])
    ensures r != [] ==> !IsWhitespace(r[0])
  {
    if s != [] && IsWhitespace(s[0]) then TrimStart(s[1..]) else s
  }

  /** `s` without its trailing whitespace. */
  function TrimEnd(s: string): (r: string)
    ensures |r| <= |s| && r == s[..|r|]
    ensures AllWhitespace(s[|r|..])
    ensures r != [] ==> !IsWhitespace(r[|r| - 1])
  {
    if s != [] && IsWhitespace(s[|s| - 1]) then TrimEnd(s[..|s| - 1]) else s
  }

  /** `s.trim()`: the part of `s` between its leading and its trailing
      whitespace; it is empty exactly when `s` is all whitespace. */
  function Trim(s: string): (r: string)
    ensures |r| <= |s|
    ensures r != [] ==> !IsWhitespace(r[0]) && !IsWhitespace(r[|r| - 1])
    ensures r == [] <==> AllWhitespace(s)
  {
    TrimBothEnds(s);
    TrimEnd(TrimStart(s))
  }

  /** Cutting both ends leaves nothing exactly when everything was
      whitespace; otherwise the first kept character is not whitespace. */
  lemma TrimBothEnds(s: string)
    ensures var r := TrimEnd(TrimStart(s));
            && (r != [] ==> !IsWhitespace(r[0]))
            && (r == [] <==> AllWhitespace(s))
  {
    var front := TrimStart(s);
    var r := TrimEnd(front);
    var i := |s| - |front|;
    if r != [] {
      assert r[0] == front[0] == s[i];
    } else {
      assert AllWhitespace(front) by {
        assert front[|r|..] == front;
      }
      assert front == [];
      assert s[..i] == s;
    }
  }

  /** What `trim` keeps is a contiguous piece of `s`, with only whitespace
      cut from either side. */
  lemma TrimIsInfix(s: string)
    ensures exists i :: 0 <= i <= |s| - |Trim(s)| && Trim(s) == s[i..i + |Trim(s)|]
                        && AllWhitespace(s[..i]) && AllWhitespace(s[i + |Trim(s)|..])
  {
    var front := TrimStart(s);
    var r := TrimEnd(front);
    var i := |s| - |front|;
    assert Trim(s) == r;
    assert s[i..] == front;
    assert s[i..i + |r|] == front[..|r|] == r;
    assert s[i + |r|..] == front[|r|..];
    assert 0 <= i <= |s| - |r| && AllWhitespace(s[..i]) && AllWhitespace(s[i + |r|..]);
  }

  /** JavaScript's `!s.trim()`: the trimmed string is the empty (falsy) string. */
  predicate IsBlank(s: string) {
    Trim(s) == []
  }

  /** Trimming twice is trimming once. */
  lemma {:induction false} TrimIdempotent(s: string)
    ensures Trim(Trim(s)) == Trim(s)
  {
    var r := Trim(s);
    assert Trim(r) == TrimEnd(TrimStart(r));
    if r != [] {
      assert !IsWhitespace(r[0]) && !IsWhitespace(r[|r| - 1]);
      assert TrimStart(r) == r;
      assert TrimEnd(r) == r;
    }
  }
}
