/** `escapeRegex`: a backslash is put in front of every regular-expression
    operator character, so that a literal delimiter can be used as a pattern. */
module Escape {

  /** The character class of `matchOperatorRegex`: - | \ { } ( ) [ ] ^ $ + * ? .
      Letters, digits and spaces are never operators. */
  predicate IsOperator(c: char)
    ensures IsOperator(c) ==> !('a' <= c <= 'z' || 'A' <= c <= 'Z' || '0' <= c <= '9' || c == ' ')
  {
    c in "-|\\{}()[]^$+*?."
  }

  /** Number of operator characters in `s`. */
  function CountOperators(s: string): nat {
    if s == [] then 0
    else (if IsOperator(s[0]) then 1 else 0) + CountOperators(s[1..])
  }

  /** The escaped form of one character. */
  function EscapeChar(c: char): string {
    if IsOperator(c) then ['\\', c] else [c]
  }

  /** `str.replace(matchOperatorRegex, '\\$&')`: every operator character is
      replaced by a backslash followed by itself. */
  function EscapeRegex(s: string): (r: string)
    ensures |r| == |s| + CountOperators(s)
  {
    if s == [] then [] else EscapeChar(s[0]) + EscapeRegex(s[1..])
  }

  /** The strings `EscapeRegex` can produce: every operator character stands
      behind a backslash, and every backslash escapes an operator. */
  predicate WellEscaped(r: string)
    decreases |r|
  {
    if r == [] then true
    else if r[0] == '\\' then |r| >= 2 && IsOperator(r[1]) && WellEscaped(r[2..])
    else !IsOperator(r[0]) && WellEscaped(r[1..])
  }

  /** Removes the backslash of every escaped operator; the literal text that an
      escaped pattern stands for. */
  function Unescape(r: string): (s: string)
    ensures |s| <= |r|
    decreases |r|
  {
    if r == [] then []
    else if |r| >= 2 && r[0] == '\\' && IsOperator(r[1]) then [r[1]] + Unescape(r[2..])
    else [r[0]] + Unescape(r[1..])
  }

  /** Escaping works character by character and keeps the order. */
  lemma {:induction false} EscapeAppend(a: string, b: string)
    ensures EscapeRegex(a + b) == EscapeRegex(a) + EscapeRegex(b)
    decreases |a|
  {
    if a == [] {
      assert a + b == b;
    } else {
      assert (a + b)[0] == a[0];
      assert (a + b)[1..] == a[1..] + b;
      EscapeAppend(a[1..], b);
    }
  }

  /** A string without operator characters is left unchanged. */
  lemma {:induction false} EscapeKeepsPlainText(s: string)
    requires forall j :: 0 <= j < |s| ==> !IsOperator(s[j])
    ensures EscapeRegex(s) == s
    decreases |s|
  {
    if s != [] {
      EscapeKeepsPlainText(s[1..]);
    }
  }

  /** Every escaped string is well escaped. */
  lemma {:induction false} EscapeIsWellEscaped(s: string)
    ensures WellEscaped(EscapeRegex(s))
    decreases |s|
  {
    if s != [] {
      EscapeIsWellEscaped(s[1..]);
      var r := EscapeRegex(s);
      if IsOperator(s[0]) {
        assert r[0] == '\\' && r[1] == s[0] && r[2..] == EscapeRegex(s[1..]);
      } else {
        assert s[0] != '\\';
        assert r[0] == s[0] && r[1..] == EscapeRegex(s[1..]);
      }
    }
  }

  /** Removing the inserted backslashes gives back the input. */
  lemma {:induction false} UnescapeEscape(s: string)
    ensures Unescape(EscapeRegex(s)) == s
    decreases |s|
  {
    if s != [] {
      UnescapeEscape(s[1..]);
      var r := EscapeRegex(s);
      if IsOperator(s[0]) {
        assert r[0] == '\\' && r[1] == s[0] && r[2..] == EscapeRegex(s[1..]);
      } else {
        assert s[0] != '\\';
        assert r[0] == s[0] && r[1..] == EscapeRegex(s[1..]);
      }
    }
  }

  /** Conversely, a well-escaped string is the escaped form of its literal text,
      so `EscapeRegex` is a bijection onto the well-escaped strings. */
  lemma {:induction false} EscapeUnescape(r: string)
    requires WellEscaped(r)
    ensures EscapeRegex(Unescape(r)) == r
    decreases |r|
  {
    if r != [] {
      if r[0] == '\\' {
        EscapeUnescape(r[2..]);
        assert Unescape(r) == [r[1]] + Unescape(r[2..]);
        assert r == [r[0], r[1]] + r[2..];
      } else {
        EscapeUnescape(r[1..]);
        assert Unescape(r) == [r[0]] + Unescape(r[1..]);
        assert r == [r[0]] + r[1..];
      }
    }
  }
}
