/** JavaScript's `String.prototype.trim`, used by the schema's `trim: true` setters
    and by the handlers' explicit `.trim()` calls. */
module Text {

  /** The code points `trim` removes: ECMAScript's WhiteSpace (tab, vertical tab,
      form feed, space, no-break space, byte order mark and the Zs category) and
      LineTerminator (line feed, carriage return, line and paragraph separators). */
  predicate IsWhitespace(c: char)
  {
    || c == '\t' || c == '\n' || c == '\U{000B}' || c == '\U{000C}' || c == '\r'
    || c == ' ' || c == '\U{00A0}' || c == '\U{1680}'
    || ('\U{2000}' <= c <= '\U{200A}')
    || c == '\U{2028}' || c == '\U{2029}' || c == '\U{202F}' || c == '\U{205F}'
    || c == '\U{3000}' || c == '\U{FEFF}'
  }

  predicate AllWhitespace(s: string)
  {
    forall i :: 0 <= i < |s| ==> IsWhitespace(s[i])
  }

  /** Neither end of `s` is whitespace. */
  predicate IsTrimmed(s: string)
  {
    s == [] || (!IsWhitespace(s[0]) && !IsWhitespace(s[|s| - 1]))
  }

  /** `s` without whitespace at either end: leading whitespace goes first, then
      trailing whitespace. The result is trimmed, and empty exactly when `s` is all
      whitespace. */
  function Trim(s: string): (r: string)
    ensures IsTrimmed(r)
    ensures r == [] <==> AllWhitespace(s)
    decreases |s|
  {
    if s != [] && IsWhitespace(s[0]) then
      var r := Trim(s[1..]);
      assert AllWhitespace(s[1..]) ==> AllWhitespace(s) by {
        forall i | 1 <= i < |s| ensures s[i] == s[1..][i - 1] {
        }
      }
      r
    else if s != [] && IsWhitespace(s[|s| - 1]) then
      var r := Trim(s[..|s| - 1]);
      assert AllWhitespace(s[..|s| - 1]) ==> AllWhitespace(s) by {
        forall i | 0 <= i < |s| - 1 ensures s[i] == s[..|s| - 1][i] {
        }
      }
      r
    else
      s
  }

  /** The number of whitespace characters `s` starts with. */
  function Leading(s: string): (n: nat)
    ensures n <= |s|
    ensures forall i :: 0 <= i < n ==> IsWhitespace(s[i])
    ensures n < |s| ==> !IsWhitespace(s[n])
  {
    if s != [] && IsWhitespace(s[0]) then
      var n := 1 + Leading(s[1..]);
      assert forall i :: 1 <= i < n ==> s[i] == s[1..][i - 1];
      n
    else
      0
  }

  /** `Trim` cuts out one infix of `s`: what follows the leading whitespace, up to where
      the trailing whitespace begins. Only whitespace is dropped, and only at the ends. */
  lemma TrimIsInfix(s: string)
    ensures var k := Leading(s);
      && k + |Trim(s)| <= |s|
      && Trim(s) == s[k..k + |Trim(s)|]
      && AllWhitespace(s[k + |Trim(s)|..])
  {
    TrimStartsAfterLeading(s);
    TrimTailIsWhitespace(s);
  }

  /** The trimmed text is the part of `s` right after its leading whitespace. */
  lemma {:induction false} TrimStartsAfterLeading(s: string)
    ensures var k := Leading(s); k + |Trim(s)| <= |s| && Trim(s) == s[k..k + |Trim(s)|]
    decreases |s|
  {
    if s != [] && IsWhitespace(s[0]) {
      TrimStartsAfterLeading(s[1..]);
      InfixOfTail(s, Leading(s[1..]), |Trim(s)|);
    } else if s != [] && IsWhitespace(s[|s| - 1]) {
      TrimStartsAfterLeading(s[..|s| - 1]);
      PrefixOfInit(s, |Trim(s)|);
    }
  }

  /** Everything after the trimmed text is whitespace. */
  lemma {:induction false} TrimTailIsWhitespace(s: string)
    ensures Leading(s) + |Trim(s)| <= |s|
    ensures AllWhitespace(s[Leading(s) + |Trim(s)|..])
    decreases |s|
  {
    if s != [] && IsWhitespace(s[0]) {
      TrimTailIsWhitespace(s[1..]);
      assert Leading(s) == 1 + Leading(s[1..]) && Trim(s) == Trim(s[1..]);
      SuffixOfTail(s, Leading(s[1..]) + |Trim(s)|);
    } else if s != [] && IsWhitespace(s[|s| - 1]) {
      var t := s[..|s| - 1];
      TrimTailIsWhitespace(t);
      assert Leading(s) == 0 && Leading(t) == 0 && Trim(s) == Trim(t);
      WhitespaceSuffixOfInit(s, |Trim(s)|);
    }
  }

  /** An infix of `s[1..]` is the infix of `s` one place further on. */
  lemma InfixOfTail(s: string, k: nat, n: nat)
    requires 1 + k + n <= |s|
    ensures s[1..][k..k + n] == s[k + 1..k + 1 + n]
  {
  }

  /** A suffix of `s[1..]` is a suffix of `s`. */
  lemma SuffixOfTail(s: string, j: nat)
    requires j + 1 <= |s|
    ensures s[1..][j..] == s[j + 1..]
  {
  }

  /** A prefix of `s` without its last character is a prefix of `s`. */
  lemma PrefixOfInit(s: string, n: nat)
    requires n < |s|
    ensures s[..|s| - 1][..n] == s[..n]
  {
  }

  /** A whitespace suffix of `s` without its last character, followed by whitespace, is a
      whitespace suffix of `s`. */
  lemma WhitespaceSuffixOfInit(s: string, n: nat)
    requires n < |s| && IsWhitespace(s[|s| - 1])
    requires AllWhitespace(s[..|s| - 1][n..])
    ensures AllWhitespace(s[n..])
  {
    forall i | 0 <= i < |s| - 1 - n ensures IsWhitespace(s[n..][i]) {
      assert s[n..][i] == s[..|s| - 1][n..][i];
    }
  }

  /** A trimmed string is its own trim. */
  lemma TrimmedIsFixed(s: string)
    requires IsTrimmed(s)
    ensures Trim(s) == s
  {
  }

  /** Trimming twice is trimming once. */
  lemma TrimIdempotent(s: string)
    ensures Trim(Trim(s)) == Trim(s)
  {
    TrimmedIsFixed(Trim(s));
  }
}
