/**
 * The two JavaScript string operations the popup relies on:
 * `String.prototype.trim` (the copy guard) and `String.prototype.includes`
 * (the end-of-session status check). Strings are sequences of characters.
 */
module Text {

  /** The characters `trim` removes: ECMAScript WhiteSpace and LineTerminator. */
  predicate IsWhitespace(c: char): (r: bool)
    // Among ASCII characters, exactly the space and the tab-to-carriage-return controls.
    ensures c < '\U{0080}' ==> (r <==> c == ' ' || '\t' <= c <= '\r')
    // Letters, digits and the other printable ASCII characters are never removed.
    ensures '!' <= c <= '~' ==> !r
  {
    || c == '\t' || c == '\n' || c == '\U{000B}' || c == '\U{000C}' || c == '\r'
    || c == ' ' || c == '\U{00A0}' || c == '\U{1680}'
    || ('\U{2000}' <= c <= '\U{200A}')
    || c == '\U{2028}' || c == '\U{2029}' || c == '\U{202F}' || c == '\U{205F}'
    || c == '\U{3000}' || c == '\U{FEFF}'
  }

  /** Drops leading whitespace: what remains is a suffix that starts with a non-blank character. */
  function TrimStart(s: string): (r: string)
    ensures |r| <= |s| && r == s[|s| - |r|..]
    ensures forall i :: 0 <= i < |s| - |r| ==> IsWhitespace(s[i])
    ensures r != [] ==> !IsWhitespace(r[0])
  {
    if s != [] && IsWhitespace(s[0]) then TrimStart(s[1..]) else s
  }

  /** Drops trailing whitespace: what remains is a prefix that ends with a non-blank character. */
  function TrimEnd(s: string): (r: string)
    ensures |r| <= |s| && r == s[..|r|]
    ensures forall i :: |r| <= i < |s| ==> IsWhitespace(s[i])
    ensures r != [] ==> !IsWhitespace(r[|r| - 1])
  {
    if s != [] && IsWhitespace(s[|s| - 1]) then TrimEnd(s[..|s| - 1]) else s
  }

  /** `s.trim()`: the result is empty exactly when every character of `s` is whitespace. */
  function Trim(s: string): (r: string)
    ensures r == [] <==> forall i :: 0 <= i < |s| ==> IsWhitespace(s[i])
    ensures r != [] ==> !IsWhitespace(r[0]) && !IsWhitespace(r[|r| - 1])
  {
    var t := TrimStart(s);
    var r := TrimEnd(t);
    assert r != [] ==> r[0] == t[0];
    assert t != [] ==> t[0] == s[|s| - |t|];
    r
  }

  predicate StartsWith(s: string, prefix: string) {
    |prefix| <= |s| && s[..|prefix|] == prefix
  }

  /** `s.includes(p)`: `p` occurs somewhere in `s` (the empty string occurs everywhere). */
  predicate Contains(s: string, p: string) {
    StartsWith(s, p) || (s != [] && Contains(s[1..], p))
  }

  /** `p` occurs in `s` starting at offset `i`. */
  predicate OccursAt(s: string, p: string, i: nat) {
    i + |p| <= |s| && s[i..i + |p|] == p
  }

  /** `includes` agrees with its textbook meaning: some offset of `s` starts an occurrence of `p`. */
  lemma {:induction false} ContainsIffOccurs(s: string, p: string)
    ensures Contains(s, p) <==> exists i: nat :: OccursAt(s, p, i)
  {
    if StartsWith(s, p) {
      assert OccursAt(s, p, 0);
    } else if s == [] {
      assert p != [];
    } else {
      ContainsIffOccurs(s[1..], p);
      forall i: nat | OccursAt(s[1..], p, i) ensures OccursAt(s, p, i + 1) {
        assert s[i + 1..i + 1 + |p|] == s[1..][i..i + |p|];
      }
      assert !OccursAt(s, p, 0) by {
        if |p| <= |s| {
          assert s[0..|p|] == s[..|p|];
        }
      }
      forall i: nat | 1 <= i && OccursAt(s, p, i) ensures OccursAt(s[1..], p, i - 1) {
        assert s[i..i + |p|] == s[1..][i - 1..i - 1 + |p|];
      }
    }
  }

  /**
   * A prefix that never uses the first character of `p` cannot take part in an
   * occurrence of `p`: `pre + s` contains `p` exactly when `s` does.
   */
  lemma {:induction false} ContainsSkipsPrefix(pre: string, s: string, p: string)
    requires p != [] && p[0] !in pre
    ensures Contains(pre + s, p) <==> Contains(s, p)
  {
    if pre == [] {
      assert pre + s == s;
    } else {
      assert (pre + s)[0] == pre[0];
      assert !StartsWith(pre + s, p);
      assert (pre + s)[1..] == pre[1..] + s;
      ContainsSkipsPrefix(pre[1..], s, p);
    }
  }

  /** A string that lacks the first character of `p` does not contain `p`. */
  lemma NotContainsWithoutHead(s: string, p: string)
    requires p != [] && p[0] !in s
    ensures !Contains(s, p)
  {
    ContainsSkipsPrefix(s, [], p);
    assert s + [] == s;
  }
}
