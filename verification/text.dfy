/** Plain string facts used to talk about error messages: a Go test that calls
    `assert.ErrorContains(t, err, want)` checks that `want` occurs somewhere in
    the rendered error. */
module Text {

  /** `sub` occurs in `s` at position `i`. */
  predicate OccursAt(s: string, sub: string, i: int)
  {
    0 <= i && i + |sub| <= |s| && s[i..i + |sub|] == sub
  }

  /** `sub` occurs somewhere in `s` (Go's `strings.Contains`). */
  predicate Contains(s: string, sub: string)
  {
    exists i | 0 <= i <= |s| :: OccursAt(s, sub, i)
  }

  /** Wrapping an error with a prefix (`fmt.Errorf("ctx: %w", err)`) keeps
      every fragment of the wrapped message. */
  lemma ContainsAfterPrefix(prefix: string, s: string, sub: string)
    requires Contains(s, sub)
    ensures Contains(prefix + s, sub)
  {
    var i :| 0 <= i <= |s| && OccursAt(s, sub, i);
    assert (prefix + s)[|prefix| + i..|prefix| + i + |sub|] == s[i..i + |sub|];
    assert OccursAt(prefix + s, sub, |prefix| + i);
  }

  /** A string contains each of its suffixes. */
  lemma ContainsSuffix(prefix: string, sub: string)
    ensures Contains(prefix + sub, sub)
  {
    assert (prefix + sub)[|prefix|..|prefix| + |sub|] == sub;
    assert OccursAt(prefix + sub, sub, |prefix|);
  }

  /** A string contains each of its prefixes. */
  lemma ContainsPrefix(pre: string, rest: string)
    ensures Contains(pre + rest, pre)
  {
    assert (pre + rest)[0..|pre|] == pre;
    assert OccursAt(pre + rest, pre, 0);
  }

  predicate IsDigit(c: char)
  {
    '0' <= c <= '9'
  }

  predicate IsLowerAlnum(c: char)
  {
    'a' <= c <= 'z' || IsDigit(c)
  }
}
