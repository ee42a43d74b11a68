/**
 * A global regular-expression replace (`text.replace(/.../g, ...)`) over a
 * hand-written matcher: the matcher is tried at each position from left to
 * right; where it matches, its replacement is emitted and scanning resumes
 * after the match; elsewhere one character is copied verbatim.
 */
module Rewrite {
  import opened Wrappers
  import opened Text

  /** A match at the start of a text: the text that replaces it, and what follows it. */
  datatype Hit = Hit(out: string, rest: string)

  /** A pattern anchored at the start of its argument, with its replacement built in. */
  type Matcher = string -> Option<Hit>

  /** A match consumes at least one character and leaves a suffix of the text. */
  ghost predicate Advances(s: string, r: Option<Hit>) {
    r.Some? ==> |r.value.rest| < |s| && Suffix(r.value.rest, s)
  }

  /** Every match the matcher reports is non-empty, as for the patterns of this project. */
  ghost predicate Consumes(m: Matcher) {
    forall s :: Advances(s, m(s))
  }

  /** The matcher matches at no position of `s`. */
  ghost predicate NoMatch(m: Matcher, s: string) {
    forall i | 0 <= i < |s| :: m(s[i..]).None?
  }

  /** Replace every leftmost, non-overlapping match of `m` in `s`. */
  function ReplaceAll(m: Matcher, s: string): (r: string)
    requires Consumes(m)
    decreases |s|
  {
    if s == [] then []
    else
      match m(s)
      case Some(h) =>
        assert Advances(s, m(s));
        h.out + ReplaceAll(m, h.rest)
      case None =>
        [s[0]] + ReplaceAll(m, s[1..])
  }

  /** Where the matcher matches nowhere, the text comes out unchanged. */
  lemma {:induction false} UnmatchedTextUnchanged(m: Matcher, s: string)
    requires Consumes(m)
    requires NoMatch(m, s)
    ensures ReplaceAll(m, s) == s
    decreases |s|
  {
    if s != [] {
      assert s[0..] == s;
      assert m(s).None?;
      forall i | 0 <= i < |s| - 1 ensures m(s[1..][i..]).None? {
        assert s[1..][i..] == s[i + 1..];
      }
      UnmatchedTextUnchanged(m, s[1..]);
      assert [s[0]] + s[1..] == s;
    }
  }

  /** Text in which no match starts is copied verbatim, and the rest is replaced as if on its own. */
  lemma {:induction false} CopiesUnmatchedPrefix(m: Matcher, p: string, s: string)
    requires Consumes(m)
    requires forall i | 0 <= i < |p| :: m((p + s)[i..]).None?
    ensures ReplaceAll(m, p + s) == p + ReplaceAll(m, s)
  {
    if p != [] {
      var ps := p + s;
      assert ps[0..] == ps;
      assert m(ps).None?;
      assert ps[1..] == p[1..] + s;
      forall i | 0 <= i < |p| - 1 ensures m((p[1..] + s)[i..]).None? {
        assert (p[1..] + s)[i..] == ps[i + 1..];
      }
      CopiesUnmatchedPrefix(m, p[1..], s);
      calc {
        ReplaceAll(m, ps);
        [ps[0]] + ReplaceAll(m, ps[1..]);
        [p[0]] + (p[1..] + ReplaceAll(m, s));
        { assert [p[0]] + p[1..] == p; }
        p + ReplaceAll(m, s);
      }
    } else {
      assert p + s == s;
    }
  }

  /**
   * The leftmost match is rewritten: the text before it is copied, its
   * replacement follows, and scanning resumes after the match.
   */
  lemma RewritesLeftmostMatch(m: Matcher, p: string, s: string)
    requires Consumes(m)
    requires forall i | 0 <= i < |p| :: m((p + s)[i..]).None?
    requires m(s).Some?
    ensures ReplaceAll(m, p + s) == p + m(s).value.out + ReplaceAll(m, m(s).value.rest)
  {
    CopiesUnmatchedPrefix(m, p, s);
    assert Advances(s, m(s));
  }
}
