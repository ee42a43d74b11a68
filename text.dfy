/**
 * Character classes and scanning helpers shared by the translator and the
 * documentation migration scripts. Whitespace is ASCII only: the six
 * characters JavaScript's `\s` and `trim()` accept below U+0080.
 */
module Text {
  import opened Wrappers

  /** `\s` restricted to ASCII: space, tab, line feed, vertical tab, form feed, carriage return. */
  predicate IsSpace(c: char) {
    c == ' ' || c == '\t' || c == '\n' || c == '\U{000B}' || c == '\U{000C}' || c == '\r'
  }

  /** The line terminators that `.` refuses and that `^`/`$` see in multiline mode (ASCII only). */
  predicate IsLineBreak(c: char) {
    c == '\n' || c == '\r'
  }

  /** `\d`, which JavaScript restricts to ASCII digits. */
  predicate IsDigit(c: char) {
    '0' <= c <= '9'
  }

  /** `toUpperCase()` on a single character, restricted to ASCII letters. */
  function Upper(c: char): (u: char)
    ensures 'a' <= c <= 'z' ==> 'A' <= u <= 'Z' && u as int == c as int - 32
    ensures !('a' <= c <= 'z') ==> u == c
  {
    if 'a' <= c <= 'z' then (c as int - 32) as char else c
  }

  /** A regular-expression character class: `\s`, `\d`, or a negated set `[^...]`. */
  datatype CharClass = Space | Digit | Except(stops: set<char>)

  predicate In(cls: CharClass, c: char) {
    match cls
    case Space => IsSpace(c)
    case Digit => IsDigit(c)
    case Except(stops) => c !in stops
  }

  /** `r` is what is left of `s` after some prefix of it was consumed. */
  ghost predicate Suffix(r: string, s: string) {
    |r| <= |s| && r == s[|s| - |r|..]
  }

  /** Consuming in two steps leaves a suffix of the original text. */
  lemma SuffixTransitive(a: string, b: string, c: string)
    requires Suffix(a, b) && Suffix(b, c)
    ensures Suffix(a, c)
  {
    assert c[|c| - |b|..][|b| - |a|..] == c[|c| - |a|..];
  }

  /** The longest prefix of `s` made of characters of `cls` (a greedy `[...]*`). */
  function Span(cls: CharClass, s: string): (r: string)
    ensures r <= s
    ensures forall i | 0 <= i < |r| :: In(cls, r[i])
    ensures |r| < |s| ==> !In(cls, s[|r|])
  {
    if s != [] && In(cls, s[0]) then [s[0]] + Span(cls, s[1..]) else []
  }

  /** `\s*`: drop the leading whitespace. */
  function SkipSpace(s: string): (r: string)
    ensures Suffix(r, s)
    ensures r == [] || !IsSpace(r[0])
  {
    if s != [] && IsSpace(s[0]) then SkipSpace(s[1..]) else s
  }

  /** `\s+`: at least one whitespace character, then all of them. */
  function SkipSpace1(s: string): (r: Option<string>)
    ensures r.Some? <==> s != [] && IsSpace(s[0])
    ensures r.Some? ==> r.value == SkipSpace(s) && |r.value| < |s|
  {
    if s != [] && IsSpace(s[0]) then Some(SkipSpace(s)) else None
  }

  /** A literal: succeeds with the text after `lit` when `s` starts with it. */
  function Lit(lit: string, s: string): (r: Option<string>)
    ensures r.Some? <==> lit <= s
    ensures r.Some? ==> r.value == s[|lit|..] && Suffix(r.value, s)
  {
    if lit <= s then Some(s[|lit|..]) else None
  }

  /** An optional literal `x?`, taken whenever it is present (greedy). */
  function Opt(lit: string, s: string): (r: string)
    ensures Suffix(r, s)
    ensures lit <= s ==> r == s[|lit|..]
    ensures !(lit <= s) ==> r == s
  {
    if lit <= s then s[|lit|..] else s
  }

  /** A single character drawn from `set`, such as `["']`. */
  function OneOf(chars: set<char>, s: string): (r: Option<string>)
    ensures r.Some? <==> s != [] && s[0] in chars
    ensures r.Some? ==> r.value == s[1..]
  {
    if s != [] && s[0] in chars then Some(s[1..]) else None
  }

  /** What a matcher captured, and the text after the whole construct. */
  datatype Capture = Capture(text: string, rest: string)

  /**
   * `([^X]+)[X]`: a non-empty run of characters outside `stops`, followed by
   * one character of `stops`, which is consumed. Both parts are forced by the
   * greedy run, so no backtracking can change the result.
   */
  function Until(stops: set<char>, s: string): (r: Option<Capture>)
    ensures r.Some? <==> 0 < |Span(Except(stops), s)| < |s|
    ensures r.Some? ==> r.value.text == Span(Except(stops), s)
    ensures r.Some? ==> r.value.rest == s[|r.value.text| + 1..] && s[|r.value.text|] in stops
  {
    var run := Span(Except(stops), s);
    if run == [] || |run| == |s| then None else Some(Capture(run, s[|run| + 1..]))
  }

  /**
   * `\s*([^c]+)\s*c` for a closing character `c` that is not whitespace: the
   * capture runs from the first non-blank character up to the first `c`, and
   * keeps any blanks just before `c`. When only blanks precede `c`, the
   * regular expression backtracks and captures the last of them.
   */
  function Delimited(close: char, s: string): (r: Option<Capture>)
    requires !IsSpace(close)
    ensures r.Some? <==> 0 < |Span(Except({close}), s)| < |s|
    ensures r.Some? ==> r.value.text != [] && close !in r.value.text
    ensures r.Some? ==> var k := |Span(Except({close}), s)|;
      s[k] == close && r.value.rest == s[k + 1..] &&
      |r.value.text| <= k && r.value.text <= s[k - |r.value.text|..]
  {
    var w := |Span(Space, s)|;
    var k := |Span(Except({close}), s)|;
    if k == 0 || k == |s| then None
    else
      var lo := if w < k then w else k - 1;
      RunSlice(close, s, lo, k);
      Some(Capture(s[lo..k], s[k + 1..]))
  }

  /** Any slice of the run before the first `close` is free of `close`. */
  lemma RunSlice(close: char, s: string, lo: int, k: int)
    requires k == |Span(Except({close}), s)| && 0 <= lo < k
    ensures close !in s[lo..k]
  {
    var run := Span(Except({close}), s);
    forall j | lo <= j < k
      ensures s[j] != close
    {
      assert s[j] == run[j];
      assert In(Except({close}), run[j]);
    }
    assert forall j | 0 <= j < k - lo :: s[lo..k][j] == s[lo + j];
  }

  /** `s` has an occurrence of `pat` starting at index `i`. */
  predicate OccursAt(pat: string, s: string, i: nat)
    requires i <= |s|
  {
    pat <= s[i..]
  }

  /** `pat` occurs nowhere in `s`. */
  predicate Absent(pat: string, s: string) {
    forall i | 0 <= i <= |s| :: !OccursAt(pat, s, i)
  }

  /** Index of the leftmost occurrence of `pat` in `s`, as `indexOf` or a lazy `*?` finds it. */
  function Find(pat: string, s: string): (r: Option<nat>)
    ensures r.Some? ==> r.value <= |s| && OccursAt(pat, s, r.value)
  {
    if pat <= s then assert OccursAt(pat, s, 0); Some(0)
    else if s == [] then None
    else
      match Find(pat, s[1..])
      case Some(k) => assert s[1..][k..] == s[k + 1..]; Some(k + 1)
      case None => None
  }

  /** `Find` reports the leftmost occurrence, and reports none exactly when there is none. */
  lemma {:induction false} FindLeftmost(pat: string, s: string)
    ensures Find(pat, s).Some? ==> forall j | 0 <= j < Find(pat, s).value :: !OccursAt(pat, s, j)
    ensures Find(pat, s).None? <==> Absent(pat, s)
  {
    if pat <= s {
      assert OccursAt(pat, s, 0);
    } else if s != [] {
      FindLeftmost(pat, s[1..]);
      forall j | 1 <= j <= |s| ensures OccursAt(pat, s, j) == OccursAt(pat, s[1..], j - 1) {
        assert s[j..] == s[1..][j - 1..];
      }
      assert !OccursAt(pat, s, 0);
    }
  }

  /** An occurrence with none before it is the one `Find` reports. */
  lemma FindAt(pat: string, s: string, k: nat)
    requires k <= |s| && OccursAt(pat, s, k)
    requires forall j | 0 <= j < k :: !OccursAt(pat, s, j)
    ensures Find(pat, s) == Some(k)
  {
    FindLeftmost(pat, s);
    assert !Absent(pat, s) by { assert OccursAt(pat, s, k); }
    var m := Find(pat, s).value;
    assert OccursAt(pat, s, m);
    assert !(k < m) && !(m < k);
  }

  /** `([\s\S]*?)pat`: everything up to the nearest `pat`, which is consumed. */
  function UpTo(pat: string, s: string): (r: Option<Capture>)
    ensures r.Some? <==> !Absent(pat, s)
    ensures r.Some? ==> s == r.value.text + pat + r.value.rest
    ensures r.Some? ==> forall j | 0 <= j < |r.value.text| :: !OccursAt(pat, s, j)
  {
    FindLeftmost(pat, s);
    match Find(pat, s)
    case None => None
    case Some(k) =>
      OccurrenceSplits(pat, s, k);
      Some(Capture(s[..k], s[k + |pat|..]))
  }

  /** An occurrence of `pat` cuts the text into what is before it, `pat` and what is after it. */
  lemma OccurrenceSplits(pat: string, s: string, k: nat)
    requires k <= |s| && OccursAt(pat, s, k)
    ensures k + |pat| <= |s| && s == s[..k] + pat + s[k + |pat|..]
  {
    assert s[k..][..|pat|] == pat;
  }

  /**
   * When the first character of `pat` occurs nowhere else in it and `pat`
   * does not occur in `x`, the nearest `pat` after `x` is the one right after
   * it: no occurrence can straddle the end of `x`.
   */
  lemma UpToNearest(pat: string, x: string, t: string)
    requires pat != [] && forall i | 0 < i < |pat| :: pat[i] != pat[0]
    requires Absent(pat, x)
    ensures UpTo(pat, x + pat + t) == Some(Capture(x, t))
  {
    var s := x + pat + t;
    assert OccursAt(pat, s, |x|) by {
      assert s[|x|..][..|pat|] == pat;
    }
    forall j | 0 <= j < |x|
      ensures !OccursAt(pat, s, j)
    {
      if j + |pat| <= |x| {
        assert s[j..][..|pat|] == x[j..][..|pat|];
        assert !OccursAt(pat, x, j);
      } else {
        assert s[j..][|x| - j] == pat[0];
        assert pat[|x| - j] != pat[0];
      }
    }
    FindLeftmost(pat, s);
    var k := Find(pat, s).value;
    assert k == |x|;
    assert s[..k] == x;
    assert s[k + |pat|..] == t;
  }

  /** `s.split(sep)` for a non-empty string separator: the pieces between non-overlapping occurrences, left to right. */
  function Split(s: string, sep: string): (parts: seq<string>)
    requires sep != []
    ensures parts != []
    decreases |s|
  {
    match Find(sep, s)
    case None => [s]
    case Some(k) => [s[..k]] + Split(s[k + |sep|..], sep)
  }

  /** `parts.join(sep)`. */
  function Join(parts: seq<string>, sep: string): string {
    if parts == [] then []
    else if |parts| == 1 then parts[0]
    else parts[0] + sep + Join(parts[1..], sep)
  }

  /** Joining the pieces of a split with the same separator gives back the original text. */
  lemma {:induction false} JoinSplit(s: string, sep: string)
    requires sep != []
    ensures Join(Split(s, sep), sep) == s
    decreases |s|
  {
    match Find(sep, s)
    case None =>
    case Some(k) =>
      var rest := s[k + |sep|..];
      var tail := Split(rest, sep);
      SplitStep(s, sep, k);
      JoinSplit(rest, sep);
      JoinSplitStep(s, sep, k, tail);
  }

  /** Proof helper: a split cuts off the text before the leftmost occurrence, then splits what follows it. */
  lemma SplitStep(s: string, sep: string, k: nat)
    requires sep != [] && Find(sep, s) == Some(k)
    ensures Split(s, sep) == [s[..k]] + Split(s[k + |sep|..], sep)
  {
  }

  /** Proof helper: a split whose first piece ends at an occurrence `k`, and whose other pieces join back to the rest, joins back to the text. */
  lemma JoinSplitStep(s: string, sep: string, k: nat, tail: seq<string>)
    requires sep != [] && k <= |s| && OccursAt(sep, s, k)
    requires tail != [] && Split(s, sep) == [s[..k]] + tail
    requires Join(tail, sep) == s[k + |sep|..]
    ensures Join(Split(s, sep), sep) == s
  {
    JoinCons(s[..k], tail, sep);
    CutAround(s, k, sep);
  }

  /** Proof helper: joining a first piece in front of other pieces puts the separator between them. */
  lemma JoinCons(first: string, tail: seq<string>, sep: string)
    requires tail != []
    ensures Join([first] + tail, sep) == first + sep + Join(tail, sep)
  {
    assert ([first] + tail)[1..] == tail;
  }

  /** Proof helper: a text is what comes before an occurrence of `pat`, `pat`, and what comes after it. */
  lemma CutAround(s: string, k: nat, pat: string)
    requires k <= |s| && OccursAt(pat, s, k)
    ensures s[..k] + pat + s[k + |pat|..] == s
  {
    assert s[k..][..|pat|] == pat;
  }

  /** A literal matches at the start of any text that begins with it. */
  lemma LitAppend(lit: string, t: string)
    ensures Lit(lit, lit + t) == Some(t)
  {
    assert (lit + t)[..|lit|] == lit;
    assert (lit + t)[|lit|..] == t;
  }

  /** A greedy run stops exactly at the first character outside its class. */
  lemma {:induction false} SpanRun(cls: CharClass, x: string, t: string)
    requires forall i | 0 <= i < |x| :: In(cls, x[i])
    requires t == [] || !In(cls, t[0])
    ensures Span(cls, x + t) == x
  {
    if x == [] {
      assert x + t == t;
    } else {
      assert (x + t)[1..] == x[1..] + t;
      SpanRun(cls, x[1..], t);
    }
  }

  /** Skipping blanks leaves a text that does not start with one as it is. */
  lemma SkipSpaceNone(t: string)
    requires t == [] || !IsSpace(t[0])
    ensures SkipSpace(t) == t
  {
  }

  /** `\s*` skips exactly the leading whitespace. */
  lemma {:induction false} SkipSpaceRun(w: string, t: string)
    requires forall i | 0 <= i < |w| :: IsSpace(w[i])
    requires t == [] || !IsSpace(t[0])
    ensures SkipSpace(w + t) == t
  {
    if w == [] {
      assert w + t == t;
    } else {
      assert (w + t)[1..] == w[1..] + t;
      SkipSpaceRun(w[1..], t);
    }
  }

  /** `([^X]+)[X]` captures the run before the stop character and resumes after it. */
  lemma UntilRun(stops: set<char>, x: string, c: char, t: string)
    requires x != [] && forall i | 0 <= i < |x| :: x[i] !in stops
    requires c in stops
    ensures Until(stops, x + [c] + t) == Some(Capture(x, t))
  {
    assert x + [c] + t == x + ([c] + t);
    SpanRun(Except(stops), x, [c] + t);
    assert (x + [c] + t)[|x| + 1..] == t;
  }

  /** `\s*([^c]+)\s*c` captures the argument after the blanks, up to the closing character. */
  lemma DelimitedRun(close: char, w: string, v: string, t: string)
    requires !IsSpace(close)
    requires forall i | 0 <= i < |w| :: IsSpace(w[i])
    requires v != [] && !IsSpace(v[0]) && close !in v
    ensures Delimited(close, w + v + [close] + t) == Some(Capture(v, t))
  {
    var s := w + v + [close] + t;
    assert s == w + (v + [close] + t);
    SpanRun(Space, w, v + [close] + t);
    assert s == (w + v) + ([close] + t);
    SpanRun(Except({close}), w + v, [close] + t);
    assert s[|w|..|w| + |v|] == v;
    assert s[|w| + |v| + 1..] == t;
  }

  /** Index `i` of `s` begins a line: the start of the text, or just after a line terminator. */
  predicate AtLineStart(s: string, i: nat)
    requires i <= |s|
  {
    i == 0 || IsLineBreak(s[i - 1])
  }

  /**
   * The first match of a pattern that begins with `^` in multiline mode: `m`
   * is tried at every line start from index `i` on, and the first position
   * where it succeeds is returned with what it produced.
   */
  function FirstAtLineStart<T>(m: string -> Option<T>, s: string, i: nat): (r: Option<(nat, T)>)
    requires i <= |s|
    ensures r.Some? ==> i <= r.value.0 <= |s| && AtLineStart(s, r.value.0) && m(s[r.value.0..]) == Some(r.value.1)
    decreases |s| - i
  {
    if AtLineStart(s, i) && m(s[i..]).Some? then Some((i, m(s[i..]).value))
    else if i == |s| then None
    else FirstAtLineStart(m, s, i + 1)
  }

  /** The pattern matches at line start `j` of `s`. */
  predicate MatchesLineAt<T>(m: string -> Option<T>, s: string, j: nat)
    requires j <= |s|
  {
    AtLineStart(s, j) && m(s[j..]).Some?
  }

  /** The search finds the leftmost line start where the pattern matches, and none exactly when there is none. */
  lemma {:induction false} FirstAtLineStartLeftmost<T>(m: string -> Option<T>, s: string, i: nat)
    requires i <= |s|
    ensures FirstAtLineStart(m, s, i).Some? ==>
      forall j | i <= j < FirstAtLineStart(m, s, i).value.0 :: !MatchesLineAt(m, s, j)
    ensures FirstAtLineStart(m, s, i).None? <==> forall j | i <= j <= |s| :: !MatchesLineAt(m, s, j)
    decreases |s| - i
  {
    if !MatchesLineAt(m, s, i) && i < |s| {
      FirstAtLineStartLeftmost(m, s, i + 1);
    }
  }

  /** The search returns the line start `k` when the pattern matches there and at no line start before it. */
  lemma {:induction false} FirstAtLineStartFinds<T>(m: string -> Option<T>, s: string, i: nat, k: nat)
    requires i <= k <= |s|
    requires MatchesLineAt(m, s, k)
    requires forall j | i <= j < k :: !MatchesLineAt(m, s, j)
    ensures FirstAtLineStart(m, s, i) == Some((k, m(s[k..]).value))
    decreases k - i
  {
    if i < k {
      assert !MatchesLineAt(m, s, i);
      FirstAtLineStartFinds(m, s, i + 1, k);
    }
  }
}
