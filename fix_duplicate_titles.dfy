/**
 * The duplicate-title fix run over migrated pages: a page whose front matter
 * has a quoted `title:` loses the first level-one heading of its body, which
 * would otherwise repeat the title. Pages it does not change give `None`.
 */
module FixDuplicateTitles {
  import opened Wrappers
  import opened Text
  import Migrate

  /** The front matter fence, which is also the separator the page is split on. */
  const Fence: string := "---"

  /** The quotes `["']` around a title. */
  const TitleQuotes: set<char> := {'"', '\''}

  /**
   * `title:\s*["'](.+?)["']` anchored at the start of `s`: after the blanks a
   * quote, then at least one character and a closing quote on the same line.
   * The blanks must be followed by the quote, so `\s*` never gives any back.
   */
  predicate TitleAt(s: string) {
    "title:" <= s &&
    var a := SkipSpace(s[6..]);
    a != [] && a[0] in TitleQuotes &&
    var line := Span(Except({'\n', '\r'}), a[1..]);
    exists j | 1 <= j < |line| :: line[j] in TitleQuotes
  }

  /** `frontmatter.match(/title:\s*["'](.+?)["']/)` succeeds somewhere. */
  predicate HasTitle(frontmatter: string) {
    exists p | 0 <= p <= |frontmatter| :: TitleAt(frontmatter[p..])
  }

  /**
   * `^#\s+[^\n]+\s*\n*` anchored at a line start, giving the text after the
   * match. After `#` and its blanks, the rest of the line up to a line feed
   * and every blank after it go. When the blanks run to the end of the text,
   * the regular expression backtracks: it matches the whole rest of the text
   * if some blank after the first is not a line feed, and fails otherwise.
   */
  function H1At(s: string): (r: Option<string>)
    ensures r.Some? ==> "#" <= s && |r.value| < |s| && Suffix(r.value, s)
  {
    var x :- Lit("#", s);
    var w := Span(Space, x);
    if w == [] then None
    else if |w| < |x| then
      var line := Span(Except({'\n'}), x[|w|..]);
      var rest := SkipSpace(x[|w| + |line|..]);
      assert Suffix(rest, x) by {
        SuffixTransitive(rest, x[|w| + |line|..], x);
      }
      SuffixTransitive(rest, x, s);
      Some(rest)
    else if exists j | 1 <= j < |w| :: w[j] != '\n' then Some([])
    else None
  }

  /** The page after the leading fence splits into at least three parts. */
  predicate HasFrontmatter(content: string) {
    Fence <= content && |Split(content, Fence)| >= 3
  }

  /** `parts[1]`: the text between the first two fences. */
  function Frontmatter(content: string): string
    requires HasFrontmatter(content)
  {
    Split(content, Fence)[1]
  }

  /** `parts.slice(2).join('---')`: everything after the second fence. */
  function Body(content: string): string
    requires HasFrontmatter(content)
  {
    Join(Split(content, Fence)[2..], Fence)
  }

  /**
   * The new page content, or `None` when the page is left as it is: it does
   * not start with a fence, has a single fence, has no quoted title, or its
   * body has no level-one heading.
   */
  function Fix(content: string): (r: Option<string>)
    ensures r.Some? ==> Fence <= r.value && |r.value| < |content|
  {
    if !HasFrontmatter(content) then None
    else
      var frontmatter := Frontmatter(content);
      var body := Body(content);
      if !HasTitle(frontmatter) then None
      else
        match FirstAtLineStart(H1At, body, 0)
        case None => None
        case Some((i, rest)) =>
          FrontmatterRoundTrip(content);
          assert |body[..i] + rest| < |body| by {
            assert |rest| < |body[i..]|;
          }
          Some(Fence + frontmatter + Fence + body[..i] + rest)
  }

  /** Splitting a page that starts with a fence gives an empty first part. */
  lemma LeadingFence(content: string)
    requires Fence <= content
    ensures Split(content, Fence) == [""] + Split(content[3..], Fence)
  {
    assert OccursAt(Fence, content, 0);
    assert content[..0] == "";
  }

  /**
   * The front matter and the body are the page itself: the fences put back
   * between them give the original text, so the fix can change the body only.
   */
  lemma FrontmatterRoundTrip(content: string)
    requires HasFrontmatter(content)
    ensures content == Fence + Frontmatter(content) + Fence + Body(content)
  {
    var parts := Split(content, Fence);
    LeadingFence(content);
    JoinSplit(content, Fence);
    JoinFirstTwo(parts, Fence);
    EmptyFirst(Fence, parts[1], Join(parts[2..], Fence));
  }

  /** Proof helper: a join of three or more parts, with its first two parts written out. */
  lemma JoinFirstTwo(parts: seq<string>, sep: string)
    requires |parts| >= 3
    ensures Join(parts, sep) == parts[0] + sep + (parts[1] + sep + Join(parts[2..], sep))
  {
    assert [parts[0]] + parts[1..] == parts;
    JoinCons(parts[0], parts[1..], sep);
    assert [parts[1]] + parts[2..] == parts[1..];
    JoinCons(parts[1], parts[2..], sep);
  }

  /** Proof helper: an empty first part adds nothing. */
  lemma EmptyFirst(sep: string, a: string, b: string)
    ensures "" + sep + (a + sep + b) == sep + a + sep + b
  {
  }

  /**
   * A fixed page is the original with one stretch of its body deleted: the
   * first level-one heading of the body, which starts with `#` at a line
   * start. The front matter and everything else are kept verbatim.
   */
  lemma FixDeletesFirstHeading(content: string)
    requires Fix(content).Some?
    ensures HasFrontmatter(content) && HasTitle(Frontmatter(content))
    ensures var body := Body(content);
      exists i, j | 0 <= i < j <= |body| ::
        Fix(content).value == Fence + Frontmatter(content) + Fence + body[..i] + body[j..] &&
        AtLineStart(body, i) && body[i] == '#' && H1At(body[i..]) == Some(body[j..]) &&
        forall k | 0 <= k < i :: !MatchesLineAt(H1At, body, k)
  {
    FixWhen(content);
    var body := Body(content);
    FirstAtLineStartLeftmost(H1At, body, 0);
    var (i, rest) := FirstAtLineStart(H1At, body, 0).value;
    FixFound(content, i, rest);
    HeadingSpan(body, i, rest);
    var j := |body| - |rest|;
    assert body[j..] == rest;
  }

  /** A heading matched at `i` spans from its `#` to the text after it. */
  lemma HeadingSpan(body: string, i: nat, rest: string)
    requires i <= |body| && H1At(body[i..]) == Some(rest)
    ensures i < |body| - |rest| && body[i] == '#'
    ensures body[|body| - |rest|..] == rest
  {
    assert body[i..][|body[i..]| - |rest|..] == rest;
    assert body[i..][0] == '#';
  }

  /** The body has a level-one heading somewhere (`h1Pattern.test(body)`). */
  predicate HasHeading(body: string) {
    exists j | 0 <= j <= |body| :: MatchesLineAt(H1At, body, j)
  }

  /**
   * The fix rewrites a page exactly when the page has front matter, the front
   * matter has a quoted title, and the body has a level-one heading; in every
   * other case the page is left as it is.
   */
  lemma {:induction false} FixWhen(content: string)
    ensures Fix(content).Some? <==>
      HasFrontmatter(content) && HasTitle(Frontmatter(content)) && HasHeading(Body(content))
  {
    if HasFrontmatter(content) && HasTitle(Frontmatter(content)) {
      var body := Body(content);
      FirstAtLineStartLeftmost(H1At, body, 0);
      if FirstAtLineStart(H1At, body, 0).Some? {
        var i := FirstAtLineStart(H1At, body, 0).value.0;
        assert MatchesLineAt(H1At, body, i);
      }
    }
  }

  /** A page that does not start with a fence is left as it is. */
  lemma NoFenceUnchanged(content: string)
    requires !(Fence <= content)
    ensures Fix(content).None?
  {
  }

  /** A page with a single fence splits into two parts and is left as it is. */
  lemma SingleFenceUnchanged(t: string)
    requires Absent(Fence, t)
    ensures Fix(Fence + t).None?
  {
    LeadingFence(Fence + t);
    assert (Fence + t)[3..] == t;
    FindLeftmost(Fence, t);
  }

  /** A level-one heading needs a blank after `#`: `## Section` and `#tag` are never removed. */
  lemma OnlyLevelOneHeadings(c: char, t: string)
    requires !IsSpace(c)
    ensures H1At("#" + [c] + t).None?
  {
    assert "#" + [c] + t == "#" + ([c] + t);
    LitAppend("#", [c] + t);
  }

  /** A heading line is matched to the end of the line, and the blanks after it go too. */
  lemma HeadingLineMatched(title: string, u: string)
    requires title != [] && !IsSpace(title[0]) && '\n' !in title
    requires u == [] || u[0] == '\n'
    ensures H1At("#" + " " + title + u) == Some(SkipSpace(u))
  {
    HeadingLinePieces(title, u);
    HeadingLineFrom("#" + " " + title + u, " " + (title + u), " ", title, u);
  }

  /** Proof helper: the pieces `H1At` reads in a heading line written with one blank after `#`. */
  lemma HeadingLinePieces(title: string, u: string)
    requires title != [] && !IsSpace(title[0]) && '\n' !in title
    requires u == [] || u[0] == '\n'
    ensures var x := " " + (title + u);
      Lit("#", "#" + " " + title + u) == Some(x) &&
      Span(Space, x) == " " && |" "| < |x| &&
      Span(Except({'\n'}), x[|" "|..]) == title &&
      x[|" "| + |title|..] == u
  {
    HashThenBlank(title + u);
    assert "#" + " " + title + u == "#" + " " + (title + u);
    TitleThenBreak(title, u);
  }

  /** After `#` comes the single blank, then the rest. */
  lemma HashThenBlank(v: string)
    requires v != [] && !IsSpace(v[0])
    ensures Lit("#", "#" + " " + v) == Some(" " + v)
    ensures Span(Space, " " + v) == " "
    ensures (" " + v)[|" "|..] == v
  {
    assert "#" + " " + v == "#" + (" " + v);
    LitAppend("#", " " + v);
    SpanRun(Space, " ", v);
  }

  /** The line of a heading runs to the line feed after the title. */
  lemma TitleThenBreak(title: string, u: string)
    requires '\n' !in title
    requires u == [] || u[0] == '\n'
    ensures Span(Except({'\n'}), title + u) == title
    ensures (" " + (title + u))[|" "| + |title|..] == u
  {
    SpanRun(Except({'\n'}), title, u);
  }

  /** Proof helper: `H1At` read off its pieces: the `#`, the blanks after it, the line and what follows the line. */
  lemma HeadingLineFrom(s: string, x: string, w: string, line: string, u: string)
    requires Lit("#", s) == Some(x)
    requires Span(Space, x) == w && w != [] && |w| < |x|
    requires Span(Except({'\n'}), x[|w|..]) == line
    requires x[|w| + |line|..] == u
    ensures H1At(s) == Some(SkipSpace(u))
  {
    assert "#" <= s && x == s[1..];
    assert !(w == []) && |w| < |x|;
  }

  /** A heading goes together with the blank lines after it, up to the next text. */
  lemma HeadingAndBlankLinesRemoved(title: string, w: string, t: string)
    requires title != [] && !IsSpace(title[0]) && '\n' !in title
    requires forall i | 0 <= i < |w| :: IsSpace(w[i])
    requires t == [] || !IsSpace(t[0])
    ensures H1At("# " + title + "\n" + w + t) == Some(t)
  {
    assert "# " + title + "\n" + w + t == "#" + " " + title + ("\n" + w + t);
    HeadingLineMatched(title, "\n" + w + t);
    assert "\n" + w + t == ("\n" + w) + t;
    SkipSpaceRun("\n" + w, t);
  }

  /**
   * No fence starts inside `fm` when a fence follows it: `fm` holds no `---`
   * and does not end with a dash, which would run on into the next fence.
   */
  predicate FenceFree(fm: string) {
    Absent(Fence, fm) && (fm == [] || fm[|fm| - 1] != '-')
  }

  /** In fence-free text, the first fence after it is the one that follows it. */
  lemma FenceAfter(fm: string, b: string)
    requires FenceFree(fm)
    ensures Find(Fence, fm + Fence + b) == Some(|fm|)
  {
    var s := fm + Fence + b;
    assert OccursAt(Fence, s, |fm|) by {
      assert s[|fm|..][..3] == Fence;
    }
    forall j | 0 <= j < |fm|
      ensures !OccursAt(Fence, s, j)
    {
      if j + 3 <= |fm| {
        assert s[j..][..3] == fm[j..][..3];
        assert !OccursAt(Fence, fm, j);
      } else {
        assert s[j..][|fm| - 1 - j] == fm[|fm| - 1];
      }
    }
    FindAt(Fence, s, |fm|);
  }

  /** Fence-free text is split off as one part at the fence after it. */
  lemma SplitAtFence(fm: string, b: string)
    requires FenceFree(fm)
    ensures Split(fm + Fence + b, Fence) == [fm] + Split(b, Fence)
  {
    var s := fm + Fence + b;
    FenceAfter(fm, b);
    assert s[..|fm|] == fm;
    assert s[|fm| + 3..] == b;
  }

  /** Splitting a fence followed by `x` gives an empty part, then the parts of `x`. */
  lemma FenceFirst(x: string)
    ensures Split(Fence + x, Fence) == [""] + Split(x, Fence)
  {
    LeadingFence(Fence + x);
    assert (Fence + x)[3..] == x;
  }

  /** Proof helper: a page grouped after its leading fence. */
  lemma FenceGrouped(fm: string, b: string)
    ensures Fence + fm + Fence + b == Fence + (fm + Fence + b)
  {
  }

  /** Fence-free front matter ends at the second fence, whatever the body holds. */
  lemma SplitAfterFrontmatter(fm: string, b: string)
    requires FenceFree(fm)
    ensures Split(Fence + fm + Fence + b, Fence) == ["", fm] + Split(b, Fence)
  {
    FenceFirst(fm + Fence + b);
    FenceGrouped(fm, b);
    SplitAtFence(fm, b);
  }

  /** A front matter ending with a dash is cut one place early: the dash and the fence's first two dashes make a fence. */
  lemma TrailingDashCutsEarly(fm: string, b: string)
    requires fm != [] && fm[|fm| - 1] == '-'
    ensures Find(Fence, fm + Fence + b).Some? && Find(Fence, fm + Fence + b).value < |fm|
  {
    var s := fm + Fence + b;
    assert OccursAt(Fence, s, |fm| - 1) by {
      assert s[|fm| - 1..][..3] == Fence;
    }
    FindLeftmost(Fence, s);
    assert !Absent(Fence, s);
  }

  /** A quoted value with no line break in it closes on its line. */
  lemma QuotedValueCloses(h: string)
    requires h != [] && forall i | 0 <= i < |h| :: !IsLineBreak(h[i])
    ensures var line := Span(Except({'\n', '\r'}), h + "\"\n");
      |h| < |line| && line[|h|] == '"'
  {
    assert h + "\"\n" == (h + "\"") + "\n";
    SpanRun(Except({'\n', '\r'}), h + "\"", "\n");
  }

  /** The title line a migration writes is a quoted title. */
  lemma WrittenTitleLine(h: string)
    requires h != [] && forall i | 0 <= i < |h| :: !IsLineBreak(h[i])
    ensures TitleAt("title: \"" + h + "\"\n")
  {
    var v := "\"" + h + "\"\n";
    var line := "title: \"" + h + "\"\n";
    assert line == "title:" + (" " + v);
    assert line[6..] == " " + v;
    assert SkipSpace(" " + v) == v by {
      assert (" " + v)[1..] == v;
      SkipSpaceNone(v);
    }
    assert v[1..] == h + "\"\n";
    QuotedValueCloses(h);
  }

  /** The front matter a migration writes for title `h` has a quoted title. */
  lemma WrittenTitleFound(h: string)
    requires h != [] && forall i | 0 <= i < |h| :: !IsLineBreak(h[i])
    ensures HasTitle("\ntitle: \"" + h + "\"\n")
  {
    var fm := "\ntitle: \"" + h + "\"\n";
    assert fm[1..] == "title: \"" + h + "\"\n";
    WrittenTitleLine(h);
  }

  /** Text that does not start with `#` is no heading. */
  lemma NotHeading(u: string)
    requires u != [] && u[0] != '#'
    ensures H1At(u).None?
  {
  }

  /** The body the migration writes below its front matter: an empty line, the heading and the rest of the page. */
  function WrittenBody(h: string, post: string): string {
    "\n\n# " + h + "\n\n" + post
  }

  /** Below the front matter a migration writes, the heading it took the title from is the first one found. */
  lemma OpeningHeadingFound(h: string, post: string)
    requires h != [] && !IsSpace(h[0]) && forall i | 0 <= i < |h| :: !IsLineBreak(h[i])
    requires post == [] || !IsSpace(post[0])
    ensures FirstAtLineStart(H1At, WrittenBody(h, post), 0) == Some((2, post))
  {
    var b := WrittenBody(h, post);
    assert b[0..] == b;
    NotHeading(b);
    assert b[1..][0] == '\n';
    NotHeading(b[1..]);
    assert b[2..] == "# " + h + "\n" + "\n" + post;
    HeadingAndBlankLinesRemoved(h, "\n", post);
    assert FirstAtLineStart(H1At, b, 2) == Some((2, post));
  }

  /** The front matter text, between the fences, that a migration writes for title `h`. */
  function WrittenFrontmatter(h: string): string {
    "\ntitle: \"" + h + "\"\n"
  }

  /** The front matter a migration writes holds a fence only where its title does. */
  lemma WrittenFrontmatterFenceFree(h: string)
    requires Absent(Fence, h)
    ensures FenceFree(WrittenFrontmatter(h))
  {
    var fm := WrittenFrontmatter(h);
    var pre := "\ntitle: \"";
    assert fm == pre + h + "\"\n";
    forall j | 0 <= j <= |fm|
      ensures !OccursAt(Fence, fm, j)
    {
      if j + 3 <= |fm| {
        if j < |pre| {
          assert fm[j..][0] == pre[j];
        } else if j + 3 <= |pre| + |h| {
          assert fm[j..][..3] == h[j - |pre|..][..3];
          assert !OccursAt(Fence, h, j - |pre|);
        } else {
          assert fm[j..][2] == fm[j + 2];
          assert fm[j + 2] in {'"', '\n'};
        }
      }
    }
  }

  /** The migrated page regrouped around its two fences. */
  lemma WrittenPageRegrouped(h: string, post: string)
    ensures Migrate.Frontmatter(h) + Migrate.HeadedPage(h, post)
         == Fence + WrittenFrontmatter(h) + Fence + WrittenBody(h, post)
  {
    assert "---\ntitle: \"" == Fence + "\ntitle: \"";
    assert "\"\n---\n\n" == "\"\n" + Fence + "\n\n";
    assert "\n\n" + Migrate.HeadedPage(h, post) == "\n\n# " + h + "\n\n" + post;
  }

  /** Proof helper: the fix of a page with a title and a heading, in terms of its parts. */
  lemma FixFound(content: string, i: nat, rest: string)
    requires HasFrontmatter(content) && HasTitle(Frontmatter(content))
    requires FirstAtLineStart(H1At, Body(content), 0) == Some((i, rest))
    ensures Fix(content) == Some(Fence + Frontmatter(content) + Fence + Body(content)[..i] + rest)
  {
  }

  /** Fence-free front matter and the body after it are the parts of the page. */
  lemma PartsOf(fm: string, b: string)
    requires FenceFree(fm)
    ensures HasFrontmatter(Fence + fm + Fence + b)
    ensures Frontmatter(Fence + fm + Fence + b) == fm && Body(Fence + fm + Fence + b) == b
  {
    var content := Fence + fm + Fence + b;
    SplitAfterFrontmatter(fm, b);
    assert Split(content, Fence)[2..] == Split(b, Fence);
    JoinSplit(b, Fence);
  }

  /** The fix removes the heading below the written front matter, with the blank lines after it. */
  lemma WrittenHeadingRemoved(h: string, post: string)
    requires h != [] && !IsSpace(h[0]) && Absent(Fence, h) && forall i | 0 <= i < |h| :: !IsLineBreak(h[i])
    requires post == [] || !IsSpace(post[0])
    ensures Fix(Fence + WrittenFrontmatter(h) + Fence + WrittenBody(h, post))
         == Some(Fence + WrittenFrontmatter(h) + Fence + "\n\n" + post)
  {
    var fm := WrittenFrontmatter(h);
    var b := WrittenBody(h, post);
    assert b[..2] == "\n\n";
    WrittenFrontmatterFenceFree(h);
    PartsOf(fm, b);
    WrittenTitleFound(h);
    OpeningHeadingFound(h, post);
    FixFound(Fence + fm + Fence + b, 2, post);
  }

  /**
   * A plain Markdown page that opens with a level-one heading is titled by
   * that heading when it is migrated, and the fix then deletes the heading
   * and the blank lines after it, so the title appears once.
   */
  lemma MigratedHeadingNotRepeated(h: string, post: string, fileName: string)
    requires h != [] && !IsSpace(h[0]) && Absent(Fence, h) && forall i | 0 <= i < |h| :: !IsLineBreak(h[i])
    requires post == [] || !IsSpace(post[0])
    requires Migrate.PlainPage(Migrate.HeadedPage(h, post))
    ensures Fix(Migrate.MigratePage(Migrate.HeadedPage(h, post), fileName)) == Some(Migrate.Frontmatter(h) + post)
  {
    assert Fence + WrittenFrontmatter(h) + Fence + "\n\n" + post == Migrate.Frontmatter(h) + post;
    WrittenPageRegrouped(h, post);
    WrittenHeadingRemoved(h, post);
    Migrate.MigratedHeadedPage(h, post, fileName);
  }
}
