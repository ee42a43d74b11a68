/**
 * The page conversion of the Nextra-to-Mintlify migration script: a chain of
 * global regular-expression replacements (callouts, tabs, image paths,
 * custom components), then a front matter block whose title comes from the
 * first level-one heading, a fixed table, or the file name.
 */
module Migrate {
  import opened Wrappers
  import opened Text
  import opened Rewrite

  /** Titles for pages whose file name alone would give a poor title. */
  const TitleMappings: map<string, string> := map[
    "what-is-bruno" := "What is Bruno?",
    "manifesto" := "Manifesto",
    "feedback-community" := "Feedback & Community",
    "download" := "Download",
    "create-a-collection" := "Create a Collection",
    "create-a-folder" := "Create a Folder",
    "create-a-request" := "Create a Request",
    "create-a-test" := "Create a Test",
    "run-a-collection" := "Run a Collection",
    "settings" := "Settings",
    "proxy-config" := "Proxy Configuration",
    "history" := "History",
    "import-collections" := "Import Collections",
    "export-collections" := "Export Collections",
    "import-export-environments" := "Import & Export Environments",
    "postman-migration" := "Postman Migration",
    "script-translator" := "Script Translator",
    "javascript-sandbox" := "JavaScript Sandbox",
    "overview" := "Overview",
    "activate-license" := "Activate License",
    "license-portal" := "License Portal",
    "license-overview" := "License Overview"
  ]

  // ---------------------------------------------------------------------
  // Titles
  // ---------------------------------------------------------------------

  /**
   * `^#\s+(.+)$` anchored at a line start: a `#`, at least one blank, and the
   * rest of the line from the first non-blank character. When the blanks run
   * to the end of the text, the regular expression backtracks and captures
   * the last of them that is not a line terminator.
   */
  function HeadingTitle(s: string): (r: Option<string>)
    ensures r.Some? ==> "#" <= s
    ensures r.Some? ==> r.value != [] && forall i | 0 <= i < |r.value| :: !IsLineBreak(r.value[i])
  {
    var x :- Lit("#", s);
    var w := Span(Space, x);
    if w == [] then None
    else if |w| < |x| then Some(Span(Except({'\n', '\r'}), x[|w|..]))
    else LastNonBreak(w)
  }

  /** `(.+)$` backtracked into a run of blanks: the last blank after the first one that is not a line terminator. */
  function LastNonBreak(w: string): (r: Option<string>)
    ensures r.Some? ==> |r.value| == 1 && !IsLineBreak(r.value[0])
    ensures r.Some? <==> exists j | 1 <= j < |w| :: !IsLineBreak(w[j])
  {
    if |w| < 2 then None
    else if !IsLineBreak(w[|w| - 1]) then Some([w[|w| - 1]])
    else
      var r := LastNonBreak(w[..|w| - 1]);
      assert forall j | 1 <= j < |w| - 1 :: w[..|w| - 1][j] == w[j];
      r
  }

  /** `content.match(/^#\s+(.+)$/m)`: the capture of the first line that is a level-one heading. */
  function FirstHeading(content: string): Option<string> {
    match FirstAtLineStart(HeadingTitle, content, 0)
    case None => None
    case Some((_, title)) => Some(title)
  }

  /** `w.charAt(0).toUpperCase() + w.slice(1)`. */
  function Capitalize(w: string): string {
    if w == [] then [] else [Upper(w[0])] + w[1..]
  }

  /** The title made from a file name: its dash-separated words, each capitalized, joined by spaces. */
  function FallbackTitle(fileName: string): string {
    var words := Split(fileName, "-");
    Join(seq(|words|, i requires 0 <= i < |words| => Capitalize(words[i])), " ")
  }

  /**
   * The page title: the first level-one heading, else the table entry for the
   * file name when it is a non-empty string, else the title made from the
   * file name.
   */
  function ExtractTitle(content: string, fileName: string): string {
    match FirstHeading(content)
    case Some(title) => title
    case None =>
      if fileName in TitleMappings && TitleMappings[fileName] != [] then TitleMappings[fileName]
      else FallbackTitle(fileName)
  }

  /** The front matter block written before a page that has none. */
  function Frontmatter(title: string): string {
    "---\ntitle: \"" + title + "\"\n---\n\n"
  }

  /** A page that does not start with `---` gets a front matter block with its title. */
  function EnsureFrontmatter(content: string, fileName: string): (r: string)
    ensures "---" <= r
    ensures "---" <= content ==> r == content
    ensures !("---" <= content) ==> r == Frontmatter(ExtractTitle(content, fileName)) + content
  {
    if "---" <= content then content
    else Frontmatter(ExtractTitle(content, fileName)) + content
  }

  /** A heading line yields its text, from the first non-blank character to the end of the line. */
  lemma HeadingTitleCaptured(w: string, title: string, t: string)
    requires w != [] && forall i | 0 <= i < |w| :: IsSpace(w[i])
    requires title != [] && !IsSpace(title[0]) && forall i | 0 <= i < |title| :: !IsLineBreak(title[i])
    requires t == [] || IsLineBreak(t[0])
    ensures HeadingTitle("#" + w + title + t) == Some(title)
  {
    assert "#" + w + title + t == "#" + (w + (title + t));
    LitAppend("#", w + (title + t));
    SpanRun(Space, w, title + t);
    assert (w + (title + t))[|w|..] == title + t;
    SpanRun(Except({'\n', '\r'}), title, t);
  }

  /** `#` must be followed by a blank: neither `## Sub` nor `#Title` is a level-one heading. */
  lemma HeadingNeedsBlank(c: char, t: string)
    requires !IsSpace(c)
    ensures HeadingTitle("#" + [c] + t).None?
  {
    assert "#" + [c] + t == "#" + ([c] + t);
    LitAppend("#", [c] + t);
  }

  /** The first line of a page, when it is a level-one heading, is the first heading found. */
  lemma OpeningHeading(title: string, t: string)
    requires title != [] && !IsSpace(title[0]) && forall i | 0 <= i < |title| :: !IsLineBreak(title[i])
    requires t == [] || IsLineBreak(t[0])
    ensures FirstHeading("# " + title + t) == Some(title)
  {
    var s := "# " + title + t;
    assert s == "#" + " " + title + t;
    HeadingTitleCaptured(" ", title, t);
    assert s[0..] == s;
  }

  /** A page that opens with a level-one heading is titled by that heading, whatever its file name. */
  lemma TitleFromOpeningHeading(title: string, t: string, fileName: string)
    requires title != [] && !IsSpace(title[0]) && forall i | 0 <= i < |title| :: !IsLineBreak(title[i])
    requires t == [] || IsLineBreak(t[0])
    ensures ExtractTitle("# " + title + t, fileName) == title
  {
    OpeningHeading(title, t);
  }

  /**
   * A page whose lines before a level-one heading do not start with `#` is
   * titled by that heading, whatever its file name: the search tries every
   * earlier line start and finds no `#` there.
   */
  lemma TitleFromFirstHeading(p: string, title: string, q: string, fileName: string)
    requires p == [] || IsLineBreak(p[|p| - 1])
    requires forall j | 0 <= j < |p| :: AtLineStart(p, j) ==> p[j] != '#'
    requires title != [] && !IsSpace(title[0]) && forall i | 0 <= i < |title| :: !IsLineBreak(title[i])
    ensures ExtractTitle(p + "# " + title + "\n" + q, fileName) == title
  {
    var s := p + "# " + title + "\n" + q;
    HeadingLineFound(p, title, q);
    forall j | 0 <= j < |p| ensures !MatchesLineAt(HeadingTitle, s, j) {
      NoHeadingBefore(p, title, q, j);
    }
    FirstAtLineStartFinds(HeadingTitle, s, 0, |p|);
  }

  /** Proof helper: the heading after `p` starts a line and yields its title. */
  lemma HeadingLineFound(p: string, title: string, q: string)
    requires p == [] || IsLineBreak(p[|p| - 1])
    requires title != [] && !IsSpace(title[0]) && forall i | 0 <= i < |title| :: !IsLineBreak(title[i])
    ensures MatchesLineAt(HeadingTitle, p + "# " + title + "\n" + q, |p|)
    ensures HeadingTitle((p + "# " + title + "\n" + q)[|p|..]) == Some(title)
  {
    var s := p + "# " + title + "\n" + q;
    assert s[|p|..] == "#" + " " + title + ("\n" + q);
    HeadingTitleCaptured(" ", title, "\n" + q);
    assert |p| > 0 ==> s[|p| - 1] == p[|p| - 1];
  }

  /** Proof helper: a line start inside `p` holds no `#`, so no heading starts there. */
  lemma NoHeadingBefore(p: string, title: string, q: string, j: nat)
    requires forall j | 0 <= j < |p| :: AtLineStart(p, j) ==> p[j] != '#'
    requires j < |p|
    ensures !MatchesLineAt(HeadingTitle, p + "# " + title + "\n" + q, j)
  {
    var s := p + "# " + title + "\n" + q;
    assert s[j] == p[j];
    assert j > 0 ==> s[j - 1] == p[j - 1];
    if AtLineStart(s, j) {
      assert AtLineStart(p, j);
      assert s[j..][0] == p[j];
    }
  }

  /** A page that opens with a level-one heading gets front matter titled by that heading. */
  lemma FrontmatterFromOpeningHeading(title: string, t: string, fileName: string)
    requires title != [] && !IsSpace(title[0]) && forall i | 0 <= i < |title| :: !IsLineBreak(title[i])
    requires t == [] || IsLineBreak(t[0])
    ensures EnsureFrontmatter("# " + title + t, fileName) == Frontmatter(title) + ("# " + title + t)
  {
    TitleFromOpeningHeading(title, t, fileName);
    assert ("# " + title + t)[0] == '#';
  }

  /** Every title in the table is a non-empty string, so a listed file name always takes its title from the table. */
  lemma TitleFromTable(content: string, fileName: string)
    requires FirstHeading(content).None?
    requires fileName in TitleMappings
    ensures ExtractTitle(content, fileName) == TitleMappings[fileName]
  {
  }

  /** Character `i` of the title made from file name `f`: dashes become spaces and each word's first letter is upper-cased. */
  function TitleChar(f: string, i: nat): char
    requires i < |f|
  {
    if f[i] == '-' then ' '
    else if i == 0 || f[i - 1] == '-' then Upper(f[i])
    else f[i]
  }

  /** Splitting off the first word of a file name. */
  lemma FallbackTitleStep(f: string, k: nat)
    requires Find("-", f) == Some(k)
    ensures FallbackTitle(f) == Capitalize(f[..k]) + " " + FallbackTitle(f[k + 1..])
  {
    var words := Split(f, "-");
    var rest := Split(f[k + 1..], "-");
    assert words == [f[..k]] + rest;
    var caps := seq(|words|, i requires 0 <= i < |words| => Capitalize(words[i]));
    var restCaps := seq(|rest|, i requires 0 <= i < |rest| => Capitalize(rest[i]));
    assert caps[0] == Capitalize(f[..k]);
    assert caps[1..] == restCaps;
  }

  /** Within the first word, the title copies the file name with its first letter upper-cased. */
  lemma FirstWordChars(f: string, k: nat, i: nat)
    requires Find("-", f) == Some(k) && i < k
    requires forall j | 0 <= j < k :: !OccursAt("-", f, j)
    ensures (Capitalize(f[..k]) + " " + FallbackTitle(f[k + 1..]))[i] == TitleChar(f, i)
  {
    assert !OccursAt("-", f, i);
    if 0 < i {
      assert !OccursAt("-", f, i - 1);
    }
  }

  /** After the first dash, the title follows the title of the rest of the file name. */
  lemma LaterWordChars(f: string, k: nat, i: nat, title: string)
    requires k < i < |f| && f[k] == '-'
    requires |title| == |f| - k - 1
    requires title[i - k - 1] == TitleChar(f[k + 1..], i - k - 1)
    ensures (Capitalize(f[..k]) + " " + title)[i] == TitleChar(f, i)
  {
    var rest := f[k + 1..];
    assert |Capitalize(f[..k])| == k;
    assert (Capitalize(f[..k]) + " " + title)[i] == title[i - k - 1];
    assert rest[i - k - 1] == f[i];
    if i - k - 1 > 0 {
      assert rest[i - k - 2] == f[i - 1];
    }
  }

  /**
   * The title made from a file name has the file name's length, with each
   * dash turned into a space and the first letter of each word upper-cased.
   */
  lemma {:induction false} FallbackTitleChars(f: string)
    ensures |FallbackTitle(f)| == |f|
    ensures forall i | 0 <= i < |f| :: FallbackTitle(f)[i] == TitleChar(f, i)
    decreases |f|
  {
    FindLeftmost("-", f);
    match Find("-", f)
    case None =>
      assert Split(f, "-") == [f];
      forall i | 0 <= i < |f| ensures f[i] != '-' {
        assert !OccursAt("-", f, i);
      }
    case Some(k) =>
      var rest := f[k + 1..];
      FallbackTitleStep(f, k);
      FallbackTitleChars(rest);
      assert f[k] == '-' by {
        assert "-" <= f[k..];
      }
      forall i | 0 <= i < |f|
        ensures FallbackTitle(f)[i] == TitleChar(f, i)
      {
        if i < k {
          FirstWordChars(f, k, i);
        } else if k < i {
          LaterWordChars(f, k, i, FallbackTitle(rest));
        }
      }
  }

  /** Adding front matter is idempotent: a converted page is left alone by a second conversion. */
  lemma EnsureFrontmatterIdempotent(content: string, fileName: string)
    ensures EnsureFrontmatter(EnsureFrontmatter(content, fileName), fileName) == EnsureFrontmatter(content, fileName)
  {
  }

  // ---------------------------------------------------------------------
  // Import statements
  // ---------------------------------------------------------------------

  /** The import statements the migration deletes, by what they import. */
  datatype ImportKind = CalloutImport | TabsImport | ComponentsImport | VideoImport | PromptVarImport

  /** The quotes around a module path. */
  const PathQuotes: set<char> := {'"', '\''}

  /** `\s*Name\s*}`. */
  function NamedImport(name: string, s: string): (r: Option<string>)
    ensures r.Some? ==> |r.value| < |s| && Suffix(r.value, s)
  {
    var a := SkipSpace(s);
    var b :- Lit(name, a);
    var c := SkipSpace(b);
    var d :- Lit("}", c);
    SuffixTransitive(b, a, s);
    SuffixTransitive(c, b, s);
    SuffixTransitive(d, c, s);
    Some(d)
  }

  /** `\s*Tabs?,?`: both optional characters are taken whenever present, as no backtracking into them can succeed. */
  function TabsHead(s: string): (r: Option<string>)
    ensures r.Some? ==> Suffix(r.value, s)
  {
    var a := SkipSpace(s);
    var b :- Lit("Tab", a);
    var c := Opt(",", Opt("s", b));
    SuffixTransitive(b, a, s);
    SuffixTransitive(Opt("s", b), b, s);
    SuffixTransitive(c, Opt("s", b), s);
    Some(c)
  }

  /** `\s*Tabs?,?\s*Tab\s*}`. */
  function TabNames(s: string): (r: Option<string>)
    ensures r.Some? ==> |r.value| < |s| && Suffix(r.value, s)
  {
    var a :- TabsHead(s);
    var b :- NamedImport("Tab", a);
    SuffixTransitive(b, a, s);
    Some(b)
  }

  /** The braces' contents and the closing brace, for each kind of import. */
  function ImportNames(kind: ImportKind, s: string): (r: Option<string>)
    ensures r.Some? ==> |r.value| < |s| && Suffix(r.value, s)
  {
    match kind
    case CalloutImport => NamedImport("Callout", s)
    case TabsImport => TabNames(s)
    case VideoImport => NamedImport("Video", s)
    case PromptVarImport => NamedImport("PromptVar", s)
    case ComponentsImport =>
      // `\s*[^}]+\s*}`: the run before the first `}` must hold one character
      var c :- Delimited('}', s);
      Some(c.rest)
  }

  /**
   * `\s+[^;]+`: a blank, then everything before the next `;` or the end of
   * the text, provided that run is at least two characters long (the blank
   * and one more; backtracking hands a trailing blank to `[^;]+`).
   */
  function UpToSemicolon(s: string): (r: Option<string>)
    ensures r.Some? ==> |r.value| < |s| && Suffix(r.value, s)
  {
    var k := |Span(Except({';'}), s)|;
    if s != [] && IsSpace(s[0]) && k >= 2 then Some(s[k..]) else None
  }

  /** `\s+['"]nextra\/components['"]`. */
  function NextraPath(s: string): (r: Option<string>)
    ensures r.Some? ==> |r.value| < |s| && Suffix(r.value, s)
  {
    var a :- SkipSpace1(s);
    var b :- OneOf(PathQuotes, a);
    var c :- Lit("nextra/components", b);
    OneOf(PathQuotes, c)
  }

  /** `\s+['"]@\/components\/[^'"]+['"]`. */
  function ComponentsPath(s: string): (r: Option<string>)
    ensures r.Some? ==> |r.value| < |s| && Suffix(r.value, s)
  {
    var a :- SkipSpace1(s);
    var b :- OneOf(PathQuotes, a);
    var c :- Lit("@/components/", b);
    var d :- Until(PathQuotes, c);
    Some(d.rest)
  }

  /** The module path after `from`, for each kind of import. */
  function ImportSource(kind: ImportKind, s: string): (r: Option<string>)
    ensures r.Some? ==> |r.value| < |s| && Suffix(r.value, s)
  {
    match kind
    case CalloutImport => NextraPath(s)
    case TabsImport => NextraPath(s)
    case ComponentsImport => ComponentsPath(s)
    case VideoImport => UpToSemicolon(s)
    case PromptVarImport => UpToSemicolon(s)
  }

  /** `import\s+{` and the names and closing brace. */
  function ImportHead(kind: ImportKind, s: string): (r: Option<string>)
    ensures r.Some? ==> "import" <= s && |r.value| < |s| && Suffix(r.value, s)
  {
    var a :- Lit("import", s);
    var b :- SkipSpace1(a);
    var c :- Lit("{", b);
    var d :- ImportNames(kind, c);
    SuffixTransitive(c, b, a);
    SuffixTransitive(c, a, s);
    SuffixTransitive(d, c, s);
    Some(d)
  }

  /** `\s+from`, the module path, and `;?\s*\n?` (the greedy `\s*` leaves nothing for `\n?`). */
  function ImportTail(kind: ImportKind, s: string): (r: Option<string>)
    ensures r.Some? ==> |r.value| < |s| && Suffix(r.value, s)
  {
    var a :- SkipSpace1(s);
    var b :- Lit("from", a);
    var c :- ImportSource(kind, b);
    var d := SkipSpace(Opt(";", c));
    SuffixTransitive(c, b, a);
    SuffixTransitive(c, a, s);
    SuffixTransitive(d, Opt(";", c), c);
    SuffixTransitive(d, c, s);
    Some(d)
  }

  /** A whole import statement of the given kind, replaced by nothing. */
  function MatchImport(kind: ImportKind, s: string): (r: Option<Hit>)
    ensures r.Some? ==> "import" <= s && r.value.out == []
    ensures Advances(s, r)
  {
    var a :- ImportHead(kind, s);
    var b :- ImportTail(kind, a);
    SuffixTransitive(b, a, s);
    Some(Hit("", b))
  }

  // ---------------------------------------------------------------------
  // Components
  // ---------------------------------------------------------------------

  /** The Nextra callouts, by their `type` attribute; `PlainCallout` has none. */
  datatype CalloutKind = InfoCallout | WarningCallout | ErrorCallout | TipCallout | ImportantCallout | PlainCallout

  /** The value of the `type` attribute. */
  function CalloutType(kind: CalloutKind): string {
    match kind
    case InfoCallout => "info"
    case WarningCallout => "warning"
    case ErrorCallout => "error"
    case TipCallout => "tip"
    case ImportantCallout => "important"
    case PlainCallout => ""
  }

  /** The Mintlify component a callout becomes. */
  function Component(kind: CalloutKind): string {
    match kind
    case InfoCallout => "Info"
    case WarningCallout => "Warning"
    case ErrorCallout => "Error"
    case TipCallout => "Tip"
    case ImportantCallout => "Note"
    case PlainCallout => "Note"
  }

  /** `<Callout\s+type="ty">`. */
  function TypedOpen(ty: string, s: string): (r: Option<string>)
    ensures r.Some? ==> "<Callout" <= s && Suffix(r.value, s)
  {
    var a :- Lit("<Callout", s);
    var b :- SkipSpace1(a);
    var c :- Lit("type=\"" + ty + "\">", b);
    SuffixTransitive(b, a, s);
    SuffixTransitive(c, b, s);
    Some(c)
  }

  /** `<Callout\s+type="kind">`, or `<Callout>` for the plain callout. */
  function CalloutOpen(kind: CalloutKind, s: string): (r: Option<string>)
    ensures r.Some? ==> "<Callout" <= s && Suffix(r.value, s)
  {
    if kind == PlainCallout then Lit("<Callout>", s) else TypedOpen(CalloutType(kind), s)
  }

  /** The body of a callout up to the nearest `</Callout>`, wrapped in the component `tag`. */
  function CalloutBody(tag: string, s: string): (r: Option<Hit>)
    ensures Advances(s, r)
  {
    var body :- UpTo("</Callout>", s);
    assert Suffix(body.rest, s) by {
      assert s[|body.text| + 10..] == body.rest;
    }
    Some(Hit("<" + tag + ">" + body.text + "</" + tag + ">", body.rest))
  }

  /** A callout up to the nearest `</Callout>`, rewritten as its Mintlify component around the same body. */
  function MatchCallout(kind: CalloutKind, s: string): (r: Option<Hit>)
    ensures r.Some? ==> "<Callout" <= s
    ensures Advances(s, r)
  {
    var a :- CalloutOpen(kind, s);
    var r := CalloutBody(Component(kind), a);
    if r.Some? then SuffixTransitive(r.value.rest, a, s); r else r
  }

  /** The opening tag of a callout as written in a page, with a single space before `type`. */
  function OpenTag(kind: CalloutKind): string {
    if kind == PlainCallout then "<Callout>" else "<Callout type=\"" + CalloutType(kind) + "\">"
  }

  /** `\s+` over a single blank stops at the first character that is not one. */
  lemma OneBlank(v: string)
    requires v == [] || !IsSpace(v[0])
    ensures SkipSpace1(" " + v) == Some(v)
  {
    assert (" " + v)[1..] == v;
    SkipSpaceNone(v);
  }

  /** A typed opening tag with one space is recognised, and matching resumes right after it. */
  lemma TypedOpened(ty: string, u: string)
    ensures TypedOpen(ty, "<Callout type=\"" + ty + "\">" + u) == Some(u)
  {
    var tail := "type=\"" + ty + "\">";
    assert "<Callout type=\"" + ty + "\">" + u == "<Callout" + (" " + (tail + u));
    LitAppend("<Callout", " " + (tail + u));
    OneBlank(tail + u);
    LitAppend(tail, u);
  }

  /** The opening tag is recognised, and matching resumes right after it. */
  lemma CalloutOpened(kind: CalloutKind, u: string)
    ensures CalloutOpen(kind, OpenTag(kind) + u) == Some(u)
  {
    if kind == PlainCallout {
      LitAppend("<Callout>", u);
    } else {
      TypedOpened(CalloutType(kind), u);
    }
  }

  /** The body runs to the nearest `</Callout>`. */
  lemma CalloutBodyCaptured(tag: string, x: string, t: string)
    requires Absent("</Callout>", x)
    ensures CalloutBody(tag, x + "</Callout>" + t) == Some(Hit("<" + tag + ">" + x + "</" + tag + ">", t))
  {
    UpToNearest("</Callout>", x, t);
  }

  /**
   * A callout whose body holds no `</Callout>` becomes the Mintlify component
   * of its kind around the same body, and the text after it is left for the
   * rest of the scan.
   */
  lemma CalloutConverted(kind: CalloutKind, x: string, t: string)
    requires Absent("</Callout>", x)
    ensures MatchCallout(kind, OpenTag(kind) + x + "</Callout>" + t)
         == Some(Hit("<" + Component(kind) + ">" + x + "</" + Component(kind) + ">", t))
  {
    assert OpenTag(kind) + x + "</Callout>" + t == OpenTag(kind) + (x + "</Callout>" + t);
    CalloutOpened(kind, x + "</Callout>" + t);
    CalloutBodyCaptured(Component(kind), x, t);
  }

  /** An `important` callout and a callout without a type both become a `Note`. */
  lemma ImportantAndPlainAreNotes(x: string, t: string)
    requires Absent("</Callout>", x)
    ensures MatchCallout(ImportantCallout, OpenTag(ImportantCallout) + x + "</Callout>" + t)
         == MatchCallout(PlainCallout, OpenTag(PlainCallout) + x + "</Callout>" + t)
         == Some(Hit("<Note>" + x + "</Note>", t))
  {
    var note := Some(Hit("<Note>" + x + "</Note>", t));
    assert Component(ImportantCallout) == Component(PlainCallout) == "Note";
    assert "<" + "Note" + ">" + x + "</" + "Note" + ">" == "<Note>" + x + "</Note>";
    CalloutConverted(ImportantCallout, x, t);
    assert MatchCallout(ImportantCallout, OpenTag(ImportantCallout) + x + "</Callout>" + t) == note;
    CalloutConverted(PlainCallout, x, t);
  }

  /** A typed opening tag is refused when its type is not `ty`, as long as neither type holds a `"`. */
  lemma TypeMismatch(ty: string, other: string, t: string)
    requires ty != other && '"' !in ty && '"' !in other
    ensures TypedOpen(ty, "<Callout type=\"" + other + "\">" + t).None?
  {
    var tail := "type=\"" + other + "\">" + t;
    assert "<Callout type=\"" + other + "\">" + t == "<Callout" + (" " + tail);
    LitAppend("<Callout", " " + tail);
    OneBlank(tail);
    TypeAttributeMismatch(ty, other, t);
  }

  /** `type="ty">` is not a prefix of `type="other">...` for two different types without `"`. */
  lemma TypeAttributeMismatch(ty: string, other: string, t: string)
    requires ty != other && '"' !in ty && '"' !in other
    ensures !("type=\"" + ty + "\">" <= "type=\"" + other + "\">" + t)
  {
    var lit := "type=\"" + ty + "\">";
    var u := "type=\"" + other + "\">" + t;
    var k: nat;
    if |ty| < |other| {
      k := 6 + |ty|;
      assert lit[k] == '"' && u[k] == other[|ty|];
    } else if |other| < |ty| {
      k := 6 + |other|;
      assert lit[k] == ty[|other|] && u[k] == '"';
    } else {
      var d :| 0 <= d < |ty| && ty[d] != other[d];
      k := 6 + d;
      assert lit[k] == ty[d] && u[k] == other[d];
    }
    assert k < |lit| && k < |u| && lit[k] != u[k];
  }

  /** An opening tag of one kind is refused by the rule of every other kind. */
  lemma OtherKindRefused(rule: CalloutKind, kind: CalloutKind, t: string)
    requires rule != kind
    ensures MatchCallout(rule, OpenTag(kind) + t).None?
  {
    if kind == PlainCallout {
      PlainTagRefused(CalloutType(rule), t);
    } else if rule == PlainCallout {
      TypedTagRefused(CalloutType(kind), t);
    } else {
      TypeMismatch(CalloutType(rule), CalloutType(kind), t);
    }
  }

  /** `<Callout>` has no blank after the tag name, so no typed rule accepts it. */
  lemma PlainTagRefused(ty: string, t: string)
    ensures TypedOpen(ty, "<Callout>" + t).None?
  {
    assert "<Callout>" + t == "<Callout" + (">" + t);
    LitAppend("<Callout", ">" + t);
  }

  /** A typed opening tag is not `<Callout>`. */
  lemma TypedTagRefused(ty: string, t: string)
    ensures Lit("<Callout>", "<Callout type=\"" + ty + "\">" + t).None?
  {
    assert ("<Callout type=\"" + ty + "\">" + t)[8] == ' ';
  }

  /**
   * A callout whose type is none of those the script lists is matched by
   * none of the callout rules.
   */
  lemma UnknownCalloutKept(kind: CalloutKind, ty: string, t: string)
    requires '"' !in ty
    requires ty !in {"info", "warning", "error", "tip", "important"}
    ensures MatchCallout(kind, "<Callout type=\"" + ty + "\">" + t).None?
  {
    var s := "<Callout type=\"" + ty + "\">" + t;
    if kind == PlainCallout {
      assert s[8] == ' ';
      assert !("<Callout>" <= s);
    } else {
      TypeMismatch(CalloutType(kind), ty, t);
    }
  }

  /** `<Tabs\s+items={([^}]+)}>`, replaced by a bare `<Tabs>`. */
  function MatchTabs(s: string): (r: Option<Hit>)
    ensures r.Some? ==> "<Tabs" <= s && r.value.out == "<Tabs>"
    ensures Advances(s, r)
  {
    var a :- Lit("<Tabs", s);
    var b :- SkipSpace1(a);
    var c :- Lit("items={", b);
    var items :- Until({'}'}, c);
    var d :- Lit(">", items.rest);
    SuffixTransitive(b, a, s);
    SuffixTransitive(c, b, s);
    SuffixTransitive(d, c, s);
    Some(Hit("<Tabs>", d))
  }

  /** `<Tab>` up to the nearest `</Tab>`: the body becomes the tab's title as well as its content. */
  function MatchTab(s: string): (r: Option<Hit>)
    ensures r.Some? ==> "<Tab>" <= s
    ensures Advances(s, r)
  {
    var a :- Lit("<Tab>", s);
    var body :- UpTo("</Tab>", a);
    assert Suffix(body.rest, a) by {
      assert a[|body.text| + 6..] == body.rest;
    }
    SuffixTransitive(body.rest, a, s);
    Some(Hit("<Tab title=\"" + body.text + "\">" + body.text + "</Tab>", body.rest))
  }

  /** `<PromptVar>([^<]+)<\/PromptVar>`, replaced by the inline code `` `{{?name}}` ``. */
  function MatchPromptVar(s: string): (r: Option<Hit>)
    ensures r.Some? ==> "<PromptVar>" <= s
    ensures Advances(s, r)
  {
    var a :- Lit("<PromptVar>", s);
    var name := Span(Except({'<'}), a);
    if name == [] then None
    else
      var b :- Lit("</PromptVar>", a[|name|..]);
      SuffixTransitive(b, a, s);
      Some(Hit("`{{?" + name + "}}`", b))
  }

  /** `<Video[^>]*>` up to the nearest `</Video>`, deleted. */
  function MatchVideo(s: string): (r: Option<Hit>)
    ensures r.Some? ==> "<Video" <= s && r.value.out == []
    ensures Advances(s, r)
  {
    var a :- Lit("<Video", s);
    var attrs := Span(Except({'>'}), a);
    var b :- Lit(">", a[|attrs|..]);
    var body :- UpTo("</Video>", b);
    assert Suffix(body.rest, b) by {
      assert b[|body.text| + 8..] == body.rest;
    }
    SuffixTransitive(b, a, s);
    SuffixTransitive(body.rest, b, s);
    Some(Hit("", body.rest))
  }

  // ---------------------------------------------------------------------
  // Image paths
  // ---------------------------------------------------------------------

  /** The asset folders whose absolute paths move under `/images`. */
  datatype Folder = Screenshots | Files | Static

  function FolderName(f: Folder): string {
    match f
    case Screenshots => "screenshots"
    case Files => "files"
    case Static => "static"
  }

  /** `!\[([^\]]*)\]\(\/folder\/`: a Markdown image whose path starts in the folder gets `/images` in front. */
  function MatchImage(f: Folder, s: string): (r: Option<Hit>)
    ensures r.Some? ==> "![" <= s
    ensures Advances(s, r)
  {
    var a :- Lit("![", s);
    var alt := Span(Except({']'}), a);
    var b :- Lit("](/" + FolderName(f) + "/", a[|alt|..]);
    SuffixTransitive(b, a, s);
    Some(Hit("![" + alt + "](/images/" + FolderName(f) + "/", b))
  }

  /** `src="\/folder\/`, rewritten to `src="/images/folder/`. */
  function MatchSrc(f: Folder, s: string): (r: Option<Hit>)
    ensures r.Some? ==> "src=\"/" <= s
    ensures Advances(s, r)
  {
    var a :- Lit("src=\"/" + FolderName(f) + "/", s);
    Some(Hit("src=\"/images/" + FolderName(f) + "/", a))
  }

  // ---------------------------------------------------------------------
  // What each rule does to a well-formed construct
  // ---------------------------------------------------------------------

  /** A tab whose body holds no `</Tab>` gets that body as its title, and keeps it as its content. */
  lemma TabTitled(x: string, t: string)
    requires Absent("</Tab>", x)
    ensures MatchTab("<Tab>" + x + "</Tab>" + t) == Some(Hit("<Tab title=\"" + x + "\">" + x + "</Tab>", t))
  {
    assert "<Tab>" + x + "</Tab>" + t == "<Tab>" + (x + "</Tab>" + t);
    LitAppend("<Tab>", x + "</Tab>" + t);
    UpToNearest("</Tab>", x, t);
  }

  /** The `items` attribute of a tab group is dropped, whatever it lists. */
  lemma TabsItemsDropped(items: string, t: string)
    requires items != [] && '}' !in items
    ensures MatchTabs("<Tabs items={" + items + "}>" + t) == Some(Hit("<Tabs>", t))
  {
    var u := items + ['}'] + (">" + t);
    assert "<Tabs items={" + items + "}>" + t == "<Tabs" + (" " + ("items={" + u));
    LitAppend("<Tabs", " " + ("items={" + u));
    OneBlank("items={" + u);
    LitAppend("items={", u);
    UntilRun({'}'}, items, '}', ">" + t);
    LitAppend(">", t);
  }

  /** A Markdown image whose path starts in one of the asset folders gets `/images` in front of it; its alt text is kept. */
  lemma ImageMoved(f: Folder, alt: string, t: string)
    requires ']' !in alt
    ensures MatchImage(f, "![" + alt + "](/" + FolderName(f) + "/" + t)
         == Some(Hit("![" + alt + "](/images/" + FolderName(f) + "/", t))
  {
    var lit := "](/" + FolderName(f) + "/";
    var a := alt + (lit + t);
    ImageText(FolderName(f), alt, t);
    LitAppend("![", a);
    SpanRun(Except({']'}), alt, lit + t);
    assert a[|alt|..] == lit + t;
    LitAppend(lit, t);
    ImageFrom(f, "![" + a, a, alt, t);
  }

  /** Proof helper: an image written out, regrouped as `MatchImage` reads it. */
  lemma ImageText(name: string, alt: string, t: string)
    ensures "![" + alt + "](/" + name + "/" + t == "![" + (alt + (("](/" + name + "/") + t))
  {
  }

  /** Proof helper: `MatchImage` read off its pieces: the `![`, the alt text and the folder's path. */
  lemma ImageFrom(f: Folder, s: string, a: string, alt: string, b: string)
    requires Lit("![", s) == Some(a)
    requires Span(Except({']'}), a) == alt
    requires Lit("](/" + FolderName(f) + "/", a[|alt|..]) == Some(b)
    ensures MatchImage(f, s) == Some(Hit("![" + alt + "](/images/" + FolderName(f) + "/", b))
  {
  }


  /** An HTML source path in the folder gets `/images` in front of it. */
  lemma SourceMoved(f: Folder, t: string)
    ensures MatchSrc(f, "src=\"/" + FolderName(f) + "/" + t) == Some(Hit("src=\"/images/" + FolderName(f) + "/", t))
  {
    LitAppend("src=\"/" + FolderName(f) + "/", t);
  }

  /** A prompt variable becomes inline code showing the variable in double braces. */
  lemma PromptVarInlined(name: string, t: string)
    requires name != [] && '<' !in name
    ensures MatchPromptVar("<PromptVar>" + name + "</PromptVar>" + t) == Some(Hit("`{{?" + name + "}}`", t))
  {
    assert "<PromptVar>" + name + "</PromptVar>" + t == "<PromptVar>" + (name + ("</PromptVar>" + t));
    LitAppend("<PromptVar>", name + ("</PromptVar>" + t));
    SpanRun(Except({'<'}), name, "</PromptVar>" + t);
    assert (name + ("</PromptVar>" + t))[|name|..] == "</PromptVar>" + t;
    LitAppend("</PromptVar>", t);
  }

  /** A video element, whatever its attributes, is deleted up to the nearest `</Video>`. */
  lemma VideoRemoved(attrs: string, x: string, t: string)
    requires '>' !in attrs
    requires Absent("</Video>", x)
    ensures MatchVideo("<Video" + attrs + ">" + x + "</Video>" + t) == Some(Hit("", t))
  {
    var u := x + "</Video>" + t;
    assert "<Video" + attrs + ">" + x + "</Video>" + t == "<Video" + (attrs + (">" + u));
    LitAppend("<Video", attrs + (">" + u));
    SpanRun(Except({'>'}), attrs, ">" + u);
    assert (attrs + (">" + u))[|attrs|..] == ">" + u;
    LitAppend(">", u);
    UpToNearest("</Video>", x, t);
  }

  /** The component imported by name, for the imports that name a single component. */
  function ImportedName(kind: ImportKind): string
    requires kind == CalloutImport || kind == VideoImport || kind == PromptVarImport
  {
    match kind
    case CalloutImport => "Callout"
    case VideoImport => "Video"
    case PromptVarImport => "PromptVar"
  }

  /** `\s*Name\s*}` over ` Name }`. */
  lemma NamedImportRun(name: string, u: string)
    requires name != [] && !IsSpace(name[0])
    ensures NamedImport(name, " " + name + " }" + u) == Some(u)
  {
    assert " " + name + " }" + u == " " + (name + (" " + ("}" + u)));
    OneBlank(name + (" " + ("}" + u)));
    LitAppend(name, " " + ("}" + u));
    OneBlank("}" + u);
    LitAppend("}", u);
  }

  /** `import { Name }` is recognised up to its closing brace. */
  lemma ImportHeadRun(kind: ImportKind, u: string)
    requires kind == CalloutImport || kind == VideoImport || kind == PromptVarImport
    ensures ImportHead(kind, "import { " + ImportedName(kind) + " }" + u) == Some(u)
  {
    var name := ImportedName(kind);
    var v := " " + name + " }" + u;
    assert "import { " + name + " }" + u == "import" + (" " + ("{" + v));
    ImportHeadPieces(v);
    assert ImportNames(kind, v) == Some(u) by { NamedImportRun(name, u); }
    ImportHeadFrom(kind, "import" + (" " + ("{" + v)), " " + ("{" + v), "{" + v, v, u);
  }

  /** ` from` and a module path the kind accepts, then `;?` and all the blanks after it. */
  lemma ImportTailRun(kind: ImportKind, v: string, c: string)
    requires ImportSource(kind, v) == Some(c)
    ensures ImportTail(kind, " from" + v) == Some(SkipSpace(Opt(";", c)))
  {
    ImportTailPieces(v);
    ImportTailFrom(kind, " from" + v, "from" + v, v, c);
  }

  /** Proof helper: ` from` with one blank is read up to the module path. */
  lemma ImportTailPieces(v: string)
    ensures SkipSpace1(" from" + v) == Some("from" + v)
    ensures Lit("from", "from" + v) == Some(v)
  {
    assert " from" + v == " " + ("from" + v);
    OneBlank("from" + v);
    LitAppend("from", v);
  }

  /** Proof helper: `ImportTail` read off its pieces: the blanks, `from`, and the source. */
  lemma ImportTailFrom(kind: ImportKind, s: string, a: string, b: string, c: string)
    requires SkipSpace1(s) == Some(a) && Lit("from", a) == Some(b) && ImportSource(kind, b) == Some(c)
    ensures ImportTail(kind, s) == Some(SkipSpace(Opt(";", c)))
  {
  }

  /** ` 'nextra/components'` with either kind of quote on each side. */
  lemma NextraPathRun(q1: char, q2: char, u: string)
    requires q1 in PathQuotes && q2 in PathQuotes
    ensures NextraPath(" " + [q1] + "nextra/components" + [q2] + u) == Some(u)
  {
    var v := [q1] + ("nextra/components" + ([q2] + u));
    assert " " + [q1] + "nextra/components" + [q2] + u == " " + v;
    OneBlank(v);
    LitAppend("nextra/components", [q2] + u);
  }

  /** ` from 'nextra/components';` and the blanks after it. */
  lemma NextraTailRun(q1: char, q2: char, w: string, t: string)
    requires q1 in PathQuotes && q2 in PathQuotes
    requires forall i | 0 <= i < |w| :: IsSpace(w[i])
    requires t == [] || !IsSpace(t[0])
    ensures ImportTail(CalloutImport, " from " + [q1] + "nextra/components" + [q2] + ";" + w + t) == Some(t)
  {
    var v := " " + [q1] + "nextra/components" + [q2] + (";" + (w + t));
    assert " from " + [q1] + "nextra/components" + [q2] + ";" + w + t == " from" + v;
    NextraPathRun(q1, q2, ";" + (w + t));
    ImportTailRun(CalloutImport, v, ";" + (w + t));
    assert Opt(";", ";" + (w + t)) == w + t;
    SkipSpaceRun(w, t);
  }

  /**
   * The usual Callout import line is deleted together with its semicolon and
   * all the blank lines after it.
   */
  lemma CalloutImportRemoved(q1: char, q2: char, w: string, t: string)
    requires q1 in PathQuotes && q2 in PathQuotes
    requires forall i | 0 <= i < |w| :: IsSpace(w[i])
    requires t == [] || !IsSpace(t[0])
    ensures MatchImport(CalloutImport, "import { Callout }" + " from " + [q1] + "nextra/components" + [q2] + ";" + w + t)
         == Some(Hit("", t))
  {
    var u := " from " + [q1] + "nextra/components" + [q2] + ";" + w + t;
    assert "import { " + ImportedName(CalloutImport) + " }" == "import { Callout }";
    assert "import { Callout }" + " from " + [q1] + "nextra/components" + [q2] + ";" + w + t
        == "import { Callout }" + u;
    ImportHeadRun(CalloutImport, u);
    NextraTailRun(q1, q2, w, t);
    MatchImportFrom(CalloutImport, "import { Callout }" + u, u, t);
  }

  /**
   * A Video or PromptVar import deletes everything from `import` to the next
   * `;`, which may lie lines further on; with no `;` after it, the rest of
   * the page is deleted.
   */
  lemma ImportRunsToSemicolon(kind: ImportKind, x: string, t: string)
    requires kind == VideoImport || kind == PromptVarImport
    requires x != [] && ';' !in x
    requires t == [] || t[0] == ';'
    ensures MatchImport(kind, "import { " + ImportedName(kind) + " }" + " from " + x + t)
         == Some(Hit("", SkipSpace(Opt(";", t))))
  {
    var v := " " + x + t;
    var head := "import { " + ImportedName(kind) + " }";
    assert head + " from " + x + t == head + (" from" + v);
    ImportHeadRun(kind, " from" + v);
    UpToSemicolonRun(x, t);
    ImportTailRun(kind, v, t);
    MatchImportFrom(kind, head + (" from" + v), " from" + v, SkipSpace(Opt(";", t)));
  }

  /** `\s+[^;]+` over a blank and a run free of `;` stops at the `;` or the end. */
  lemma UpToSemicolonRun(x: string, t: string)
    requires x != [] && ';' !in x
    requires t == [] || t[0] == ';'
    ensures UpToSemicolon(" " + x + t) == Some(t)
  {
    var v := " " + x + t;
    assert v == (" " + x) + t;
    SpanRun(Except({';'}), " " + x, t);
    assert v[|" " + x|..] == t;
  }

  /** Proof helper: `MatchImport` read off its pieces: the head up to the brace, then the tail. */
  lemma MatchImportFrom(kind: ImportKind, s: string, a: string, b: string)
    requires ImportHead(kind, s) == Some(a) && ImportTail(kind, a) == Some(b)
    ensures MatchImport(kind, s) == Some(Hit("", b))
  {
  }

  /** `\s*Tabs?,?` over ` Tabs,`: both optional characters are taken. */
  lemma TabsHeadRun(u: string)
    ensures TabsHead(" Tabs," + u) == Some(u)
  {
    var c := "," + u;
    var b := "s" + c;
    var a := "Tab" + b;
    assert " Tabs," + u == " " + a;
    assert SkipSpace(" " + a) == a by {
      assert (" " + a)[1..] == a;
      SkipSpaceNone(a);
    }
    LitAppend("Tab", b);
    LitAppend("s", c);
    LitAppend(",", u);
  }

  /** `\s*Tabs?,?\s*Tab\s*}` over ` Tabs, Tab }`. */
  lemma TabNamesRun(u: string)
    ensures TabNames(" Tabs," + (" " + "Tab" + " }" + u)) == Some(u)
  {
    var a := " " + "Tab" + " }" + u;
    TabsHeadRun(a);
    NamedImportRun("Tab", u);
    TabNamesFrom(" Tabs," + a, a, u);
  }

  /** Proof helper: `TabNames` is the head of the names list followed by the last name and the closing brace. */
  lemma TabNamesFrom(s: string, a: string, u: string)
    requires TabsHead(s) == Some(a) && NamedImport("Tab", a) == Some(u)
    ensures TabNames(s) == Some(u)
  {
  }

  /** The usual Tabs import line is deleted together with its semicolon and the blanks after it. */
  lemma TabsImportRemoved(q1: char, q2: char, w: string, t: string)
    requires q1 in PathQuotes && q2 in PathQuotes
    requires forall i | 0 <= i < |w| :: IsSpace(w[i])
    requires t == [] || !IsSpace(t[0])
    ensures MatchImport(TabsImport, "import { Tabs, Tab }" + " from " + [q1] + "nextra/components" + [q2] + ";" + w + t)
         == Some(Hit("", t))
  {
    var u := " from " + [q1] + "nextra/components" + [q2] + ";" + w + t;
    assert "import { Tabs, Tab }" + " from " + [q1] + "nextra/components" + [q2] + ";" + w + t
        == "import { Tabs, Tab }" + u;
    TabsImportHead(u);
    TabsImportTail(q1, q2, w, t);
    MatchImportFrom(TabsImport, "import { Tabs, Tab }" + u, u, t);
  }

  /** `import { Tabs, Tab }` is recognised up to its closing brace. */
  lemma TabsImportHead(u: string)
    ensures ImportHead(TabsImport, "import { Tabs, Tab }" + u) == Some(u)
  {
    var v := " Tabs," + (" " + "Tab" + " }" + u);
    assert "import { Tabs, Tab }" + u == "import" + (" " + ("{" + v));
    ImportHeadPieces(v);
    assert ImportNames(TabsImport, v) == Some(u) by { TabNamesRun(u); }
    ImportHeadFrom(TabsImport, "import" + (" " + ("{" + v)), " " + ("{" + v), "{" + v, v, u);
  }

  /** ` from 'nextra/components';` and the blanks after it, after a Tabs import. */
  lemma TabsImportTail(q1: char, q2: char, w: string, t: string)
    requires q1 in PathQuotes && q2 in PathQuotes
    requires forall i | 0 <= i < |w| :: IsSpace(w[i])
    requires t == [] || !IsSpace(t[0])
    ensures ImportTail(TabsImport, " from " + [q1] + "nextra/components" + [q2] + ";" + w + t) == Some(t)
  {
    NextraTailRun(q1, q2, w, t);
  }

  /** `import {names}` is recognised up to its closing brace, for an import of the site's own components. */
  lemma ComponentsImportHead(names: string, u: string)
    requires names != [] && !IsSpace(names[0]) && '}' !in names
    ensures ImportHead(ComponentsImport, "import {" + names + "}" + u) == Some(u)
  {
    var v := names + ['}'] + u;
    ComponentsImportText(names, u);
    ImportHeadPieces(v);
    ComponentsNamesRun(names, u);
    ImportHeadFrom(ComponentsImport, "import" + (" " + ("{" + v)), " " + ("{" + v), "{" + v, v, u);
  }

  /** The braces of a components import hold everything up to the first `}`. */
  lemma ComponentsNamesRun(names: string, u: string)
    requires names != [] && !IsSpace(names[0]) && '}' !in names
    ensures ImportNames(ComponentsImport, names + ['}'] + u) == Some(u)
  {
    assert "" + names + ['}'] + u == names + ['}'] + u;
    DelimitedRun('}', "", names, u);
  }

  /** Proof helper: `import {` with one blank between the keyword and the brace is read up to the names. */
  lemma ImportHeadPieces(v: string)
    ensures Lit("import", "import" + (" " + ("{" + v))) == Some(" " + ("{" + v))
    ensures SkipSpace1(" " + ("{" + v)) == Some("{" + v)
    ensures Lit("{", "{" + v) == Some(v)
  {
    LitAppend("import", " " + ("{" + v));
    OneBlank("{" + v);
    LitAppend("{", v);
  }

  /** Proof helper: `ImportHead` read off its pieces: `import`, the blanks, `{` and the names. */
  lemma ImportHeadFrom(kind: ImportKind, s: string, a: string, b: string, c: string, d: string)
    requires Lit("import", s) == Some(a) && SkipSpace1(a) == Some(b) && Lit("{", b) == Some(c)
    requires ImportNames(kind, c) == Some(d)
    ensures ImportHead(kind, s) == Some(d)
  {
  }

  /** Proof helper: the opening of the import, regrouped as `ImportHead` reads it. */
  lemma ComponentsImportText(names: string, u: string)
    ensures "import {" + names + "}" + u == "import" + (" " + ("{" + (names + ['}'] + u)))
  {
    assert "import {" == "import" + " " + "{";
  }

  /** ` '@/components/path'` is a path into the site's own components. */
  lemma ComponentsPathRun(p: string, c: string)
    requires p != [] && forall i | 0 <= i < |p| :: p[i] !in PathQuotes
    ensures ComponentsPath(" '@/components/" + p + "'" + c) == Some(c)
  {
    var b := "@/components/" + (p + ['\''] + c);
    ComponentsPathText(p, c);
    OneBlank("'" + b);
    LitAppend("@/components/", p + ['\''] + c);
    UntilRun(PathQuotes, p, '\'', c);
  }

  /** Proof helper: the quoted path, regrouped as `ComponentsPath` reads it. */
  lemma ComponentsPathText(p: string, c: string)
    ensures " '@/components/" + p + "'" + c == " " + ("'" + ("@/components/" + (p + ['\''] + c)))
  {
    assert " '@/components/" == " " + "'" + "@/components/";
  }

  /** ` from '@/components/path';` and the blanks after it. */
  lemma ComponentsImportTail(p: string, w: string, t: string)
    requires p != [] && forall i | 0 <= i < |p| :: p[i] !in PathQuotes
    requires forall i | 0 <= i < |w| :: IsSpace(w[i])
    requires t == [] || !IsSpace(t[0])
    ensures ImportTail(ComponentsImport, " from '@/components/" + p + "';" + w + t) == Some(t)
  {
    var c := ";" + (w + t);
    var v := " '@/components/" + p + "'" + c;
    ComponentsTailText(p, w, t);
    ComponentsPathRun(p, c);
    ImportTailRun(ComponentsImport, v, c);
    assert Opt(";", c) == w + t;
    SkipSpaceRun(w, t);
  }

  /** Proof helper: the end of the import, regrouped as `ImportTail` reads it. */
  lemma ComponentsTailText(p: string, w: string, t: string)
    ensures " from '@/components/" + p + "';" + w + t == " from" + (" '@/components/" + p + "'" + (";" + (w + t)))
  {
    assert " from '@/components/" == " from" + " '@/components/";
    assert "';" == "'" + ";";
  }

  /**
   * An import from the site's own `@/components/` folder is deleted whatever
   * it names, together with its semicolon and the blanks after it.
   */
  lemma ComponentsImportRemoved(names: string, p: string, w: string, t: string)
    requires names != [] && !IsSpace(names[0]) && '}' !in names
    requires p != [] && forall i | 0 <= i < |p| :: p[i] !in PathQuotes
    requires forall i | 0 <= i < |w| :: IsSpace(w[i])
    requires t == [] || !IsSpace(t[0])
    ensures MatchImport(ComponentsImport, "import {" + names + "}" + " from '@/components/" + p + "';" + w + t)
         == Some(Hit("", t))
  {
    var u := " from '@/components/" + p + "';" + w + t;
    assert "import {" + names + "}" + " from '@/components/" + p + "';" + w + t == "import {" + names + "}" + u;
    ComponentsImportHead(names, u);
    ComponentsImportTail(p, w, t);
    MatchImportFrom(ComponentsImport, "import {" + names + "}" + u, u, t);
  }

  /** No image rule touches an HTML source path in `/static/`: only screenshots and files get `src` rewritten. */
  lemma StaticSourceKept(t: string)
    ensures forall i | 0 <= i < |ImageRules| :: Match(ImageRules[i], "src=\"/static/" + t).None?
  {
    forall i | 0 <= i < |ImageRules| ensures Match(ImageRules[i], "src=\"/static/" + t).None? {
      StaticSourceMissed(ImageRules[i], t);
    }
  }

  /** An image rule, other than one for `src` paths into `/static/`, misses such a path. */
  lemma StaticSourceMissed(rule: Rule, t: string)
    requires rule.ImagePath? || (rule.SrcPath? && rule.folder != Static)
    ensures Match(rule, "src=\"/static/" + t).None?
  {
    var s := "src=\"/static/" + t;
    assert s[0] == 's' && s[6] == 's' && s[7] == 't';
    match rule
    case ImagePath(f) =>
      assert !("![" <= s);
    case SrcPath(Screenshots) =>
      assert !("src=\"/screenshots/" <= s) by {
        assert "src=\"/screenshots/"[7] == 'c';
      }
    case SrcPath(Files) =>
      assert !("src=\"/files/" <= s) by {
        assert "src=\"/files/"[6] == 'f';
      }
  }

  // ---------------------------------------------------------------------
  // The conversion
  // ---------------------------------------------------------------------

  /** One `content.replace(/.../g, ...)` of the conversion. */
  datatype Rule =
    | RemoveImport(kind: ImportKind)
    | Callout(callout: CalloutKind)
    | TabsItems
    | TabTitle
    | ImagePath(folder: Folder)
    | SrcPath(folder: Folder)
    | PromptVarTag
    | VideoTag

  /** The literal every match of a rule starts with. */
  function Lead(rule: Rule): string {
    match rule
    case RemoveImport(_) => "import"
    case Callout(_) => "<Callout"
    case TabsItems => "<Tabs"
    case TabTitle => "<Tab>"
    case ImagePath(_) => "!["
    case SrcPath(_) => "src=\"/"
    case PromptVarTag => "<PromptVar>"
    case VideoTag => "<Video"
  }

  /** The rule's pattern, tried at the start of `s`. */
  function Match(rule: Rule, s: string): (r: Option<Hit>)
    ensures Advances(s, r)
  {
    match rule
    case RemoveImport(kind) => MatchImport(kind, s)
    case Callout(kind) => MatchCallout(kind, s)
    case TabsItems => MatchTabs(s)
    case TabTitle => MatchTab(s)
    case ImagePath(f) => MatchImage(f, s)
    case SrcPath(f) => MatchSrc(f, s)
    case PromptVarTag => MatchPromptVar(s)
    case VideoTag => MatchVideo(s)
  }

  /** Every match of a rule starts with the rule's leading literal. */
  lemma MatchStartsWithLead(rule: Rule, s: string)
    ensures Match(rule, s).Some? ==> Lead(rule) <= s
  {
    match rule
    case RemoveImport(kind) =>
    case Callout(kind) =>
    case TabsItems =>
    case TabTitle =>
    case ImagePath(f) =>
    case SrcPath(f) =>
    case PromptVarTag =>
    case VideoTag =>
  }

  /** The rule as a matcher for the global replace. */
  function RuleMatcher(rule: Rule): (m: Matcher)
    ensures Consumes(m)
    ensures forall s :: m(s) == Match(rule, s)
  {
    s => Match(rule, s)
  }

  /** `content = content.replace(pattern, replacement)` for one rule. */
  function Replace(rule: Rule, s: string): string {
    ReplaceAll(RuleMatcher(rule), s)
  }

  /** The rules applied one after the other, first to last. */
  function Chain(rules: seq<Rule>, s: string): string
    decreases |rules|
  {
    if rules == [] then s else Chain(rules[1..], Replace(rules[0], s))
  }

  const CalloutRules: seq<Rule> := [
    RemoveImport(CalloutImport),
    Callout(InfoCallout), Callout(WarningCallout), Callout(ErrorCallout),
    Callout(TipCallout), Callout(ImportantCallout), Callout(PlainCallout)
  ]

  const TabRules: seq<Rule> := [RemoveImport(TabsImport), TabsItems, TabTitle]

  const ImageRules: seq<Rule> := [
    ImagePath(Screenshots), ImagePath(Files), ImagePath(Static),
    SrcPath(Screenshots), SrcPath(Files)
  ]

  const CustomImportRules: seq<Rule> := [
    RemoveImport(ComponentsImport), RemoveImport(VideoImport), RemoveImport(PromptVarImport),
    PromptVarTag, VideoTag
  ]

  function ConvertCallouts(content: string): string {
    Chain(CalloutRules, content)
  }

  function ConvertTabs(content: string): string {
    Chain(TabRules, content)
  }

  function AdjustImagePaths(content: string): string {
    Chain(ImageRules, content)
  }

  function RemoveCustomImports(content: string): string {
    Chain(CustomImportRules, content)
  }

  /** The conversion of one page, in the order the script applies the steps. */
  function MigratePage(content: string, fileName: string): string {
    EnsureFrontmatter(RemoveCustomImports(AdjustImagePaths(ConvertTabs(ConvertCallouts(content)))), fileName)
  }

  /** No construct any rule rewrites can start at the beginning of `u`. */
  predicate PlainAt(u: string) {
    u == [] || (u[0] != '<' && !("import" <= u) && !("![" <= u) && !("src=\"/" <= u))
  }

  /** A page with no tag, no `import`, no image and no `src` attribute: none of the conversion's patterns can match in it. */
  predicate PlainPage(content: string) {
    forall i | 0 <= i < |content| :: PlainAt(content[i..])
  }

  /** No rule matches where no construct starts. */
  lemma NoLeadAtPlain(rule: Rule, u: string)
    requires PlainAt(u)
    ensures Match(rule, u).None?
  {
    MatchStartsWithLead(rule, u);
    if u != [] {
      assert Lead(rule)[0] == '<' || Lead(rule) in {"import", "![", "src=\"/"};
    }
  }

  /** A rule changes nothing in a plain page. */
  lemma ReplaceKeepsPlain(rule: Rule, s: string)
    requires PlainPage(s)
    ensures Replace(rule, s) == s
  {
    forall i | 0 <= i < |s|
      ensures RuleMatcher(rule)(s[i..]).None?
    {
      NoLeadAtPlain(rule, s[i..]);
    }
    UnmatchedTextUnchanged(RuleMatcher(rule), s);
  }

  /** Any sequence of rules changes nothing in a plain page. */
  lemma {:induction false} ChainKeepsPlain(rules: seq<Rule>, s: string)
    requires PlainPage(s)
    ensures Chain(rules, s) == s
    decreases |rules|
  {
    if rules != [] {
      ReplaceKeepsPlain(rules[0], s);
      ChainKeepsPlain(rules[1..], s);
    }
  }

  /** A page written in plain Markdown comes through the migration unchanged, apart from the front matter it may gain. */
  lemma PlainPageOnlyGainsFrontmatter(content: string, fileName: string)
    requires PlainPage(content)
    ensures MigratePage(content, fileName) == EnsureFrontmatter(content, fileName)
  {
    ChainKeepsPlain(CalloutRules, content);
    ChainKeepsPlain(TabRules, content);
    ChainKeepsPlain(ImageRules, content);
    ChainKeepsPlain(CustomImportRules, content);
  }

  /** A page that opens with heading `h`, then an empty line and the rest `post`. */
  function HeadedPage(h: string, post: string): string {
    "# " + h + "\n\n" + post
  }

  /** A plain page that opens with a level-one heading is migrated into front matter titled by it, followed by the page. */
  lemma MigratedHeadedPage(h: string, post: string, fileName: string)
    requires h != [] && !IsSpace(h[0]) && forall i | 0 <= i < |h| :: !IsLineBreak(h[i])
    requires PlainPage(HeadedPage(h, post))
    ensures MigratePage(HeadedPage(h, post), fileName) == Frontmatter(h) + HeadedPage(h, post)
  {
    assert HeadedPage(h, post) == "# " + h + ("\n\n" + post);
    FrontmatterFromOpeningHeading(h, "\n\n" + post, fileName);
    PlainPageOnlyGainsFrontmatter(HeadedPage(h, post), fileName);
  }
}
