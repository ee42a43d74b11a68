# Bruno documentation toolkit: script translator and page migration, in Dafny

This project models the three pieces of text rewriting in the Bruno
documentation site's tooling and proves properties of them:

- **The Postman-to-Bruno script translator** (`postmanTranslation` in
  `snippets/translator.jsx`). A blank script is returned as it is. Any other
  script goes through a table of fifteen pattern/replacement rules. Each rule
  is a global regular-expression replace over the whole output of the rule
  before it. The rules turn Postman's `pm.*` calls into Bruno's `bru.*`,
  `res.*` and `expect(...)` calls.
- **The Nextra-to-Mintlify page migration** (`migrate.js`). Callouts, tab
  groups, image paths and custom components are rewritten, and a page without
  front matter gets a `title:` block. The title comes from the first level-one
  heading, then a fixed table of file names, then the file name itself.
- **The duplicate-title fix** (`fix-duplicate-titles.js`). A page whose front
  matter has a quoted `title:` loses the first level-one heading of its body.

Every regular expression is modelled as a hand-written matcher anchored at the
start of a text. A matcher returns the replacement text and what follows the
match. Where the regular expression could backtrack, the matcher computes the
result that backtracking reaches. `Rewrite.ReplaceAll` is the `/g` replace:
it tries the matcher at each position from left to right. On a match it emits
the replacement and resumes after the match. Elsewhere it copies one character.
Every match consumes at least one character, which gives termination.

Modules, one per file:

| file | module | contents |
|---|---|---|
| `wrappers.dfy` | `Wrappers` | `Option`, usable with `:-` |
| `text.dfy` | `Text` | character classes, greedy runs, `Find`, lazy `UpTo`, `Split`/`Join`, multiline `^` search |
| `rewrite.dfy` | `Rewrite` | the global replace and its laws |
| `translator.dfy` | `Translator` | the fifteen rules as a table whose entries hold their matchers, `Translate`, and the loop `PostmanTranslation` |
| `migrate.dfy` | `Migrate` | titles, front matter, the conversion rules, and the page pipeline |
| `migrate_pages.dfy` | `MigratePages` | what each conversion step does to a whole page holding one construct among plain text, that is text with no tag, `import`, image or `src="/` |
| `fix_duplicate_titles.dfy` | `FixDuplicateTitles` | the page fix as content → optional new content |

Simplifications that hold throughout:

- `\s` and `trim()` accept only ASCII whitespace: space, tab, line feed,
  vertical tab, form feed and carriage return.
- `.`, `^` and `$` see only `\n` and `\r` as line terminators.
- `toUpperCase()` changes only the ASCII letters `a`–`z`.

## Model

| member | source | states |
|---|---|---|
| `Translator.Translate` | snippets/translator.jsx:3-96 | An empty or whitespace-only script is returned unchanged. A script with no `pm.` anywhere is also returned unchanged. |
| `Translator.PostmanTranslation` | snippets/translator.jsx:8-91 | The loop that reassigns the working text once per table entry, in table order, returns exactly `Translate(script)`. |
| `Translator.ApplyRules` | snippets/translator.jsx:86-89 | Folding the rules over a text without `pm.` returns that text. |
| `Translator.ApplyRulesSequential` | snippets/translator.jsx:86-89 | Applying two rule lists one after the other is the same as applying their concatenation: each rule runs once, over the whole output of the previous one. |
| `Translator.ApplyLeavesPlainText` | snippets/translator.jsx:12-84 | Every rule leaves a text without `pm.` unchanged. |
| `Translator.Match` | snippets/translator.jsx:12-84 | A rule matches only where `pm.` starts, and a match consumes at least one character and leaves a suffix of the text. |
| `Translator.QuotedNameCaptured` | snippets/translator.jsx:30 | A non-empty name without `"`, `'` or backtick, between any two of those characters, is captured whole. |
| `Translator.TestTitleRequoted` | snippets/translator.jsx:14-17 | `pm.test('t', function() {` becomes `test("t", function() {`: the title is kept and re-quoted in double quotes, whatever quotes delimited it. |
| `Translator.StatusCodeCopied` | snippets/translator.jsx:19-22 | `pm.response.to.have.status(N)` with a digit run `N` becomes `expect(res.getStatus()).to.equal(N)`, and the text after it is left for the rest of the scan. |
| `Translator.AccessorsReplaced` | snippets/translator.jsx:24-83 | `pm.response.json()` and `pm.response.text()` both become `res.getBody()`, and `pm.response.responseSize` becomes `res.getSize()`. Nothing after them is consumed. |
| `Translator.EnvironmentSetCopiesValue` | snippets/translator.jsx:29-32 | `pm.environment.set('n', v)` becomes `bru.setEnvVar("n", v)`. The name is re-quoted and the value expression up to the first `)` is copied. |
| `Translator.EnvironmentGetRequoted` | snippets/translator.jsx:33-36 | `pm.environment.get('n')` becomes `bru.getEnvVar("n")`, whatever quotes delimited the name. |
| `Translator.GlobalsAndCollectionsAgree` | snippets/translator.jsx:37-54 | Whatever follows `pm.globals.set`/`get` is rewritten exactly as it is after `pm.collectionVariables.set`/`get`: both scopes become `bru.setVar`/`bru.getVar`. |
| `Translator.ResponseTimeBoundCopied` | snippets/translator.jsx:55-59 | `pm.expect(pm.response.responseTime).to.be.below(N)` becomes `expect(res.getResponseTime()).to.be.below(N)`, copying the digit run `N`. |
| `Translator.HeaderRequoted` | snippets/translator.jsx:60-64 | `pm.response.to.have.header('h')` becomes `expect(res.getHeader("h")).to.exist`. |
| `Translator.ExpectOperandsCopied` | snippets/translator.jsx:70-78 | `pm.expect(a).to.eql(b)` and `pm.expect(a).to.equal(b)` both become `expect(a).to.equal(b)`, for operands that contain no `)`. |
| `Translator.NestedCallNotRewritten` | snippets/translator.jsx:71-78 | An assertion whose subject contains a call, `pm.expect(f(x)).to.eql(b)`, does not match: the subject stops at the first `)`. |
| `Translator.SpacedTestTitleRequoted` | snippets/translator.jsx:15-16 | `pm.test`, blanks, `(`, blanks, a quoted title, blanks, `,`, blanks, `function`, blanks, `(`, blanks, `)`, blanks, `{` becomes `test("t", function() {`, for every blank run the `\s*` gaps allow. |
| `Translator.SpacedSettersCopyValue` | snippets/translator.jsx:29-50 | The three `set` rules with any blank runs at their `\s*` gaps become `bru.setEnvVar("n", v)` or `bru.setVar("n", v)`, with the name re-quoted and the value copied. |
| `Translator.SpacedGettersRequoted` | snippets/translator.jsx:33-64 | The three `get` rules and the header rule with any blank runs at their `\s*` gaps re-emit the name in double quotes in their Bruno call. |
| `Translator.SpacedResponseTimeBound` | snippets/translator.jsx:56-59 | The response-time rule with any blank runs at its six `\s*` gaps copies the digit bound into `expect(res.getResponseTime()).to.be.below(N)`. |
| `Translator.SpacedExpectOperandsCopied` | snippets/translator.jsx:71-78 | The `eql` and `equal` rules with any blank runs at their `\s*` gaps give `expect(a).to.equal(b)`. Blanks before a `)` stay in the operand, which the greedy `[^)]+` takes. |
| `Translator.StatusTestTranslated` | snippets/translator.jsx:3-96 | A whole translation: `pm.test("x", function() {`, text `u`, `pm.response.to.have.status(N)`, text `t` becomes `test("x", function() {`, `u`, `expect(res.getStatus()).to.equal(N)`, `t`, for `x`, `u` and `t` without `pm.`. Rules 1 and 2 each rewrite their part, and the other thirteen keep the result. |
| `Translator.EnvironmentSetTranslated` | snippets/translator.jsx:3-96 | A whole translation: `pm.environment.set("n", v)` followed by any text without `pm.` becomes `bru.setEnvVar("n", v)` followed by the same text. |
| `Rewrite.ReplaceAll` | snippets/translator.jsx:88 | The `/g` replace. Stated by `UnmatchedTextUnchanged`, `CopiesUnmatchedPrefix` and `RewritesLeftmostMatch`. |
| `Rewrite.UnmatchedTextUnchanged` | snippets/translator.jsx:88 | A global replace whose pattern matches nowhere returns the text unchanged. |
| `Rewrite.CopiesUnmatchedPrefix` | snippets/translator.jsx:88 | Text in which no match starts is copied verbatim, and the rest is replaced as if it stood alone. |
| `Rewrite.RewritesLeftmostMatch` | snippets/translator.jsx:88 | The leftmost match is replaced: the text before it is copied, the replacement follows, and scanning resumes after the match. |
| `Text.UpToNearest` | migrate.js:51 | The lazy `([\s\S]*?)</Tag>` captures exactly the text up to the nearest closing tag. |
| `Text.Split` | fix-duplicate-titles.js:20 | `split('---')`: the pieces between non-overlapping fences, left to right. Stated with `Join` by `JoinSplit`. |
| `Text.Join` | fix-duplicate-titles.js:26 | `join('---')`: the pieces with a fence between each two. Stated with `Split` by `JoinSplit`. |
| `Text.JoinSplit` | fix-duplicate-titles.js:20-26 | Joining the pieces of `split(sep)` with `sep` gives back the original text. |
| `Migrate.ExtractTitle` | migrate.js:36-42 | The first level-one heading's text when there is one (`TitleFromOpeningHeading`, `TitleFromFirstHeading`). Otherwise the table entry for a listed file name (`TitleFromTable`). Otherwise the title made from the file name (`FallbackTitleChars`). |
| `Migrate.FallbackTitle` | migrate.js:41 | The file name's words between dashes, each capitalized, joined by spaces. `FallbackTitleChars` states this character by character. |
| `Migrate.TitleFromFirstHeading` | migrate.js:36-40 | Whole lines none of which starts with `#`, then `# T` and a line break: the page is titled `T`, whatever its file name. |
| `Migrate.TitleFromOpeningHeading` | migrate.js:36-40 | A page whose first line is `# T` is titled `T`, whatever its file name. |
| `Migrate.HeadingNeedsBlank` | migrate.js:37 | `#` must be followed by whitespace: `## Sub` and `#tag` are not level-one headings. |
| `Migrate.TitleFromTable` | migrate.js:41 | With no level-one heading, a file name listed in the title table takes its title from the table. |
| `Migrate.FallbackTitleChars` | migrate.js:41 | The title made from a file name has the file name's length. Each `-` becomes a space and the first character of each word is upper-cased. |
| `Migrate.EnsureFrontmatter` | migrate.js:102-109 | The result starts with `---`. A page that already starts with `---` is returned unchanged. Any other page is prefixed with exactly `---\ntitle: "<title>"\n---\n\n`. |
| `Migrate.EnsureFrontmatterIdempotent` | migrate.js:102-109 | Adding front matter twice gives the same page as adding it once. |
| `Migrate.FrontmatterFromOpeningHeading` | migrate.js:102-109 | A page opening with `# T` gets front matter titled `T`, followed by the whole page. |
| `Migrate.CalloutImportRemoved` | migrate.js:47 | `import { Callout } from 'nextra/components';` is deleted together with the whitespace after it, with either quote on either side of the path. |
| `Migrate.CalloutConverted` | migrate.js:51-56 | `<Callout type="K">X</Callout>`, for `K` one of `info`, `warning`, `error`, `tip` and `important`, and `<Callout>X</Callout>` become the matching Mintlify component around the same `X`, up to the nearest `</Callout>`. |
| `Migrate.ImportantAndPlainAreNotes` | migrate.js:55-56 | An `important` callout and an untyped callout both become `<Note>X</Note>`. |
| `Migrate.UnknownCalloutKept` | migrate.js:51-56 | A callout whose type holds no `"` and is none of `info`, `warning`, `error`, `tip` and `important` matches none of the six callout rules, typed or untyped. |
| `Migrate.OtherKindRefused` | migrate.js:51-56 | The opening tag of one kind of callout is refused by the rule of every other kind, the untyped rule included. |
| `Migrate.TabsImportRemoved` | migrate.js:64 | `import { Tabs, Tab } from 'nextra/components';` is deleted together with the whitespace after it. |
| `Migrate.TabsItemsDropped` | migrate.js:67 | `<Tabs items={...}>` becomes `<Tabs>`, whatever the items list. |
| `Migrate.TabTitled` | migrate.js:68 | `<Tab>X</Tab>` becomes `<Tab title="X">X</Tab>`: the body is duplicated as the title. |
| `Migrate.ImageMoved` | migrate.js:76-78 | A Markdown image under `/screenshots/`, `/files/` or `/static/` gets `/images` in front of its path and keeps its alt text. |
| `Migrate.SourceMoved` | migrate.js:81-82 | `src="/screenshots/` and `src="/files/` get `/images` in front of the path. |
| `Migrate.StaticSourceKept` | migrate.js:80-82 | No image rule matches `src="/static/`: only screenshots and files get their `src` rewritten. |
| `Migrate.ComponentsImportRemoved` | migrate.js:90 | An import from `@/components/...` is deleted, whatever it names, together with the whitespace after it. |
| `Migrate.ImportRunsToSemicolon` | migrate.js:91-92 | A `Video` or `PromptVar` import is deleted from `import` up to the next `;`, which may lie on a later line. |
| `Migrate.PromptVarInlined` | migrate.js:95 | `<PromptVar>n</PromptVar>` becomes `` `{{?n}}` ``. |
| `Migrate.VideoRemoved` | migrate.js:96 | `<Video ...>X</Video>` is deleted entirely, up to the nearest `</Video>`. |
| `Migrate.ConvertCallouts` | migrate.js:45-59 | The import rule, then the rules for `info`, `warning`, `error`, `tip`, `important` and untyped callouts, each a global replace over the previous result. The tag rules are stated on whole pages by `MigratePages.CalloutPageConverted`. The import rule is stated only for an import at the start of the text, by `CalloutImportRemoved`. |
| `Migrate.ConvertTabs` | migrate.js:62-71 | The import rule, the `items` rule, then the tab rule, in that order. The tag rules are stated on whole pages by `MigratePages.TabPageTitled` and `MigratePages.TabsPageItemsDropped`. The import rule is stated only for an import at the start of the text, by `TabsImportRemoved`. |
| `Migrate.AdjustImagePaths` | migrate.js:74-85 | The three image rules, then the two `src` rules, in that order. Stated on whole pages by `MigratePages.ImagePageMoved`, `MigratePages.SrcPageMoved` and `MigratePages.StaticSrcPageKept`. |
| `Migrate.RemoveCustomImports` | migrate.js:88-99 | The three import rules, the prompt variable rule, then the video rule. The tag rules are stated on whole pages by `MigratePages.PromptVarPageInlined` and `MigratePages.VideoPageRemoved`. The import rules are stated only for an import at the start of the text, by `ComponentsImportRemoved` and `ImportRunsToSemicolon`. |
| `Migrate.MigratePage` | migrate.js:118-123 | Callouts, tabs, image paths, custom components, then front matter, in the script's order. Stated by `PlainPageOnlyGainsFrontmatter` and `MigratedHeadedPage`. |
| `MigratePages.CalloutPageConverted` | migrate.js:45-59 | `p + <Callout …>X</Callout> + q`, with `p`, `X` and `q` plain, becomes `p + <C>X</C> + q` for the kind's component `C`. The import rule and the other kinds' rules keep the page, before and after. |
| `MigratePages.TabPageTitled` | migrate.js:62-71 | `p + <Tab>X</Tab> + q`, with `p`, `X` and `q` plain, becomes `p + <Tab title="X">X</Tab> + q`. |
| `MigratePages.TabsPageItemsDropped` | migrate.js:62-71 | `p + <Tabs items={I}> + q`, with `p`, `I` and `q` plain and `I` non-empty without `}`, becomes `p + <Tabs> + q`. The tab rule then finds no `<Tab>` in `<Tabs>`. |
| `MigratePages.ImagePageMoved` | migrate.js:74-85 | `p + ![A](/F/ + q`, for each of the three folders `F`, becomes `p + ![A](/images/F/ + q`. The other folders' image rules refuse the path before and after, and the `src` rules find nothing. |
| `MigratePages.SrcPageMoved` | migrate.js:74-85 | `p + src="/F/ + q`, for `F` the screenshots or files folder, becomes `p + src="/images/F/ + q`. |
| `MigratePages.StaticSrcPageKept` | migrate.js:80-85 | `p + src="/static/ + q` comes out of the image step unchanged. |
| `MigratePages.PromptVarPageInlined` | migrate.js:88-99 | `p + <PromptVar>N</PromptVar> + q`, with `N` plain and non-empty, becomes ``p + `{{?N}}` + q``. The video rule then finds nothing in the result. |
| `MigratePages.VideoPageRemoved` | migrate.js:88-99 | `p + <Video A>X</Video> + q`, with `X` plain and `A` free of `>`, tags and `import`, becomes `p + q`. |
| `MigratePages.ChainThrough` | migrate.js:45-59 | When one rule of a step changes the page, the rules before it keep the page and the rules after it keep that rule's result, the step returns that rule's result. |
| `Migrate.PlainPageOnlyGainsFrontmatter` | migrate.js:118-123 | A page with no tag, import, image or `src` attribute comes out of the pipeline unchanged, apart from the front matter it may gain. |
| `Migrate.MigratedHeadedPage` | migrate.js:118-123 | A plain page opening with `# T` is migrated into front matter titled `T`, followed by the page. |
| `FixDuplicateTitles.Fix` | fix-duplicate-titles.js:15-39 | A rewritten page still starts with `---` and is strictly shorter than the original. |
| `FixDuplicateTitles.FixWhen` | fix-duplicate-titles.js:15-45 | A page is rewritten exactly when it has front matter, the front matter has a quoted title, and the body has a level-one heading. |
| `FixDuplicateTitles.FrontmatterRoundTrip` | fix-duplicate-titles.js:20-26 | For a page starting with `---`, `"---" + parts[1] + "---" + parts[2..].join("---")` is the page itself. |
| `FixDuplicateTitles.FixDeletesFirstHeading` | fix-duplicate-titles.js:34-39 | The rewritten page is the original with one stretch of the body deleted. That stretch is the first line-start match of the heading pattern. The front matter and the rest of the body are copied verbatim. |
| `FixDuplicateTitles.NoFenceUnchanged` | fix-duplicate-titles.js:15-17 | A page that does not start with `---` is left unchanged. |
| `FixDuplicateTitles.SingleFenceUnchanged` | fix-duplicate-titles.js:20-23 | A page with a single `---` splits into two parts and is left unchanged. |
| `FixDuplicateTitles.TitleAt` | fix-duplicate-titles.js:29 | `title:`, blanks, a quote, at least one character and a later quote on the same line. Stated by `WrittenTitleFound`. |
| `FixDuplicateTitles.HasTitle` | fix-duplicate-titles.js:29 | The title pattern matches somewhere in the front matter. `FixWhen` states that the fix needs it. |
| `FixDuplicateTitles.H1At` | fix-duplicate-titles.js:36 | The heading pattern at a line start, giving the text after the match. Stated by `OnlyLevelOneHeadings` and `HeadingAndBlankLinesRemoved`. |
| `FixDuplicateTitles.WrittenTitleFound` | fix-duplicate-titles.js:29 | The `title: "T"` line written by the migration is a quoted title. |
| `FixDuplicateTitles.OnlyLevelOneHeadings` | fix-duplicate-titles.js:36-37 | `## Section` and `#tag` never match the heading pattern. |
| `FixDuplicateTitles.HeadingAndBlankLinesRemoved` | fix-duplicate-titles.js:36-38 | `# T` is removed with the rest of its line and all the whitespace after it, up to the next text. |
| `FixDuplicateTitles.MigratedHeadingNotRepeated` | fix-duplicate-titles.js:34-39 | Migrate a plain page opening with `# T`, for any one-line `T` without `---` (hyphens allowed), then fix it: the result has the front matter titled `T` and no `# T` heading. |
| `FixDuplicateTitles.SplitAfterFrontmatter` | fix-duplicate-titles.js:20-26 | Front matter with no `---` in it and no trailing `-` ends at the second fence: the parts are `""`, the front matter, then the parts of the body, whatever the body holds. |
| `FixDuplicateTitles.TrailingDashCutsEarly` | fix-duplicate-titles.js:20 | For front matter ending in `-`, the first fence found starts inside the front matter, not at the fence that follows it: the dash and that fence's first two dashes already make `---`. |

## Left out

- The React component around the translator (snippets/translator.jsx:98-400): editor state, `localStorage`, the clipboard, the toast and styles. This is browser UI and I/O.
- `snippets/translator/*.jsx`, `snippets/BrunoButton.jsx` and `snippets/premium-badge.jsx`: UI glue, editor and theme calls, and `encodeURIComponent`.
- Translator.Translate: a `null` or `undefined` script cannot be expressed, because the model takes a string. Such a script is returned as it is, just like the empty string.
- Translator.Translate: the `catch` branch and its `console.error` are not modelled. Every matcher is total, so no rule can throw and that branch cannot be reached.
- Unicode whitespace, the Unicode line terminators U+2028/U+2029 and Unicode case mapping: only the ASCII subset is modelled, as listed above.
- Migrate.ExtractTitle: the title table is a `map`. A JavaScript object lookup would also find inherited keys such as `constructor`; the model does not.
- The `filePath` argument of `ensureFrontmatter`: it is never read.
- The file-system side of `migrate.js` (lines 112-182): reads, writes, `mkdirSync`, `path.basename`/`path.relative`, the directory walk with its counters, and logging.
- The file read and write, the directory walk with its `count`, and the logging of `fix-duplicate-titles.js` (lines 11, 40-41, 53-81). The fix is modelled as a function from content to optional new content, where `None` means the page is left as it is.
- A general regular-expression engine: each rule's pattern has its own hand-written matcher.
- MigratePages: the whole-page lemmas cover the tag rules on a page holding one construct among plain text. The import rules are stated only for an import at the start of the text (`Migrate.CalloutImportRemoved`, `Migrate.TabsImportRemoved`, `Migrate.ComponentsImportRemoved`, `Migrate.ImportRunsToSemicolon`). A page holding several constructs, or constructs inside one another, is covered rule by rule, by the single-match lemmas of `Migrate` and `Rewrite.RewritesLeftmostMatch`.
- MigratePages.VideoPageRemoved: the attributes are taken without `<` and `import`, which `[^>]*` would accept. A video with such attributes is covered by `Migrate.VideoRemoved` at the level of one match.
- `Translator.Conversions`, the table of fifteen rules, is a constant. Its entries are stated by `Translator.Match` and the per-rule lemmas.
- FixDuplicateTitles.MigratedHeadingNotRepeated: titles that hold `---` are excluded. Such a title's fence is found first by `split('---')`, so the front matter part stops inside the title line. Single hyphens and `--` are covered.
