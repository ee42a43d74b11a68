/**
 * The Postman-to-Bruno script translator: fifteen pattern/replacement rules,
 * each applied as a global replace, in table order, to the output of the
 * previous one. Blank scripts are returned as they are.
 */
module Translator {
  import opened Wrappers
  import opened Text
  import opened Rewrite

  /**
   * One entry of the conversion table: its pattern together with its
   * replacement, as the function that rewrites a match of the pattern at the
   * start of a text and reports the text after it.
   */
  datatype Rule = Rule(rewrite: string -> Option<Hit>)

  /** Every pattern of the table starts with `pm.`, and every match consumes text. */
  ghost predicate Sound(r: Rule) {
    forall s :: Advances(s, r.rewrite(s)) && (r.rewrite(s).Some? ==> "pm." <= s)
  }

  type Conversion = r: Rule | Sound(r) witness Rule(s => None)

  const TestBlock: Conversion := Rule(MatchTestBlock)            // pm.test("name", function() {
  const ResponseStatus: Conversion := Rule(MatchResponseStatus)  // pm.response.to.have.status(200)
  const ResponseJson: Conversion := Rule(s => MatchLiteral("pm.response.json()", "res.getBody()", s))
  const EnvironmentSet: Conversion := Rule(s => SetCall("pm.environment.set", "bru.setEnvVar", s))
  const EnvironmentGet: Conversion := Rule(s => MatchGetter("pm.environment.get", "bru.getEnvVar", s))
  const GlobalsSet: Conversion := Rule(s => SetCall("pm.globals.set", "bru.setVar", s))
  const GlobalsGet: Conversion := Rule(s => MatchGetter("pm.globals.get", "bru.getVar", s))
  const CollectionSet: Conversion := Rule(s => SetCall("pm.collectionVariables.set", "bru.setVar", s))
  const CollectionGet: Conversion := Rule(s => MatchGetter("pm.collectionVariables.get", "bru.getVar", s))
  const ResponseTime: Conversion := Rule(MatchResponseTime)      // pm.expect(pm.response.responseTime).to.be.below(500)
  const ResponseHeader: Conversion := Rule(MatchResponseHeader)  // pm.response.to.have.header("name")
  const ResponseText: Conversion := Rule(s => MatchLiteral("pm.response.text()", "res.getBody()", s))
  const ExpectEql: Conversion := Rule(s => MatchExpect("eql", s))
  const ExpectEqual: Conversion := Rule(s => MatchExpect("equal", s))
  const ResponseSize: Conversion := Rule(s => MatchLiteral("pm.response.responseSize", "res.getSize()", s))

  /** The conversion table, in the order the rules are applied. */
  const Conversions: seq<Conversion> := [
    TestBlock, ResponseStatus, ResponseJson, EnvironmentSet, EnvironmentGet,
    GlobalsSet, GlobalsGet, CollectionSet, CollectionGet, ResponseTime,
    ResponseHeader, ResponseText, ExpectEql, ExpectEqual, ResponseSize
  ]

  const Quotes: set<char> := {'"', '\'', '`'}

  /** `["'`]([^"'`]+)["'`]`: a name between any two of the three quote characters. */
  function QuotedName(s: string): (r: Option<Capture>)
    ensures r.Some? ==> r.value.text != [] && |r.value.rest| < |s| && Suffix(r.value.rest, s)
    ensures r.Some? ==> forall i | 0 <= i < |r.value.text| :: r.value.text[i] !in Quotes
  {
    var open :- OneOf(Quotes, s);
    Until(Quotes, open)
  }

  /** `(\d+)`: a non-empty run of digits. */
  function DigitRun(s: string): (r: Option<Capture>)
    ensures r.Some? ==> r.value.text != [] && Suffix(r.value.rest, s)
    ensures r.Some? ==> forall i | 0 <= i < |r.value.text| :: IsDigit(r.value.text[i])
  {
    var digits := Span(Digit, s);
    if digits == [] then None else Some(Capture(digits, s[|digits|..]))
  }

  /** `\s*([^)]+)\s*\)`: an argument running up to the first closing parenthesis. */
  function Argument(s: string): (r: Option<Capture>)
    ensures r.Some? ==> r.value.text != [] && ')' !in r.value.text
    ensures r.Some? ==> |r.value.rest| < |s| && Suffix(r.value.rest, s)
  {
    Delimited(')', s)
  }

  /** `\s*\(\s*["'`]([^"'`]+)["'`]\s*`: the opening of a call whose first argument is a quoted name. */
  function NameArgument(s: string): (r: Option<Capture>)
    ensures r.Some? ==> r.value.text != [] && |r.value.rest| < |s| && Suffix(r.value.rest, s)
  {
    var a :- Lit("(", SkipSpace(s));
    var name :- QuotedName(SkipSpace(a));
    SuffixTransitive(a, SkipSpace(s), s);
    SuffixTransitive(name.rest, SkipSpace(a), a);
    SuffixTransitive(name.rest, a, s);
    SuffixTransitive(SkipSpace(name.rest), name.rest, s);
    Some(Capture(name.text, SkipSpace(name.rest)))
  }

  /** A name and a value expression, as captured by the `set` rules. */
  datatype Assignment = Assignment(name: string, value: string, rest: string)

  /** `\s*\(\s*["'`]([^"'`]+)["'`]\s*,\s*([^)]+)\)`: the arguments of a `set` call. */
  function SetArguments(s: string): (r: Option<Assignment>)
    ensures r.Some? ==> |r.value.rest| < |s| && Suffix(r.value.rest, s)
    ensures r.Some? ==> r.value.name != [] && r.value.value != [] && ')' !in r.value.value
  {
    var name :- NameArgument(s);
    var a :- Lit(",", name.rest);
    var value :- Argument(a);
    Some(Assignment(name.text, value.text, value.rest))
  }

  /** `\s*\(\s*["'`]([^"'`]+)["'`]\s*\)`: the argument of a `get` call. */
  function GetArgument(s: string): (r: Option<Capture>)
    ensures r.Some? ==> r.value.text != [] && |r.value.rest| < |s| && Suffix(r.value.rest, s)
  {
    var name :- NameArgument(s);
    var a :- Lit(")", name.rest);
    Some(Capture(name.text, a))
  }

  /** `head` followed by the arguments of a `set` call, rewritten as a call of `target`. */
  function SetCall(head: string, target: string, s: string): (r: Option<Hit>)
    requires "pm." <= head
    ensures r.Some? ==> "pm." <= s
    ensures Advances(s, r)
  {
    var a :- Lit(head, s);
    PrefixOfHead(head, s);
    var args :- SetArguments(a);
    SuffixTransitive(args.rest, a, s);
    Some(Hit(target + "(\"" + args.name + "\", " + args.value + ")", args.rest))
  }

  /** `head\s*\(\s*["'`]([^"'`]+)["'`]\s*\)`: a `get`-style call; yields the name. */
  function GetCall(head: string, s: string): (r: Option<Capture>)
    requires "pm." <= head
    ensures r.Some? ==> "pm." <= s && r.value.text != []
    ensures r.Some? ==> |r.value.rest| < |s| && Suffix(r.value.rest, s)
  {
    var a :- Lit(head, s);
    PrefixOfHead(head, s);
    var name :- GetArgument(a);
    SuffixTransitive(name.rest, a, s);
    Some(name)
  }

  /** `,\s*function\s*\(\s*\)\s*\{`: the start of the callback after a test title. */
  function CallbackHeader(s: string): (r: Option<string>)
    ensures r.Some? ==> |r.value| < |s| && Suffix(r.value, s)
  {
    var b :- Lit(",", s);
    var c :- Lit("function", SkipSpace(b));
    var d :- Lit("(", SkipSpace(c));
    var e :- Lit(")", SkipSpace(d));
    var f :- Lit("{", SkipSpace(e));
    SuffixTransitive(SkipSpace(b), b, s);
    SuffixTransitive(c, SkipSpace(b), s);
    SuffixTransitive(SkipSpace(c), c, s);
    SuffixTransitive(d, SkipSpace(c), s);
    SuffixTransitive(SkipSpace(d), d, s);
    SuffixTransitive(e, SkipSpace(d), s);
    SuffixTransitive(SkipSpace(e), e, s);
    SuffixTransitive(f, SkipSpace(e), s);
    Some(f)
  }

  /** Rule 1: `pm.test("name", function() {` becomes `test("name", function() {`. */
  function MatchTestBlock(s: string): (r: Option<Hit>)
    ensures r.Some? ==> "pm." <= s
    ensures Advances(s, r)
  {
    var a :- Lit("pm.test", s);
    PrefixOfHead("pm.test", s);
    var name :- NameArgument(a);
    var f :- CallbackHeader(name.rest);
    SuffixTransitive(name.rest, a, s);
    SuffixTransitive(f, name.rest, s);
    Some(Hit("test(\"" + name.text + "\", function() {", f))
  }

  /** Rule 2: `pm.response.to.have.status(N)` becomes an equality on `res.getStatus()`. */
  function MatchResponseStatus(s: string): (r: Option<Hit>)
    ensures r.Some? ==> "pm." <= s
    ensures Advances(s, r)
  {
    var a :- Lit("pm.response.to.have.status(", s);
    PrefixOfHead("pm.response.to.have.status(", s);
    var code :- DigitRun(a);
    var b :- Lit(")", code.rest);
    SuffixTransitive(code.rest, a, s);
    SuffixTransitive(b, code.rest, s);
    Some(Hit("expect(res.getStatus()).to.equal(" + code.text + ")", b))
  }

  /** A rule whose pattern is the literal `lit` and whose replacement is the literal `out`. */
  function MatchLiteral(lit: string, out: string, s: string): (r: Option<Hit>)
    requires "pm." <= lit
    ensures r.Some? <==> lit <= s
    ensures r.Some? ==> "pm." <= s
    ensures r.Some? ==> r.value == Hit(out, s[|lit|..])
    ensures Advances(s, r)
  {
    var a :- Lit(lit, s);
    PrefixOfHead(lit, s);
    Some(Hit(out, a))
  }

  /** `pm\.expect\s*\(\s*pm\.response\.responseTime\s*`: the subject of a response-time assertion. */
  function TimeSubject(s: string): (r: Option<string>)
    ensures r.Some? ==> "pm." <= s
    ensures r.Some? ==> |r.value| < |s| && Suffix(r.value, s)
  {
    var a :- Lit("pm.expect", s);
    PrefixOfHead("pm.expect", s);
    var b :- Lit("(", SkipSpace(a));
    var c :- Lit("pm.response.responseTime", SkipSpace(b));
    SuffixTransitive(SkipSpace(a), a, s);
    SuffixTransitive(b, SkipSpace(a), s);
    SuffixTransitive(SkipSpace(b), b, s);
    SuffixTransitive(c, SkipSpace(b), s);
    SuffixTransitive(SkipSpace(c), c, s);
    Some(SkipSpace(c))
  }

  /** `\s*\(\s*(\d+)\s*\)`: a parenthesised run of digits. */
  function DigitArgument(s: string): (r: Option<Capture>)
    ensures r.Some? ==> r.value.text != [] && forall i | 0 <= i < |r.value.text| :: IsDigit(r.value.text[i])
    ensures r.Some? ==> |r.value.rest| < |s| && Suffix(r.value.rest, s)
  {
    var e :- Lit("(", SkipSpace(s));
    var bound :- DigitRun(SkipSpace(e));
    var f :- Lit(")", SkipSpace(bound.rest));
    SuffixTransitive(e, SkipSpace(s), s);
    SuffixTransitive(SkipSpace(e), e, s);
    SuffixTransitive(bound.rest, SkipSpace(e), s);
    SuffixTransitive(SkipSpace(bound.rest), bound.rest, s);
    SuffixTransitive(f, SkipSpace(bound.rest), s);
    Some(Capture(bound.text, f))
  }

  /** `\)\.to\.be\.below\s*\(\s*(\d+)\s*\)`: the bound of a response-time assertion. */
  function BelowBound(s: string): (r: Option<Capture>)
    ensures r.Some? ==> r.value.text != [] && forall i | 0 <= i < |r.value.text| :: IsDigit(r.value.text[i])
    ensures r.Some? ==> |r.value.rest| < |s| && Suffix(r.value.rest, s)
  {
    var d :- Lit(").to.be.below", s);
    var bound :- DigitArgument(d);
    SuffixTransitive(bound.rest, d, s);
    Some(bound)
  }

  /** Rule 10: `pm.expect(pm.response.responseTime).to.be.below(N)` becomes a bound on `res.getResponseTime()`. */
  function MatchResponseTime(s: string): (r: Option<Hit>)
    ensures r.Some? ==> "pm." <= s
    ensures Advances(s, r)
  {
    var c :- TimeSubject(s);
    var bound :- BelowBound(c);
    SuffixTransitive(bound.rest, c, s);
    Some(Hit("expect(res.getResponseTime()).to.be.below(" + bound.text + ")", bound.rest))
  }

  /**
   * Rules 13 and 14: `pm.expect(a).to.<verb>(b)` becomes `expect(a).to.equal(b)`.
   * Each argument runs to the first `)`, so an argument with a call inside it does not match.
   */
  function MatchExpect(verb: string, s: string): (r: Option<Hit>)
    ensures r.Some? ==> "pm." <= s
    ensures Advances(s, r)
  {
    var actual :- ExpectSubject(s);
    var expected :- Comparison(verb, actual.rest);
    SuffixTransitive(expected.rest, actual.rest, s);
    Some(Hit("expect(" + actual.text + ").to.equal(" + expected.text + ")", expected.rest))
  }

  /** `pm\.expect\s*\(\s*([^)]+)\s*\)`: the subject of an assertion. */
  function ExpectSubject(s: string): (r: Option<Capture>)
    ensures r.Some? ==> "pm.expect" <= s && "pm." <= s && r.value.text != [] && ')' !in r.value.text
    ensures r.Some? ==> |r.value.rest| < |s| && Suffix(r.value.rest, s)
  {
    var a :- Lit("pm.expect", s);
    PrefixOfHead("pm.expect", s);
    var b :- Lit("(", SkipSpace(a));
    var actual :- Argument(b);
    SuffixTransitive(SkipSpace(a), a, s);
    SuffixTransitive(b, SkipSpace(a), s);
    SuffixTransitive(actual.rest, b, s);
    Some(actual)
  }

  /** `\.to\.<verb>\s*\(\s*([^)]+)\s*\)`: the comparison of an assertion and its operand. */
  function Comparison(verb: string, s: string): (r: Option<Capture>)
    ensures r.Some? ==> r.value.text != [] && ')' !in r.value.text
    ensures r.Some? ==> |r.value.rest| < |s| && Suffix(r.value.rest, s)
  {
    var c :- Lit(".to." + verb, s);
    var d :- Lit("(", SkipSpace(c));
    var expected :- Argument(d);
    SuffixTransitive(SkipSpace(c), c, s);
    SuffixTransitive(d, SkipSpace(c), s);
    SuffixTransitive(expected.rest, d, s);
    Some(expected)
  }

  /** `head(name)` rewritten as `target("name")`, for the `get` rules. */
  function MatchGetter(head: string, target: string, s: string): (r: Option<Hit>)
    requires "pm." <= head
    ensures r.Some? ==> "pm." <= s
    ensures Advances(s, r)
  {
    var name :- GetCall(head, s);
    Some(Hit(target + "(\"" + name.text + "\")", name.rest))
  }

  /** Rule 11: `pm.response.to.have.header(name)` becomes an existence check on `res.getHeader`. */
  function MatchResponseHeader(s: string): (r: Option<Hit>)
    ensures r.Some? ==> "pm." <= s
    ensures Advances(s, r)
  {
    var name :- GetCall("pm.response.to.have.header", s);
    Some(Hit("expect(res.getHeader(\"" + name.text + "\")).to.exist", name.rest))
  }

  /** What the rule `c` does at the start of `s`: its replacement and the text after the match, if it matches. */
  function Match(c: Conversion, s: string): (r: Option<Hit>)
    ensures r.Some? ==> "pm." <= s
    ensures Advances(s, r)
  {
    c.rewrite(s)
  }

  /** A literal's prefix is a prefix of any text the literal starts. */
  lemma PrefixOfHead(head: string, s: string)
    requires "pm." <= head && head <= s
    ensures "pm." <= s
  {
    assert s[..3] == head[..3];
  }

  /** The rule `c` as a matcher for a global replace. */
  function RuleMatcher(c: Conversion): (m: Matcher)
    ensures Consumes(m)
    ensures forall s :: m(s) == Match(c, s)
  {
    s => Match(c, s)
  }

  /** `script.replace(pattern, replacement)` for the rule `c`, whose pattern carries the `g` flag. */
  function Apply(c: Conversion, s: string): string {
    ReplaceAll(RuleMatcher(c), s)
  }

  /** The literal `pm.` starts nowhere in `s`. */
  predicate NoPm(s: string) {
    forall i | 0 <= i < |s| :: !("pm." <= s[i..])
  }

  /** A rule leaves a text without `pm.` unchanged. */
  lemma ApplyLeavesPlainText(c: Conversion, s: string)
    ensures NoPm(s) ==> Apply(c, s) == s
  {
    if NoPm(s) {
      assert forall i | 0 <= i < |s| :: RuleMatcher(c)(s[i..]).None?;
      UnmatchedTextUnchanged(RuleMatcher(c), s);
    }
  }

  /** The rules `rules` applied in order, each to the whole output of the previous one. */
  function ApplyRules(rules: seq<Conversion>, s: string): (r: string)
    ensures NoPm(s) ==> r == s
    decreases |rules|
  {
    if |rules| == 0 then s
    else
      var before := ApplyRules(rules[..|rules| - 1], s);
      ApplyLeavesPlainText(rules[|rules| - 1], before);
      Apply(rules[|rules| - 1], before)
  }

  /** The script is empty or only whitespace (`!script || script.trim() === ''`). */
  predicate Blank(script: string) {
    forall i | 0 <= i < |script| :: IsSpace(script[i])
  }

  /**
   * The translation of a script: a blank script is returned as it is; any
   * other script goes through the whole table. A text that never mentions
   * `pm.` comes out unchanged.
   */
  function Translate(script: string): (r: string)
    ensures Blank(script) ==> r == script
    ensures NoPm(script) ==> r == script
  {
    if Blank(script) then script else ApplyRules(Conversions, script)
  }

  /**
   * The translator as the source runs it: a loop that reassigns the working
   * text once per table entry, in table order.
   */
  method PostmanTranslation(script: string) returns (translated: string)
    ensures translated == Translate(script)
  {
    if Blank(script) {
      return script;
    }
    translated := script;
    for i := 0 to |Conversions|
      invariant translated == ApplyRules(Conversions[..i], script)
    {
      assert Conversions[..i + 1][..i] == Conversions[..i];
      translated := Apply(Conversions[i], translated);
    }
    assert Conversions[..|Conversions|] == Conversions;
  }

  /** Applying two lists of rules one after the other is applying their concatenation. */
  lemma {:induction false} ApplyRulesSequential(first: seq<Conversion>, second: seq<Conversion>, s: string)
    ensures ApplyRules(first + second, s) == ApplyRules(second, ApplyRules(first, s))
    decreases |second|
  {
    if second == [] {
      assert first + second == first;
    } else {
      var n := |second| - 1;
      assert (first + second)[..|first + second| - 1] == first + second[..n];
      assert (first + second)[|first + second| - 1] == second[n];
      var rest := ApplyRules(first + second[..n], s);
      assert ApplyRules(first + second, s) == Apply(second[n], rest);
      ApplyRulesSequential(first, second[..n], s);
      assert ApplyRules(second, ApplyRules(first, s)) == Apply(second[n], rest);
    }
  }

  /** Rule 2 copies the status code: `pm.response.to.have.status(200)` becomes `expect(res.getStatus()).to.equal(200)`. */
  lemma StatusCodeCopied(code: string, t: string)
    requires code != [] && forall i | 0 <= i < |code| :: IsDigit(code[i])
    ensures Match(ResponseStatus, "pm.response.to.have.status(" + code + ")" + t)
         == Some(Hit("expect(res.getStatus()).to.equal(" + code + ")", t))
  {
    var head := "pm.response.to.have.status(";
    var s := head + code + ")" + t;
    assert s == head + (code + (")" + t));
    LitAppend(head, code + (")" + t));
    SpanRun(Digit, code, ")" + t);
    assert (code + (")" + t))[|code|..] == ")" + t;
    LitAppend(")", t);
  }

  /**
   * Rule 10 copies the bound: `pm.expect(pm.response.responseTime).to.be.below(500)` becomes a bound on
   * `res.getResponseTime()`. The script is written in the pieces the pattern reads.
   */
  lemma ResponseTimeBoundCopied(bound: string, t: string)
    requires bound != [] && forall i | 0 <= i < |bound| :: IsDigit(bound[i])
    ensures Match(ResponseTime, "pm.expect" + "(" + "pm.response.responseTime" + ").to.be.below" + "(" + bound + ")" + t)
         == Some(Hit("expect(res.getResponseTime()).to.be.below(" + bound + ")", t))
  {
    TimeBoundMatched(bound, t);
  }

  lemma TimeBoundMatched(bound: string, t: string)
    requires bound != [] && forall i | 0 <= i < |bound| :: IsDigit(bound[i])
    ensures MatchResponseTime("pm.expect" + "(" + "pm.response.responseTime" + ").to.be.below" + "(" + bound + ")" + t)
         == Some(Hit("expect(res.getResponseTime()).to.be.below(" + bound + ")", t))
  {
    var c := ").to.be.below" + "(" + bound + ")" + t;
    assert "pm.expect" + "(" + "pm.response.responseTime" + ").to.be.below" + "(" + bound + ")" + t
        == "pm.expect" + ("(" + ("pm.response.responseTime" + c));
    TimeSubjectCaptured(c);
    BoundCaptured(bound, t);
  }

  /** The subject `pm.expect(pm.response.responseTime` written without blanks is recognised. */
  lemma TimeSubjectCaptured(c: string)
    requires c == [] || !IsSpace(c[0])
    ensures TimeSubject("pm.expect" + ("(" + ("pm.response.responseTime" + c))) == Some(c)
  {
    var b := "pm.response.responseTime" + c;
    LitAppend("pm.expect", "(" + b);
    SkipSpaceNone("(" + b);
    LitAppend("(", b);
    SkipSpaceNone(b);
    LitAppend("pm.response.responseTime", c);
    SkipSpaceNone(c);
  }

  /** The bound after `.to.be.below(` is the run of digits before `)`. */
  lemma BoundCaptured(bound: string, t: string)
    requires bound != [] && forall i | 0 <= i < |bound| :: IsDigit(bound[i])
    ensures BelowBound(").to.be.below" + "(" + bound + ")" + t) == Some(Capture(bound, t))
  {
    assert ").to.be.below" + "(" + bound + ")" + t == ").to.be.below" + ("(" + bound + ")" + t);
    LitAppend(").to.be.below", "(" + bound + ")" + t);
    DigitArgumentCaptured(bound, t);
  }

  /** `(digits)` yields the digits. */
  lemma DigitArgumentCaptured(bound: string, t: string)
    requires bound != [] && forall i | 0 <= i < |bound| :: IsDigit(bound[i])
    ensures DigitArgument("(" + bound + ")" + t) == Some(Capture(bound, t))
  {
    var e := bound + (")" + t);
    assert "(" + bound + ")" + t == "(" + e;
    SkipSpaceNone("(" + e);
    LitAppend("(", e);
    SkipSpaceNone(e);
    SpanRun(Digit, bound, ")" + t);
    assert e[|bound|..] == ")" + t;
    SkipSpaceNone(")" + t);
    LitAppend(")", t);
  }

  /** The quoted name of a call, between any two quote characters, followed by `rest`. */
  function Quoted(open: char, name: string, close: char, rest: string): string {
    [open] + name + [close] + rest
  }

  /** A name between any two of `"`, `'` and a backtick, and not containing them, is captured whole. */
  lemma QuotedNameCaptured(open: char, name: string, close: char, rest: string)
    requires open in Quotes && close in Quotes
    requires name != [] && forall i | 0 <= i < |name| :: name[i] !in Quotes
    ensures QuotedName(Quoted(open, name, close, rest)) == Some(Capture(name, rest))
  {
    var s := Quoted(open, name, close, rest);
    assert s[1..] == name + [close] + rest;
    UntilRun(Quotes, name, close, rest);
  }

  /** `(` then a quoted name then blanks, as at the start of every call with a name argument. */
  lemma NameArgumentCaptured(open: char, name: string, close: char, rest: string)
    requires open in Quotes && close in Quotes
    requires name != [] && forall i | 0 <= i < |name| :: name[i] !in Quotes
    requires rest == [] || !IsSpace(rest[0])
    ensures NameArgument("(" + Quoted(open, name, close, rest)) == Some(Capture(name, rest))
  {
    var q := Quoted(open, name, close, rest);
    SkipSpaceNone("(" + q);
    LitAppend("(", q);
    assert Lit("(", SkipSpace("(" + q)) == Some(q);
    SkipSpaceNone(q);
    QuotedNameCaptured(open, name, close, rest);
    SkipSpaceNone(rest);
  }

  /** `head('name')` yields the name and the text after the closing parenthesis, whichever quotes are used. */
  lemma GetCallCaptured(head: string, open: char, name: string, close: char, t: string)
    requires "pm." <= head
    requires open in Quotes && close in Quotes
    requires name != [] && forall i | 0 <= i < |name| :: name[i] !in Quotes
    ensures GetCall(head, head + "(" + Quoted(open, name, close, ")" + t)) == Some(Capture(name, t))
  {
    var a := "(" + Quoted(open, name, close, ")" + t);
    assert head + "(" + Quoted(open, name, close, ")" + t) == head + a;
    LitAppend(head, a);
    NameArgumentCaptured(open, name, close, ")" + t);
    LitAppend(")", t);
    assert GetArgument(a) == Some(Capture(name, t));
  }

  /** A `get` rule re-emits the name, in double quotes, as the argument of its Bruno call. */
  lemma GetterCaptured(head: string, target: string, open: char, name: string, close: char, t: string)
    requires "pm." <= head
    requires open in Quotes && close in Quotes
    requires name != [] && forall i | 0 <= i < |name| :: name[i] !in Quotes
    ensures MatchGetter(head, target, head + "(" + Quoted(open, name, close, ")" + t))
         == Some(Hit(target + "(\"" + name + "\")", t))
  {
    GetCallCaptured(head, open, name, close, t);
  }

  /**
   * Rule 5 re-emits the variable name in double quotes, whichever quotes
   * delimited it: `pm.environment.get('token')` becomes `bru.getEnvVar("token")`.
   */
  lemma EnvironmentGetRequoted(open: char, name: string, close: char, t: string)
    requires open in Quotes && close in Quotes
    requires name != [] && forall i | 0 <= i < |name| :: name[i] !in Quotes
    ensures Match(EnvironmentGet, "pm.environment.get(" + Quoted(open, name, close, ")" + t))
         == Some(Hit("bru.getEnvVar(\"" + name + "\")", t))
  {
    var s := "pm.environment.get(" + Quoted(open, name, close, ")" + t);
    assert "pm.environment.get(" == "pm.environment.get" + "(";
    assert "bru.getEnvVar(\"" == "bru.getEnvVar" + "(\"";
    GetterCaptured("pm.environment.get", "bru.getEnvVar", open, name, close, t);
  }

  /** Rule 11 re-emits the header name in double quotes inside `res.getHeader`. */
  lemma HeaderRequoted(open: char, name: string, close: char, t: string)
    requires open in Quotes && close in Quotes
    requires name != [] && forall i | 0 <= i < |name| :: name[i] !in Quotes
    ensures Match(ResponseHeader, "pm.response.to.have.header(" + Quoted(open, name, close, ")" + t))
         == Some(Hit("expect(res.getHeader(\"" + name + "\")).to.exist", t))
  {
    var s := "pm.response.to.have.header(" + Quoted(open, name, close, ")" + t);
    assert "pm.response.to.have.header(" == "pm.response.to.have.header" + "(";
    GetCallCaptured("pm.response.to.have.header", open, name, close, t);
  }

  /** Rule 1 keeps the test title, re-quoted, and the callback header. */
  lemma TestTitleRequoted(open: char, name: string, close: char, t: string)
    requires open in Quotes && close in Quotes
    requires name != [] && forall i | 0 <= i < |name| :: name[i] !in Quotes
    ensures Match(TestBlock, "pm.test(" + Quoted(open, name, close, ", function() {" + t))
         == Some(Hit("test(\"" + name + "\", function() {", t))
  {
    var s := "pm.test(" + Quoted(open, name, close, ", function() {" + t);
    assert "pm.test(" == "pm.test" + "(";
    TestTitleMatched(open, name, close, t);
  }

  lemma TestTitleMatched(open: char, name: string, close: char, t: string)
    requires open in Quotes && close in Quotes
    requires name != [] && forall i | 0 <= i < |name| :: name[i] !in Quotes
    ensures MatchTestBlock("pm.test" + "(" + Quoted(open, name, close, ", function() {" + t))
         == Some(Hit("test(\"" + name + "\", function() {", t))
  {
    var tail := ", function() {" + t;
    var a := "(" + Quoted(open, name, close, tail);
    var s := "pm.test" + "(" + Quoted(open, name, close, tail);
    assert s == "pm.test" + a;
    LitAppend("pm.test", a);
    NameArgumentCaptured(open, name, close, tail);
    CallbackHeaderPlain(t);
    assert Lit("pm.test", s) == Some(a);
    assert NameArgument(a) == Some(Capture(name, tail));
    assert CallbackHeader(tail) == Some(t);
  }

  /** The callback header as the translator's own output writes it is recognised. */
  lemma CallbackHeaderPlain(t: string)
    ensures CallbackHeader(", function() {" + t) == Some(t)
  {
    var f := "{" + t;
    var e := ")" + (" " + f);
    var d := "(" + e;
    var c := "function" + d;
    var b := " " + c;
    assert ", function() {" == "," + " " + "function" + "(" + ")" + " " + "{";
    assert ", function() {" + t == "," + b;
    LitAppend(",", b);
    SkipSpaceRun(" ", c);
    LitAppend("function", d);
    SkipSpaceNone(d);
    LitAppend("(", e);
    SkipSpaceNone(e);
    LitAppend(")", " " + f);
    SkipSpaceRun(" ", f);
    LitAppend("{", t);
  }

  /** An argument written without blanks before it and without a `)` inside it. */
  predicate PlainArgument(v: string) {
    v != [] && !IsSpace(v[0]) && ')' !in v
  }

  /**
   * A `set` rule re-emits the name in double quotes and copies the value
   * expression, whichever quotes delimited the name.
   */
  lemma SetterCaptured(head: string, target: string, open: char, name: string, close: char, v: string, t: string)
    requires "pm." <= head
    requires open in Quotes && close in Quotes
    requires name != [] && forall i | 0 <= i < |name| :: name[i] !in Quotes
    requires PlainArgument(v)
    ensures SetCall(head, target, head + "(" + Quoted(open, name, close, ", " + v + ")" + t))
         == Some(Hit(target + "(\"" + name + "\", " + v + ")", t))
  {
    var a := "(" + Quoted(open, name, close, ", " + v + ")" + t);
    var s := head + "(" + Quoted(open, name, close, ", " + v + ")" + t);
    assert s == head + a;
    LitAppend(head, a);
    SetArgumentsCaptured(open, name, close, v, t);
    assert Lit(head, s) == Some(a);
  }

  /** The text after the name of a `set` call, regrouped at its comma. */
  lemma SecondArgument(v: string, t: string)
    ensures ", " + v + ")" + t == "," + (" " + v + [')'] + t)
  {
    assert ", " == "," + " ";
  }

  /** The arguments of a `set` call: the name and the value expression after the comma. */
  lemma SetArgumentsCaptured(open: char, name: string, close: char, v: string, t: string)
    requires open in Quotes && close in Quotes
    requires name != [] && forall i | 0 <= i < |name| :: name[i] !in Quotes
    requires PlainArgument(v)
    ensures SetArguments("(" + Quoted(open, name, close, ", " + v + ")" + t)) == Some(Assignment(name, v, t))
  {
    var tail := ", " + v + ")" + t;
    var b := " " + v + [')'] + t;
    assert Argument(b) == Some(Capture(v, t)) by {
      DelimitedRun(')', " ", v, t);
    }
    assert NameArgument("(" + Quoted(open, name, close, tail)) == Some(Capture(name, tail)) by {
      SecondArgument(v, t);
      NameArgumentCaptured(open, name, close, tail);
    }
    assert Lit(",", tail) == Some(b) by {
      SecondArgument(v, t);
      LitAppend(",", b);
    }
    SetArgumentsFrom("(" + Quoted(open, name, close, tail), name, tail, b, v, t);
  }

  /** Proof helper: `SetArguments` is the name argument, a comma and the value argument, in that order. */
  lemma SetArgumentsFrom(s: string, name: string, tail: string, b: string, v: string, t: string)
    requires NameArgument(s) == Some(Capture(name, tail))
    requires Lit(",", tail) == Some(b)
    requires Argument(b) == Some(Capture(v, t))
    ensures SetArguments(s) == Some(Assignment(name, v, t))
  {
  }

  /**
   * Rule 4 keeps the variable name and the value expression:
   * `pm.environment.set('token', res.body.token)` becomes
   * `bru.setEnvVar("token", res.body.token)`.
   */
  lemma EnvironmentSetCopiesValue(open: char, name: string, close: char, v: string, t: string)
    requires open in Quotes && close in Quotes
    requires name != [] && forall i | 0 <= i < |name| :: name[i] !in Quotes
    requires PlainArgument(v)
    ensures Match(EnvironmentSet, "pm.environment.set(" + Quoted(open, name, close, ", " + v + ")" + t))
         == Some(Hit("bru.setEnvVar(\"" + name + "\", " + v + ")", t))
  {
    var s := "pm.environment.set(" + Quoted(open, name, close, ", " + v + ")" + t);
    assert "pm.environment.set(" == "pm.environment.set" + "(";
    assert "bru.setEnvVar(\"" == "bru.setEnvVar" + "(\"";
    SetterCaptured("pm.environment.set", "bru.setEnvVar", open, name, close, v, t);
  }

  /** Two `set` heads with the same Bruno call rewrite the same arguments identically. */
  lemma SettersAgree(head1: string, head2: string, target: string, t: string)
    requires "pm." <= head1 && "pm." <= head2
    ensures SetCall(head1, target, head1 + t) == SetCall(head2, target, head2 + t)
  {
    LitAppend(head1, t);
    LitAppend(head2, t);
  }

  /** Two `get` heads with the same Bruno call rewrite the same argument identically. */
  lemma GettersAgree(head1: string, head2: string, target: string, t: string)
    requires "pm." <= head1 && "pm." <= head2
    ensures MatchGetter(head1, target, head1 + t) == MatchGetter(head2, target, head2 + t)
  {
    LitAppend(head1, t);
    LitAppend(head2, t);
    assert GetCall(head1, head1 + t) == GetCall(head2, head2 + t);
  }

  /**
   * Global and collection variables both become Bruno runtime variables:
   * whatever follows `pm.globals.set` or `pm.collectionVariables.set` is
   * rewritten the same way, and likewise for `get`.
   */
  lemma GlobalsAndCollectionsAgree(t: string)
    ensures Match(GlobalsSet, "pm.globals.set" + t) == Match(CollectionSet, "pm.collectionVariables.set" + t)
    ensures Match(GlobalsGet, "pm.globals.get" + t) == Match(CollectionGet, "pm.collectionVariables.get" + t)
  {
    SettersAgree("pm.globals.set", "pm.collectionVariables.set", "bru.setVar", t);
    GettersAgree("pm.globals.get", "pm.collectionVariables.get", "bru.getVar", t);
  }

  /**
   * Rules 3, 12 and 15 replace the accessor and nothing after it: the JSON
   * body and the text body both become `res.getBody()`, the size `res.getSize()`.
   */
  lemma AccessorsReplaced(t: string)
    ensures Match(ResponseJson, "pm.response.json()" + t) == Some(Hit("res.getBody()", t))
    ensures Match(ResponseText, "pm.response.text()" + t) == Some(Hit("res.getBody()", t))
    ensures Match(ResponseSize, "pm.response.responseSize" + t) == Some(Hit("res.getSize()", t))
  {
    LitAppend("pm.response.json()", t);
    LitAppend("pm.response.text()", t);
    LitAppend("pm.response.responseSize", t);
  }

  /** `pm.expect(a).to.<verb>(b)` with plain operands yields both operands. */
  lemma ExpectCaptured(verb: string, a: string, b: string, t: string)
    requires PlainArgument(a) && PlainArgument(b)
    ensures MatchExpect(verb, "pm.expect" + "(" + a + ")" + ".to." + verb + "(" + b + ")" + t)
         == Some(Hit("expect(" + a + ").to.equal(" + b + ")", t))
  {
    var c := "(" + b + [')'] + t;
    var x := "(" + a + [')'] + (".to." + verb + c);
    var s := "pm.expect" + "(" + a + ")" + ".to." + verb + "(" + b + ")" + t;
    assert c == "(" + (b + [')'] + t);
    assert "" + b + [')'] + t == b + [')'] + t;
    assert "" + a + [')'] + (".to." + verb + c) == a + [')'] + (".to." + verb + c);
    assert x == "(" + (a + [')'] + (".to." + verb + c));
    assert s == "pm.expect" + x;
    LitAppend("pm.expect", x);
    SkipSpaceNone(x);
    LitAppend("(", a + [')'] + (".to." + verb + c));
    DelimitedRun(')', "", a, ".to." + verb + c);
    assert ExpectSubject(s) == Some(Capture(a, ".to." + verb + c));
    LitAppend(".to." + verb, c);
    SkipSpaceNone(c);
    LitAppend("(", b + [')'] + t);
    DelimitedRun(')', "", b, t);
    assert Comparison(verb, ".to." + verb + c) == Some(Capture(b, t));
  }

  /**
   * Rules 13 and 14 give the same assertion: `pm.expect(a).to.eql(b)` and
   * `pm.expect(a).to.equal(b)` both become `expect(a).to.equal(b)`.
   */
  lemma ExpectOperandsCopied(a: string, b: string, t: string)
    requires PlainArgument(a) && PlainArgument(b)
    ensures Match(ExpectEql, "pm.expect(" + a + ").to.eql(" + b + ")" + t)
         == Some(Hit("expect(" + a + ").to.equal(" + b + ")", t))
    ensures Match(ExpectEqual, "pm.expect(" + a + ").to.equal(" + b + ")" + t)
         == Some(Hit("expect(" + a + ").to.equal(" + b + ")", t))
  {
    var s1 := "pm.expect(" + a + ").to.eql(" + b + ")" + t;
    var s2 := "pm.expect(" + a + ").to.equal(" + b + ")" + t;
    assert s1 == "pm.expect" + "(" + a + ")" + ".to." + "eql" + "(" + b + ")" + t by {
      assert "pm.expect(" == "pm.expect" + "(";
      assert ").to.eql(" == ")" + ".to." + "eql" + "(";
    }
    assert s2 == "pm.expect" + "(" + a + ")" + ".to." + "equal" + "(" + b + ")" + t by {
      assert "pm.expect(" == "pm.expect" + "(";
      assert ").to.equal(" == ")" + ".to." + "equal" + "(";
    }
    ExpectCaptured("eql", a, b, t);
    ExpectCaptured("equal", a, b, t);
  }

  /**
   * The subject of an assertion ends at its first `)`, so an assertion whose
   * subject is itself a call, `pm.expect(f(x)).to.eql(b)`, is left as it is.
   */
  lemma NestedCallNotRewritten(verb: string, f: string, x: string, t: string)
    requires PlainArgument(f) && ')' !in x
    ensures MatchExpect(verb, "pm.expect(" + f + "(" + x + "))" + t).None?
  {
    NestedSubject(f, x, t);
    assert !(".to." + verb <= ")" + t) by {
      assert (".to." + verb)[0] == '.';
    }
  }

  /** The subject of `pm.expect(f(x))` stops at the inner call's `)`. */
  lemma NestedSubject(f: string, x: string, t: string)
    requires PlainArgument(f) && ')' !in x
    ensures ExpectSubject("pm.expect(" + f + "(" + x + "))" + t) == Some(Capture(f + "(" + x, ")" + t))
  {
    var v := f + "(" + x;
    assert "pm.expect(" + f + "(" + x + "))" + t == "pm.expect" + ("(" + (v + [')'] + (")" + t))) by {
      assert "pm.expect(" == "pm.expect" + "(";
      assert "))" == [')'] + ")";
    }
    assert ')' !in v;
    SubjectCaptured(v, ")" + t);
  }

  /** `pm.expect(v)`, written without blanks, has the subject `v` when `v` has no `)`. */
  lemma SubjectCaptured(v: string, rest: string)
    requires v != [] && !IsSpace(v[0]) && ')' !in v
    ensures ExpectSubject("pm.expect" + ("(" + (v + [')'] + rest))) == Some(Capture(v, rest))
  {
    var u := v + [')'] + rest;
    LitAppend("pm.expect", "(" + u);
    SkipSpaceNone("(" + u);
    LitAppend("(", u);
    assert "" + v + [')'] + rest == u;
    DelimitedRun(')', "", v, rest);
  }

  // ---------------------------------------------------------------------
  // A whole translation
  // ---------------------------------------------------------------------

  /** A text with no `p` in it has no `pm.` in it. */
  lemma NoPmWithoutP(a: string)
    requires 'p' !in a
    ensures NoPm(a)
  {
    forall i | 0 <= i < |a| ensures !("pm." <= a[i..]) {
      assert a[i..][0] == a[i];
    }
  }

  /**
   * Two texts without `pm.` still have none when put together, unless the
   * first ends in `p` or `m` and the second starts with `m` or `.`.
   */
  lemma NoPmJoin(a: string, b: string)
    requires NoPm(a) && NoPm(b)
    requires a == [] || b == [] || a[|a| - 1] !in {'p', 'm'} || b[0] !in {'m', '.'}
    ensures NoPm(a + b)
  {
    var ab := a + b;
    forall i | 0 <= i < |ab| ensures !("pm." <= ab[i..]) {
      if i >= |a| {
        assert ab[i..] == b[i - |a|..];
      } else if i + 3 <= |a| {
        assert ab[i..][..3] == a[i..][..3];
      } else {
        assert ab[|a| - 1] == a[|a| - 1];
        if b != [] {
          assert ab[|a|] == b[0];
        }
      }
    }
  }

  /** A rule that does not match at the start of a text, which has no other `pm.` in it, leaves it as it is. */
  lemma ApplyOnlyAtStart(c: Conversion, s: string)
    requires s != [] && Match(c, s).None? && NoPm(s[1..])
    ensures Apply(c, s) == s
  {
    forall i | 0 <= i < |s| ensures RuleMatcher(c)(s[i..]).None? {
      if 0 < i {
        assert s[i..] == s[1..][i - 1..];
      }
    }
    UnmatchedTextUnchanged(RuleMatcher(c), s);
  }

  /** A rule that rewrites the start of a text, after which there is no `pm.`, rewrites only that. */
  lemma ApplyAtStartOnly(c: Conversion, s: string, out: string, t: string)
    requires Match(c, s) == Some(Hit(out, t)) && NoPm(t)
    ensures Apply(c, s) == out + t
  {
    RewritesLeftmostMatch(RuleMatcher(c), [], s);
    assert [] + s == s;
    ApplyLeavesPlainText(c, t);
  }

  /** A list of rules none of which changes the text leaves it as it is. */
  lemma {:induction false} ApplyRulesKeep(rules: seq<Conversion>, s: string)
    requires forall i | 0 <= i < |rules| :: Apply(rules[i], s) == s
    ensures ApplyRules(rules, s) == s
    decreases |rules|
  {
    if rules != [] {
      var n := |rules| - 1;
      ApplyRulesKeep(rules[..n], s);
    }
  }

  /** A `pm.environment.set` call with a double-quoted name, followed by `t`. */
  function EnvironmentSetCall(name: string, v: string, t: string): string {
    "pm.environment.set(\"" + name + "\", " + v + ")" + t
  }

  /** A `bru.setEnvVar` call with the same name and value, followed by `t`. */
  function SetEnvVarCall(name: string, v: string, t: string): string {
    "bru.setEnvVar(\"" + name + "\", " + v + ")" + t
  }

  /** Literal pieces without `p` around texts without `pm.` make a text without `pm.`. */
  lemma NoPmAround(open: string, x: string, mid: string, y: string, close: string, t: string)
    requires open != [] && 'p' !in open && 'p' !in mid && 'p' !in close
    requires mid != [] && mid[0] !in {'m', '.'} && mid[|mid| - 1] !in {'p', 'm'}
    requires close != [] && close[0] !in {'m', '.'} && close[|close| - 1] !in {'p', 'm'}
    requires open[|open| - 1] !in {'p', 'm'}
    requires NoPm(x) && NoPm(y) && NoPm(t)
    ensures NoPm(open + x + mid + y + close + t)
  {
    NoPmWithoutP(open);
    NoPmWithoutP(mid);
    NoPmWithoutP(close);
    NoPmJoin(open, x);
    var a := open + x;
    assert a[|a| - 1] !in {'p', 'm'} || mid[0] !in {'m', '.'};
    NoPmJoin(a, mid);
    NoPmJoin(a + mid, y);
    NoPmJoin(a + mid + y, close);
    var b := a + mid + y + close;
    assert b[|b| - 1] == close[|close| - 1];
    NoPmJoin(b, t);
  }

  /** The pieces of the call without `pm.`. */
  lemma EnvironmentSetTail(name: string, v: string, t: string)
    requires NoPm(name) && NoPm(v) && NoPm(t)
    ensures NoPm(EnvironmentSetCall(name, v, t)[1..])
    ensures NoPm(SetEnvVarCall(name, v, t))
  {
    var open1, open2, mid, close := "m.environment.set(\"", "bru.setEnvVar(\"", "\", ", ")";
    NoPmAround(open1, name, mid, v, close, t);
    NoPmAround(open2, name, mid, v, close, t);
    EnvironmentSetCallSplit(name, v, t);
    assert ("p" + (open1 + name + mid + v + close + t))[1..] == open1 + name + mid + v + close + t;
  }

  /** The call is its `p` followed by the rest. */
  lemma EnvironmentSetCallSplit(name: string, v: string, t: string)
    ensures EnvironmentSetCall(name, v, t) == "p" + ("m.environment.set(\"" + name + "\", " + v + ")" + t)
  {
    assert "pm.environment.set(\"" == "p" + "m.environment.set(\"";
  }

  /** The first three rules find nothing to rewrite in the call. */
  lemma EnvironmentSetSkipsEarlierRules(name: string, v: string, t: string)
    requires NoPm(name) && NoPm(v) && NoPm(t)
    ensures forall i | 0 <= i < 3 :: Apply(Conversions[i], EnvironmentSetCall(name, v, t)) == EnvironmentSetCall(name, v, t)
  {
    var s := EnvironmentSetCall(name, v, t);
    EnvironmentSetTail(name, v, t);
    assert s[3] == 'e';
    EarlierRulesMiss(s);
    ApplyOnlyAtStart(TestBlock, s);
    ApplyOnlyAtStart(ResponseStatus, s);
    ApplyOnlyAtStart(ResponseJson, s);
    TableStart();
  }

  /** The first three rules need `t` or `r` after `pm.`, so they do not match a text with `e` there. */
  lemma EarlierRulesMiss(s: string)
    requires |s| > 3 && s[3] == 'e'
    ensures Match(TestBlock, s).None? && Match(ResponseStatus, s).None? && Match(ResponseJson, s).None?
  {
    assert !("pm.test" <= s) by { assert "pm.test"[3] == 't'; }
    assert !("pm.response.to.have.status(" <= s) by { assert "pm.response.to.have.status("[3] == 'r'; }
    assert !("pm.response.json()" <= s) by { assert "pm.response.json()"[3] == 'r'; }
  }

  /** Proof helper: the first four entries of the table. */
  lemma TableStart()
    ensures Conversions[..4] == [TestBlock, ResponseStatus, ResponseJson, EnvironmentSet]
  {
  }

  /**
   * A whole translation: `pm.environment.set("token", res.body.token);`
   * becomes `bru.setEnvVar("token", res.body.token);`, for any name, value
   * expression and following text that do not themselves use `pm.`.
   */
  lemma EnvironmentSetTranslated(name: string, v: string, t: string)
    requires name != [] && forall i | 0 <= i < |name| :: name[i] !in Quotes
    requires PlainArgument(v)
    requires NoPm(name) && NoPm(v) && NoPm(t)
    ensures Translate(EnvironmentSetCall(name, v, t)) == SetEnvVarCall(name, v, t)
  {
    var s := EnvironmentSetCall(name, v, t);
    assert !Blank(s) by { assert s[0] == 'p'; }
    assert Conversions == Conversions[..4] + Conversions[4..];
    EnvironmentSetFirstFour(name, v, t);
    ApplyRulesSequential(Conversions[..4], Conversions[4..], s);
    EnvironmentSetTail(name, v, t);
  }

  /** Proof helper: the call in the form the `set` rule's lemma reads it. */
  lemma EnvironmentSetCallQuoted(name: string, v: string, t: string)
    ensures EnvironmentSetCall(name, v, t) == "pm.environment.set(" + Quoted('"', name, '"', ", " + v + ")" + t)
    ensures SetEnvVarCall(name, v, t) == "bru.setEnvVar(\"" + name + "\", " + v + ")" + t
  {
  }

  /** Rule 4 rewrites the call, and the three rules before it leave it alone. */
  lemma EnvironmentSetFirstFour(name: string, v: string, t: string)
    requires name != [] && forall i | 0 <= i < |name| :: name[i] !in Quotes
    requires PlainArgument(v)
    requires NoPm(name) && NoPm(v) && NoPm(t)
    ensures ApplyRules(Conversions[..4], EnvironmentSetCall(name, v, t)) == SetEnvVarCall(name, v, t)
  {
    var s := EnvironmentSetCall(name, v, t);
    var first := Conversions[..4];
    assert first[..3] == Conversions[..3];
    assert first[3] == EnvironmentSet;
    EnvironmentSetSkipsEarlierRules(name, v, t);
    ApplyRulesKeep(Conversions[..3], s);
    assert ApplyRules(first, s) == Apply(EnvironmentSet, s);
    EnvironmentSetCallQuoted(name, v, t);
    EnvironmentSetCopiesValue('"', name, '"', v, t);
    ApplyAtStartOnly(EnvironmentSet, s, "bru.setEnvVar(\"" + name + "\", " + v + ")", t);
  }

  /** A `p` that is not followed by `m`, then text without `p`, has no `pm.` in it. */
  lemma NoPmAfterP(b: string)
    requires 'p' !in b && (b == [] || b[0] != 'm')
    ensures NoPm("p" + b)
  {
    NoPmWithoutP(b);
    var pb := "p" + b;
    forall i | 0 <= i < |pb| ensures !("pm." <= pb[i..]) {
      if i == 0 {
        if |pb| >= 3 {
          assert pb[1] == b[0];
        }
      } else {
        assert pb[i..] == b[i - 1..];
      }
    }
  }

  /** A rule applied to text without `pm.` followed by text that starts with `p` changes only the second part. */
  lemma ApplyAfterPlain(c: Conversion, x: string, y: string)
    requires NoPm(x) && y != [] && y[0] == 'p'
    ensures Apply(c, x + y) == x + Apply(c, y)
  {
    var xy := x + y;
    forall i | 0 <= i < |x| ensures RuleMatcher(c)(xy[i..]).None? {
      if i + 3 <= |x| {
        assert xy[i..][..3] == x[i..][..3];
        assert !("pm." <= x[i..]);
      } else {
        assert xy[i..][|x| - i] == y[0];
      }
    }
    CopiesUnmatchedPrefix(RuleMatcher(c), x, y);
  }

  /** The status call after its `p` holds no `pm.`. */
  lemma StatusCallTail(code: string, t: string)
    requires forall i | 0 <= i < |code| :: IsDigit(code[i])
    requires NoPm(t)
    ensures NoPm(("pm.response.to.have.status(" + code + ")" + t)[1..])
  {
    var b := "onse.to.have.status(" + code + ")";
    assert 'p' !in "onse.to.have.status(";
    DigitsWithoutP("onse.to.have.status(", code);
    NoPmAfterP(b);
    NoPmJoin("p" + b, t);
    NoPmWithoutP("m.res");
    NoPmJoin("m.res", "p" + b + t);
    assert "pm.response.to.have.status(" == "p" + "m.res" + "p" + "onse.to.have.status(";
    AfterFirst("m.res", "onse.to.have.status(", code, t);
  }

  /** Proof helper: a text of the form `p a p b code ) t` after its first character. */
  lemma AfterFirst(a: string, b: string, code: string, t: string)
    ensures ("p" + a + "p" + b + code + ")" + t)[1..] == a + ("p" + (b + code + ")") + t)
  {
  }

  /** Proof helper: a text of the form `a p b code ) t` regrouped around its `p`. */
  lemma AroundP(a: string, b: string, code: string, t: string)
    ensures a + "p" + b + code + ")" + t == a + ("p" + (b + code + ")") + t)
  {
  }

  /** Proof helper: the status assertion's literal, cut at its one `p`. */
  lemma StatusAssertionLiteral()
    ensures 'p' !in "ect(res.getStatus()).to.equal("
    ensures "expect(res.getStatus()).to.equal(" == "ex" + "p" + "ect(res.getStatus()).to.equal("
  {
  }

  /** Digits followed by a closing parenthesis hold no `p`. */
  lemma DigitsWithoutP(lit: string, code: string)
    requires 'p' !in lit && forall i | 0 <= i < |code| :: IsDigit(code[i])
    ensures 'p' !in lit + code + ")"
  {
    assert forall i | 0 <= i < |code| :: code[i] != 'p';
  }

  /** The status assertion the translation writes, followed by text without `pm.`, holds no `pm.`. */
  lemma StatusAssertionPlain(code: string, t: string)
    requires forall i | 0 <= i < |code| :: IsDigit(code[i])
    requires NoPm(t)
    ensures NoPm("expect(res.getStatus()).to.equal(" + code + ")" + t)
  {
    var lit := "ect(res.getStatus()).to.equal(";
    var b := lit + code + ")";
    StatusAssertionLiteral();
    DigitsWithoutP(lit, code);
    NoPmAfterP(b);
    NoPmJoin("p" + b, t);
    NoPmWithoutP("ex");
    NoPmJoin("ex", "p" + b + t);
    AroundP("ex", lit, code, t);
  }

  /** The test opening the translation writes, followed by text without `pm.`, holds no `pm.`. */
  lemma TestOpeningPlain(name: string, u: string)
    requires NoPm(name) && NoPm(u)
    ensures NoPm("test(\"" + name + "\", function() {" + u)
  {
    var open, mid := "test(\"", "\", function() {";
    NoPmWithoutP(open);
    NoPmWithoutP(mid);
    NoPmJoin(open, name);
    NoPmJoin(open + name, mid);
    var a := open + name + mid;
    assert a[|a| - 1] == '{';
    NoPmJoin(a, u);
  }

  /** Proof helper: two rules applied in turn. */
  lemma TwoRules(first: Conversion, second: Conversion, s: string)
    ensures ApplyRules([first, second], s) == Apply(second, Apply(first, s))
  {
    assert [first, second][..1] == [first];
    assert [first][..0] == [];
    assert ApplyRules([first], s) == Apply(first, ApplyRules([], s));
  }

  /** The table is rule 1, then rule 2, then the thirteen others. */
  lemma FirstTwoRules(s: string)
    ensures ApplyRules(Conversions, s) == ApplyRules(Conversions[2..], Apply(ResponseStatus, Apply(TestBlock, s)))
  {
    TwoRules(TestBlock, ResponseStatus, s);
    assert Conversions == [TestBlock, ResponseStatus] + Conversions[2..];
    ApplyRulesSequential([TestBlock, ResponseStatus], Conversions[2..], s);
  }

  /** Proof helper: the script of a test block holding a status assertion, in the pieces the rules read. */
  lemma StatusTestPieces(name: string, u: string, code: string, t: string)
    ensures "pm.test(\"" + name + "\", function() {" + u + "pm.response.to.have.status(" + code + ")" + t
         == "pm.test(" + Quoted('"', name, '"', ", function() {" + (u + ("pm.response.to.have.status(" + code + ")" + t)))
    ensures "test(\"" + name + "\", function() {" + u + "expect(res.getStatus()).to.equal(" + code + ")" + t
         == ("test(\"" + name + "\", function() {" + u) + ("expect(res.getStatus()).to.equal(" + code + ")" + t)
  {
  }

  /** Rule 1 rewrites the test opening and nothing in the block after it. */
  lemma TestBlockStep(name: string, u: string, p: string)
    requires name != [] && forall i | 0 <= i < |name| :: name[i] !in Quotes
    requires NoPm(u) && p != [] && p[0] == 'p' && NoPm(p[1..]) && Match(TestBlock, p).None?
    ensures Apply(TestBlock, "pm.test(" + Quoted('"', name, '"', ", function() {" + (u + p)))
         == "test(\"" + name + "\", function() {" + u + p
  {
    var s := "pm.test(" + Quoted('"', name, '"', ", function() {" + (u + p));
    var opening := "test(\"" + name + "\", function() {";
    TestTitleRequoted('"', name, '"', u + p);
    RewritesLeftmostMatch(RuleMatcher(TestBlock), [], s);
    assert [] + s == s;
    ApplyAfterPlain(TestBlock, u, p);
    ApplyOnlyAtStart(TestBlock, p);
    assert [] + opening + (u + p) == opening + u + p;
  }

  /** Rule 2 rewrites the status assertion after the rewritten opening. */
  lemma StatusStep(x: string, code: string, t: string)
    requires NoPm(x) && NoPm(t)
    requires code != [] && forall i | 0 <= i < |code| :: IsDigit(code[i])
    ensures Apply(ResponseStatus, x + ("pm.response.to.have.status(" + code + ")" + t))
         == x + ("expect(res.getStatus()).to.equal(" + code + ")" + t)
  {
    var p := "pm.response.to.have.status(" + code + ")" + t;
    var out := "expect(res.getStatus()).to.equal(" + code + ")";
    ApplyAfterPlain(ResponseStatus, x, p);
    StatusCodeCopied(code, t);
    ApplyAtStartOnly(ResponseStatus, p, out, t);
  }

  /** Rule 1 needs `pm.t`, which a status call does not start with. */
  lemma StatusCallNotTest(code: string, t: string)
    ensures Match(TestBlock, "pm.response.to.have.status(" + code + ")" + t).None?
  {
    var p := "pm.response.to.have.status(" + code + ")" + t;
    assert !("pm.test" <= p) by { assert p[3] == 'r'; }
  }

  /**
   * A whole translation of the test block the translator is built for:
   * `pm.test("x", function() {` with `pm.response.to.have.status(N)` inside it
   * becomes `test("x", function() {` with `expect(res.getStatus()).to.equal(N)`
   * inside it, for any name, code and surrounding text without `pm.`.
   */
  lemma StatusTestTranslated(name: string, u: string, code: string, t: string)
    requires name != [] && forall i | 0 <= i < |name| :: name[i] !in Quotes
    requires code != [] && forall i | 0 <= i < |code| :: IsDigit(code[i])
    requires NoPm(name) && NoPm(u) && NoPm(t)
    ensures Translate("pm.test(\"" + name + "\", function() {" + u + "pm.response.to.have.status(" + code + ")" + t)
         == "test(\"" + name + "\", function() {" + u + "expect(res.getStatus()).to.equal(" + code + ")" + t
  {
    var p := "pm.response.to.have.status(" + code + ")" + t;
    var s := "pm.test(" + Quoted('"', name, '"', ", function() {" + (u + p));
    var x := "test(\"" + name + "\", function() {" + u;
    var r := x + ("expect(res.getStatus()).to.equal(" + code + ")" + t);
    StatusTestPieces(name, u, code, t);
    assert !Blank(s) by { assert s[0] == 'p'; }
    StatusCallTail(code, t);
    StatusCallNotTest(code, t);
    TestBlockStep(name, u, p);
    TestOpeningPlain(name, u);
    assert x + p == "test(\"" + name + "\", function() {" + u + p;
    StatusStep(x, code, t);
    FirstTwoRules(s);
    StatusAssertionPlain(code, t);
    NoPmJoin(x, "expect(res.getStatus()).to.equal(" + code + ")" + t);
  }

  // ---------------------------------------------------------------------
  // Scripts written with blanks
  // ---------------------------------------------------------------------

  /** `w` is a run of blanks, as a `\s*` in a pattern consumes. */
  predicate Blanks(w: string) {
    forall i | 0 <= i < |w| :: IsSpace(w[i])
  }

  /** A literal and the blank run after it are consumed up to the next text. */
  lemma LitThenBlanks(lit: string, w: string, rest: string)
    requires Blanks(w) && (rest == [] || !IsSpace(rest[0]))
    ensures Lit(lit, lit + (w + rest)) == Some(w + rest)
    ensures SkipSpace(w + rest) == rest
  {
    LitAppend(lit, w + rest);
    SkipSpaceRun(w, rest);
  }

  /** `\s*\(\s*` then a quoted name and `\s*`: every blank run around the parenthesis and after the name is skipped. */
  lemma SpacedNameArgument(w1: string, w2: string, open: char, name: string, close: char, w3: string, rest: string)
    requires Blanks(w1) && Blanks(w2) && Blanks(w3)
    requires open in Quotes && close in Quotes
    requires name != [] && forall i | 0 <= i < |name| :: name[i] !in Quotes
    requires rest == [] || !IsSpace(rest[0])
    ensures NameArgument(w1 + "(" + w2 + Quoted(open, name, close, w3 + rest)) == Some(Capture(name, rest))
  {
    var q := Quoted(open, name, close, w3 + rest);
    var a := "(" + (w2 + q);
    assert w1 + "(" + w2 + q == w1 + a;
    SkipSpaceRun(w1, a);
    LitAppend("(", w2 + q);
    assert q[0] == open;
    SkipSpaceRun(w2, q);
    QuotedNameCaptured(open, name, close, w3 + rest);
    SkipSpaceRun(w3, rest);
  }

  /** `,\s*function\s*\(\s*\)\s*\{` with a blank run at each of its four gaps. */
  function SpacedCallback(w4: string, w5: string, w6: string, w7: string): string {
    "," + w4 + "function" + w5 + "(" + w6 + ")" + w7 + "{"
  }

  /** The callback header is recognised whatever blanks its gaps hold. */
  lemma SpacedCallbackHeader(w4: string, w5: string, w6: string, w7: string, t: string)
    requires Blanks(w4) && Blanks(w5) && Blanks(w6) && Blanks(w7)
    ensures CallbackHeader(SpacedCallback(w4, w5, w6, w7) + t) == Some(t)
  {
    var g1 := "{" + t;
    var g2 := ")" + (w7 + g1);
    var g3 := "(" + (w6 + g2);
    var g4 := "function" + (w5 + g3);
    SpacedCallbackNested(w4, w5, w6, w7, t);
    LitThenBlanks(",", w4, g4);
    LitThenBlanks("function", w5, g3);
    LitThenBlanks("(", w6, g2);
    LitThenBlanks(")", w7, g1);
    LitAppend("{", t);
    CallbackHeaderFrom("," + (w4 + g4), w4 + g4, w5 + g3, w6 + g2, w7 + g1, t);
  }

  /** Proof helper: the spaced callback header grouped from the right. */
  lemma SpacedCallbackNested(w4: string, w5: string, w6: string, w7: string, t: string)
    ensures SpacedCallback(w4, w5, w6, w7) + t
         == "," + (w4 + ("function" + (w5 + ("(" + (w6 + (")" + (w7 + ("{" + t))))))))
  {
    RightNested(",", w4, "function", w5, "(", w6, ")", w7, "{", t);
  }

  /** Proof helper: nine pieces and a tail, grouped from the right. */
  lemma RightNested(x1: string, x2: string, x3: string, x4: string, x5: string, x6: string, x7: string, x8: string, x9: string, t: string)
    ensures x1 + x2 + x3 + x4 + x5 + x6 + x7 + x8 + x9 + t
         == x1 + (x2 + (x3 + (x4 + (x5 + (x6 + (x7 + (x8 + (x9 + t))))))))
  {
  }

  /** Proof helper: `CallbackHeader` read off its steps. */
  lemma CallbackHeaderFrom(s: string, b: string, c: string, d: string, e: string, t: string)
    requires Lit(",", s) == Some(b)
    requires Lit("function", SkipSpace(b)) == Some(c)
    requires Lit("(", SkipSpace(c)) == Some(d)
    requires Lit(")", SkipSpace(d)) == Some(e)
    requires Lit("{", SkipSpace(e)) == Some(t)
    ensures CallbackHeader(s) == Some(t)
  {
  }

  /**
   * Rule 1 with blanks wherever its pattern has `\s*`:
   * `pm.test ( 'x' , function ( ) {` becomes `test("x", function() {`.
   */
  lemma SpacedTestTitleRequoted(w1: string, w2: string, open: char, name: string, close: char,
                                w3: string, w4: string, w5: string, w6: string, w7: string, t: string)
    requires Blanks(w1) && Blanks(w2) && Blanks(w3) && Blanks(w4) && Blanks(w5) && Blanks(w6) && Blanks(w7)
    requires open in Quotes && close in Quotes
    requires name != [] && forall i | 0 <= i < |name| :: name[i] !in Quotes
    ensures Match(TestBlock, "pm.test" + w1 + "(" + w2 + Quoted(open, name, close, w3 + SpacedCallback(w4, w5, w6, w7) + t))
         == Some(Hit("test(\"" + name + "\", function() {", t))
  {
    var cb := SpacedCallback(w4, w5, w6, w7) + t;
    var a := w1 + "(" + w2 + Quoted(open, name, close, w3 + cb);
    assert "pm.test" + w1 + "(" + w2 + Quoted(open, name, close, w3 + SpacedCallback(w4, w5, w6, w7) + t) == "pm.test" + a;
    LitAppend("pm.test", a);
    SpacedNameArgument(w1, w2, open, name, close, w3, cb);
    SpacedCallbackHeader(w4, w5, w6, w7, t);
  }

  /** Proof helper: the text after a `set` call's name grouped at its comma. */
  lemma SetTailNested(w3: string, w4: string, v: string, t: string)
    ensures w3 + "," + w4 + v + ")" + t == w3 + ("," + (w4 + v + [')'] + t))
  {
  }

  /** Proof helper: a call's head followed by the rest of the call. */
  lemma HeadThenCall(head: string, w1: string, w2: string, q: string)
    ensures head + w1 + "(" + w2 + q == head + (w1 + "(" + w2 + q)
  {
  }

  /** Proof helper: `SetCall` read off its steps. */
  lemma SetCallFrom(head: string, target: string, s: string, a: string, name: string, v: string, t: string)
    requires "pm." <= head
    requires Lit(head, s) == Some(a)
    requires SetArguments(a) == Some(Assignment(name, v, t))
    ensures SetCall(head, target, s) == Some(Hit(target + "(\"" + name + "\", " + v + ")", t))
  {
  }

  /** A `set` call with blanks wherever its pattern has `\s*`: `head ( 'n' , v)` becomes `target("n", v)`. */
  lemma SpacedSetterCaptured(head: string, target: string, w1: string, w2: string, open: char, name: string, close: char,
                             w3: string, w4: string, v: string, t: string)
    requires "pm." <= head
    requires Blanks(w1) && Blanks(w2) && Blanks(w3) && Blanks(w4)
    requires open in Quotes && close in Quotes
    requires name != [] && forall i | 0 <= i < |name| :: name[i] !in Quotes
    requires PlainArgument(v)
    ensures SetCall(head, target, head + w1 + "(" + w2 + Quoted(open, name, close, w3 + "," + w4 + v + ")" + t))
         == Some(Hit(target + "(\"" + name + "\", " + v + ")", t))
  {
    var tail := "," + (w4 + v + [')'] + t);
    SetTailNested(w3, w4, v, t);
    var q := Quoted(open, name, close, w3 + tail);
    var a := w1 + "(" + w2 + q;
    HeadThenCall(head, w1, w2, q);
    LitAppend(head, a);
    SpacedSetArguments(w1, w2, open, name, close, w3, w4, v, t);
    SetCallFrom(head, target, head + a, a, name, v, t);
  }

  /** The arguments of a `set` call with blanks at each of the gaps its pattern allows. */
  lemma SpacedSetArguments(w1: string, w2: string, open: char, name: string, close: char, w3: string, w4: string, v: string, t: string)
    requires Blanks(w1) && Blanks(w2) && Blanks(w3) && Blanks(w4)
    requires open in Quotes && close in Quotes
    requires name != [] && forall i | 0 <= i < |name| :: name[i] !in Quotes
    requires PlainArgument(v)
    ensures SetArguments(w1 + "(" + w2 + Quoted(open, name, close, w3 + ("," + (w4 + v + [')'] + t))))
         == Some(Assignment(name, v, t))
  {
    var b := w4 + v + [')'] + t;
    var tail := "," + b;
    var a := w1 + "(" + w2 + Quoted(open, name, close, w3 + tail);
    SpacedNameArgument(w1, w2, open, name, close, w3, tail);
    LitAppend(",", b);
    DelimitedRun(')', w4, v, t);
    SetArgumentsFrom(a, name, tail, b, v, t);
  }

  /** Rules 4, 6 and 8 with blanks wherever their patterns have `\s*`. */
  lemma SpacedSettersCopyValue(w1: string, w2: string, open: char, name: string, close: char,
                               w3: string, w4: string, v: string, t: string)
    requires Blanks(w1) && Blanks(w2) && Blanks(w3) && Blanks(w4)
    requires open in Quotes && close in Quotes
    requires name != [] && forall i | 0 <= i < |name| :: name[i] !in Quotes
    requires PlainArgument(v)
    ensures Match(EnvironmentSet, "pm.environment.set" + w1 + "(" + w2 + Quoted(open, name, close, w3 + "," + w4 + v + ")" + t))
         == Some(Hit("bru.setEnvVar" + "(\"" + name + "\", " + v + ")", t))
    ensures Match(GlobalsSet, "pm.globals.set" + w1 + "(" + w2 + Quoted(open, name, close, w3 + "," + w4 + v + ")" + t))
         == Some(Hit("bru.setVar" + "(\"" + name + "\", " + v + ")", t))
    ensures Match(CollectionSet, "pm.collectionVariables.set" + w1 + "(" + w2 + Quoted(open, name, close, w3 + "," + w4 + v + ")" + t))
         == Some(Hit("bru.setVar" + "(\"" + name + "\", " + v + ")", t))
  {
    SpacedSetterCaptured("pm.environment.set", "bru.setEnvVar", w1, w2, open, name, close, w3, w4, v, t);
    SpacedSetterCaptured("pm.globals.set", "bru.setVar", w1, w2, open, name, close, w3, w4, v, t);
    SpacedSetterCaptured("pm.collectionVariables.set", "bru.setVar", w1, w2, open, name, close, w3, w4, v, t);
  }

  /** Proof helper: `GetCall` read off its steps. */
  lemma GetCallFrom(head: string, s: string, a: string, name: string, tail: string, t: string)
    requires "pm." <= head
    requires Lit(head, s) == Some(a)
    requires NameArgument(a) == Some(Capture(name, tail))
    requires Lit(")", tail) == Some(t)
    ensures GetCall(head, s) == Some(Capture(name, t))
  {
  }

  /** A `get`-style call with blanks wherever its pattern has `\s*` yields the name. */
  lemma SpacedGetCallCaptured(head: string, w1: string, w2: string, open: char, name: string, close: char, w3: string, t: string)
    requires "pm." <= head
    requires Blanks(w1) && Blanks(w2) && Blanks(w3)
    requires open in Quotes && close in Quotes
    requires name != [] && forall i | 0 <= i < |name| :: name[i] !in Quotes
    ensures GetCall(head, head + w1 + "(" + w2 + Quoted(open, name, close, w3 + ")" + t)) == Some(Capture(name, t))
  {
    var q := Quoted(open, name, close, w3 + ")" + t);
    var a := w1 + "(" + w2 + q;
    HeadThenCall(head, w1, w2, q);
    LitAppend(head, a);
    assert w3 + ")" + t == w3 + (")" + t);
    SpacedNameArgument(w1, w2, open, name, close, w3, ")" + t);
    LitAppend(")", t);
    GetCallFrom(head, head + a, a, name, ")" + t, t);
  }

  /** A `get` rule with blanks wherever its pattern has `\s*` re-emits the name in double quotes. */
  lemma SpacedGetterCaptured(head: string, target: string, w1: string, w2: string, open: char, name: string, close: char, w3: string, t: string)
    requires "pm." <= head
    requires Blanks(w1) && Blanks(w2) && Blanks(w3)
    requires open in Quotes && close in Quotes
    requires name != [] && forall i | 0 <= i < |name| :: name[i] !in Quotes
    ensures MatchGetter(head, target, head + w1 + "(" + w2 + Quoted(open, name, close, w3 + ")" + t))
         == Some(Hit(target + "(\"" + name + "\")", t))
  {
    SpacedGetCallCaptured(head, w1, w2, open, name, close, w3, t);
  }

  /** Rules 5, 7, 9 and 11 with blanks wherever their patterns have `\s*`. */
  lemma SpacedGettersRequoted(w1: string, w2: string, open: char, name: string, close: char, w3: string, t: string)
    requires Blanks(w1) && Blanks(w2) && Blanks(w3)
    requires open in Quotes && close in Quotes
    requires name != [] && forall i | 0 <= i < |name| :: name[i] !in Quotes
    ensures Match(EnvironmentGet, "pm.environment.get" + w1 + "(" + w2 + Quoted(open, name, close, w3 + ")" + t))
         == Some(Hit("bru.getEnvVar" + "(\"" + name + "\")", t))
    ensures Match(GlobalsGet, "pm.globals.get" + w1 + "(" + w2 + Quoted(open, name, close, w3 + ")" + t))
         == Some(Hit("bru.getVar" + "(\"" + name + "\")", t))
    ensures Match(CollectionGet, "pm.collectionVariables.get" + w1 + "(" + w2 + Quoted(open, name, close, w3 + ")" + t))
         == Some(Hit("bru.getVar" + "(\"" + name + "\")", t))
    ensures Match(ResponseHeader, "pm.response.to.have.header" + w1 + "(" + w2 + Quoted(open, name, close, w3 + ")" + t))
         == Some(Hit("expect(res.getHeader(\"" + name + "\")).to.exist", t))
  {
    SpacedGetterCaptured("pm.environment.get", "bru.getEnvVar", w1, w2, open, name, close, w3, t);
    SpacedGetterCaptured("pm.globals.get", "bru.getVar", w1, w2, open, name, close, w3, t);
    SpacedGetterCaptured("pm.collectionVariables.get", "bru.getVar", w1, w2, open, name, close, w3, t);
    SpacedGetCallCaptured("pm.response.to.have.header", w1, w2, open, name, close, w3, t);
  }

  /** `(\d+)` takes the whole run of digits, up to the first character that is not one. */
  lemma DigitRunOf(digits: string, u: string)
    requires digits != [] && forall i | 0 <= i < |digits| :: IsDigit(digits[i])
    requires u == [] || !IsDigit(u[0])
    ensures DigitRun(digits + u) == Some(Capture(digits, u))
  {
    SpanRun(Digit, digits, u);
    assert (digits + u)[|digits|..] == u;
  }

  /** Proof helper: `DigitArgument` read off its steps. */
  lemma DigitArgumentFrom(s: string, e: string, bound: string, rest: string, t: string)
    requires Lit("(", SkipSpace(s)) == Some(e)
    requires DigitRun(SkipSpace(e)) == Some(Capture(bound, rest))
    requires Lit(")", SkipSpace(rest)) == Some(t)
    ensures DigitArgument(s) == Some(Capture(bound, t))
  {
  }

  /** Proof helper: a parenthesised bound grouped from the right. */
  lemma DigitArgumentNested(w4: string, w5: string, bound: string, w6: string, t: string)
    ensures w4 + "(" + w5 + bound + w6 + ")" + t == w4 + ("(" + (w5 + (bound + (w6 + (")" + t)))))
  {
  }

  /** `\s*\(\s*(\d+)\s*\)` with blanks at each of its three gaps yields the digits. */
  lemma SpacedDigitArgument(w4: string, w5: string, bound: string, w6: string, t: string)
    requires Blanks(w4) && Blanks(w5) && Blanks(w6)
    requires bound != [] && forall i | 0 <= i < |bound| :: IsDigit(bound[i])
    ensures DigitArgument(w4 + "(" + w5 + bound + w6 + ")" + t) == Some(Capture(bound, t))
  {
    var rest := w6 + (")" + t);
    var x := bound + rest;
    var g := "(" + (w5 + x);
    DigitArgumentNested(w4, w5, bound, w6, t);
    SkipSpaceRun(w4, g);
    assert x[0] == bound[0];
    LitThenBlanks("(", w5, x);
    assert rest == [] || !IsDigit(rest[0]);
    DigitRunOf(bound, rest);
    SkipSpaceRun(w6, ")" + t);
    LitAppend(")", t);
    DigitArgumentFrom(w4 + g, w5 + x, bound, rest, t);
  }

  /** Proof helper: `BelowBound` read off its steps. */
  lemma BelowBoundFrom(s: string, d: string, bound: string, t: string)
    requires Lit(").to.be.below", s) == Some(d)
    requires DigitArgument(d) == Some(Capture(bound, t))
    ensures BelowBound(s) == Some(Capture(bound, t))
  {
  }

  /** Proof helper: `MatchResponseTime` read off its steps. */
  lemma ResponseTimeFrom(s: string, c: string, bound: string, t: string)
    requires TimeSubject(s) == Some(c)
    requires BelowBound(c) == Some(Capture(bound, t))
    ensures Match(ResponseTime, s) == Some(Hit("expect(res.getResponseTime()).to.be.below(" + bound + ")", t))
  {
  }

  /**
   * Rule 10 with blanks wherever its pattern has `\s*`:
   * `pm.expect ( pm.response.responseTime ).to.be.below ( 500 )` gives the bound 500.
   */
  lemma SpacedResponseTimeBound(w1: string, w2: string, w3: string, w4: string, w5: string, bound: string, w6: string, t: string)
    requires Blanks(w1) && Blanks(w2) && Blanks(w3) && Blanks(w4) && Blanks(w5) && Blanks(w6)
    requires bound != [] && forall i | 0 <= i < |bound| :: IsDigit(bound[i])
    ensures Match(ResponseTime, "pm.expect" + w1 + "(" + w2 + "pm.response.responseTime" + w3 + ").to.be.below"
                                + w4 + "(" + w5 + bound + w6 + ")" + t)
         == Some(Hit("expect(res.getResponseTime()).to.be.below(" + bound + ")", t))
  {
    var g := w4 + "(" + w5 + bound + w6 + ")" + t;
    var c := ").to.be.below" + g;
    TimeScriptSplit(w1, w2, w3, w4, w5, bound, w6, t);
    SpacedTimeSubject(w1, w2, w3, c);
    LitAppend(").to.be.below", g);
    SpacedDigitArgument(w4, w5, bound, w6, t);
    BelowBoundFrom(c, g, bound, t);
    ResponseTimeFrom("pm.expect" + w1 + "(" + w2 + "pm.response.responseTime" + w3 + c, c, bound, t);
  }

  /** Proof helper: a response-time assertion cut after its subject. */
  lemma TimeScriptSplit(w1: string, w2: string, w3: string, w4: string, w5: string, bound: string, w6: string, t: string)
    ensures "pm.expect" + w1 + "(" + w2 + "pm.response.responseTime" + w3 + ").to.be.below" + w4 + "(" + w5 + bound + w6 + ")" + t
         == "pm.expect" + w1 + "(" + w2 + "pm.response.responseTime" + w3 + (").to.be.below" + (w4 + "(" + w5 + bound + w6 + ")" + t))
  {
  }

  /** Proof helper: `TimeSubject` read off its steps. */
  lemma TimeSubjectFrom(s: string, a: string, b: string, c: string)
    requires Lit("pm.expect", s) == Some(a)
    requires Lit("(", SkipSpace(a)) == Some(b)
    requires Lit("pm.response.responseTime", SkipSpace(b)) == Some(c)
    ensures TimeSubject(s) == Some(SkipSpace(c))
  {
  }

  /** The response-time subject with blanks at each of its three gaps. */
  lemma SpacedTimeSubject(w1: string, w2: string, w3: string, c: string)
    requires Blanks(w1) && Blanks(w2) && Blanks(w3)
    requires c == [] || !IsSpace(c[0])
    ensures TimeSubject("pm.expect" + w1 + "(" + w2 + "pm.response.responseTime" + w3 + c) == Some(c)
  {
    var b := "pm.response.responseTime" + (w3 + c);
    var g := "(" + (w2 + b);
    assert "pm.expect" + w1 + "(" + w2 + "pm.response.responseTime" + w3 + c == "pm.expect" + (w1 + g);
    LitThenBlanks("pm.expect", w1, g);
    LitThenBlanks("(", w2, b);
    LitThenBlanks("pm.response.responseTime", w3, c);
    TimeSubjectFrom("pm.expect" + (w1 + g), w1 + g, w2 + b, w3 + c);
  }

  /**
   * Rules 13 and 14 with blanks wherever their patterns have `\s*`. A blank
   * run before a closing parenthesis belongs to the operand, which the greedy
   * `[^)]+` takes with it.
   */
  lemma SpacedExpectOperandsCopied(w1: string, w2: string, a: string, w3: string, w4: string, b: string, t: string)
    requires Blanks(w1) && Blanks(w2) && Blanks(w3) && Blanks(w4)
    requires PlainArgument(a) && PlainArgument(b)
    ensures Match(ExpectEql, "pm.expect" + w1 + "(" + w2 + a + ")" + ".to." + "eql" + w3 + "(" + w4 + b + ")" + t)
         == Some(Hit("expect(" + a + ").to.equal(" + b + ")", t))
    ensures Match(ExpectEqual, "pm.expect" + w1 + "(" + w2 + a + ")" + ".to." + "equal" + w3 + "(" + w4 + b + ")" + t)
         == Some(Hit("expect(" + a + ").to.equal(" + b + ")", t))
  {
    SpacedExpectCaptured("eql", w1, w2, a, w3, w4, b, t);
    SpacedExpectCaptured("equal", w1, w2, a, w3, w4, b, t);
  }

  /** Proof helper: `MatchExpect` read off its steps. */
  lemma MatchExpectFrom(verb: string, s: string, a: string, rest: string, b: string, t: string)
    requires ExpectSubject(s) == Some(Capture(a, rest))
    requires Comparison(verb, rest) == Some(Capture(b, t))
    ensures MatchExpect(verb, s) == Some(Hit("expect(" + a + ").to.equal(" + b + ")", t))
  {
  }

  /** Proof helper: `Comparison` read off its steps. */
  lemma ComparisonFrom(verb: string, s: string, c: string, d: string, b: string, t: string)
    requires Lit(".to." + verb, s) == Some(c)
    requires Lit("(", SkipSpace(c)) == Some(d)
    requires Argument(d) == Some(Capture(b, t))
    ensures Comparison(verb, s) == Some(Capture(b, t))
  {
  }

  /** Proof helper: an assertion cut after its subject's closing parenthesis. */
  lemma ExpectScriptSplit(verb: string, w1: string, w2: string, a: string, w3: string, w4: string, b: string, t: string)
    ensures "pm.expect" + w1 + "(" + w2 + a + ")" + ".to." + verb + w3 + "(" + w4 + b + ")" + t
         == "pm.expect" + w1 + "(" + w2 + a + [')'] + (".to." + verb + (w3 + ("(" + (w4 + b + [')'] + t))))
  {
  }

  /** `pm.expect(a).to.<verb>(b)` with blanks at each gap yields both operands. */
  lemma SpacedExpectCaptured(verb: string, w1: string, w2: string, a: string, w3: string, w4: string, b: string, t: string)
    requires Blanks(w1) && Blanks(w2) && Blanks(w3) && Blanks(w4)
    requires PlainArgument(a) && PlainArgument(b)
    ensures MatchExpect(verb, "pm.expect" + w1 + "(" + w2 + a + ")" + ".to." + verb + w3 + "(" + w4 + b + ")" + t)
         == Some(Hit("expect(" + a + ").to.equal(" + b + ")", t))
  {
    var d := w4 + b + [')'] + t;
    var c := w3 + ("(" + d);
    var rest := ".to." + verb + c;
    ExpectScriptSplit(verb, w1, w2, a, w3, w4, b, t);
    SpacedSubject(w1, w2, a, rest);
    LitThenBlanks(".to." + verb, w3, "(" + d);
    LitAppend("(", d);
    DelimitedRun(')', w4, b, t);
    ComparisonFrom(verb, rest, c, d, b, t);
    MatchExpectFrom(verb, "pm.expect" + w1 + "(" + w2 + a + [')'] + rest, a, rest, b, t);
  }

  /** Proof helper: `ExpectSubject` read off its steps. */
  lemma ExpectSubjectFrom(s: string, x: string, u: string, a: string, rest: string)
    requires Lit("pm.expect", s) == Some(x)
    requires Lit("(", SkipSpace(x)) == Some(u)
    requires Argument(u) == Some(Capture(a, rest))
    ensures ExpectSubject(s) == Some(Capture(a, rest))
  {
  }

  /** The subject of `pm.expect (  a)` with blanks at both gaps. */
  lemma SpacedSubject(w1: string, w2: string, a: string, rest: string)
    requires Blanks(w1) && Blanks(w2) && PlainArgument(a)
    ensures ExpectSubject("pm.expect" + w1 + "(" + w2 + a + [')'] + rest) == Some(Capture(a, rest))
  {
    var u := w2 + a + [')'] + rest;
    assert "pm.expect" + w1 + "(" + w2 + a + [')'] + rest == "pm.expect" + (w1 + ("(" + u));
    LitThenBlanks("pm.expect", w1, "(" + u);
    LitAppend("(", u);
    DelimitedRun(')', w2, a, rest);
    ExpectSubjectFrom("pm.expect" + (w1 + ("(" + u)), w1 + ("(" + u), u, a, rest);
  }
}
