/**
 * What the four conversion steps of the migration do to a whole page that
 * holds one construct among plain text: every replace of the step runs over
 * the whole page, in the script's order, and only the rule written for the
 * construct changes anything.
 */
module MigratePages {
  import opened Wrappers
  import opened Text
  import opened Rewrite
  import opened Migrate

  // ---------------------------------------------------------------------
  // Where a matcher cannot match
  // ---------------------------------------------------------------------

  /** The matcher matches at no position from `lo` up to (not including) `hi` of `s`. */
  ghost predicate MissesRange(m: Matcher, s: string, lo: nat, hi: nat)
    requires lo <= hi <= |s|
  {
    forall i | lo <= i < hi :: m(s[i..]).None?
  }

  /**
   * The shapes of the rules' leading literals: a tag opening (never a closing
   * tag), `import`, `![` or `src="/`.
   */
  predicate LeadShape(lead: string) {
    |lead| >= 2 &&
    ((lead[0] == '<' && lead[1] != '/') || lead == "import" || lead == "![" || lead == "src=\"/")
  }

  /** The matcher matches only where `lead`, a literal of one of the shapes, starts. */
  ghost predicate Guarded(m: Matcher, lead: string) {
    LeadShape(lead) && forall u :: m(u).Some? ==> lead <= u
  }

  /** Every rule matches only where its leading literal starts, and that literal has one of the shapes. */
  lemma RuleGuarded(rule: Rule)
    ensures Consumes(RuleMatcher(rule))
    ensures Guarded(RuleMatcher(rule), Lead(rule))
  {
    var m := RuleMatcher(rule);
    forall u ensures m(u).Some? ==> Lead(rule) <= u {
      MatchStartsWithLead(rule, u);
    }
  }

  /** Proof helper: a rule that does not match is a matcher that does not match. */
  lemma RuleRefuses(rule: Rule, u: string)
    requires Match(rule, u).None?
    ensures RuleMatcher(rule)(u).None?
  {
  }

  /** Proof helper: one character where `u` differs from `lead`, or ends first, keeps `lead` from starting `u`. */
  lemma Mismatch(lead: string, u: string, d: nat)
    requires d < |lead|
    requires d >= |u| || lead[d] != u[d]
    ensures !(lead <= u)
  {
  }

  /** After the first character, the literals that open no tag continue only with characters of `Continuations`. */
  lemma ContinuesLead(lead: string, n: nat)
    requires LeadShape(lead) && lead[0] != '<'
    requires 1 <= n < |lead|
    ensures lead[n] in Continuations
  {
  }

  /**
   * Character `j` of `lit` starts no leading literal, whatever follows `lit`:
   * it is no `<`, and an `i`, `!` or `s` is followed inside `lit` by a
   * character that breaks `imp`, `![` or `sr`.
   */
  predicate InertAt(lit: string, j: nat)
    requires j < |lit|
  {
    lit[j] != '<' &&
    (lit[j] == 'i' ==> j + 2 < |lit| && (lit[j + 1] != 'm' || lit[j + 2] != 'p')) &&
    (lit[j] == '!' ==> j + 1 < |lit| && lit[j + 1] != '[') &&
    (lit[j] == 's' ==> j + 1 < |lit| && lit[j + 1] != 'r')
  }

  /** No construct of any rule can start inside `lit`. */
  predicate Inert(lit: string) {
    forall j | 0 <= j < |lit| :: InertAt(lit, j)
  }

  /** Proof helper: a character that starts no literal keeps an inert piece inert. */
  lemma InertCons(c: char, lit: string)
    requires c != '<' && c != 'i' && c != '!' && c != 's'
    requires Inert(lit)
    ensures Inert([c] + lit)
  {
    var u := [c] + lit;
    forall j | 1 <= j < |u| ensures InertAt(u, j) {
      assert InertAt(lit, j - 1);
      assert u[j..] == lit[j - 1..];
    }
  }

  /** Proof helper: a leading literal does not start at an inert character. */
  lemma InertRefusesLead(lead: string, lit: string, j: nat, u: string)
    requires LeadShape(lead)
    requires j < |lit| && InertAt(lit, j)
    requires lit[j..] <= u
    ensures !(lead <= u)
  {
    assert u[0] == lit[j];
    if lead[0] == '<' || u[0] != lead[0] {
      Mismatch(lead, u, 0);
    } else if lead == "import" {
      assert u[1] == lit[j..][1] == lit[j + 1];
      assert u[2] == lit[j..][2] == lit[j + 2];
      if lit[j + 1] != 'm' {
        Mismatch(lead, u, 1);
      } else {
        Mismatch(lead, u, 2);
      }
    } else {
      assert u[1] == lit[j..][1] == lit[j + 1];
      Mismatch(lead, u, 1);
    }
  }

  /** A stretch of the page with no possible start of a construct is matched nowhere. */
  lemma InertRange(m: Matcher, lead: string, s: string, lo: nat, hi: nat)
    requires Guarded(m, lead)
    requires lo <= hi <= |s|
    requires Inert(s[lo..hi])
    ensures MissesRange(m, s, lo, hi)
  {
    var lit := s[lo..hi];
    forall i | lo <= i < hi ensures m(s[i..]).None? {
      assert InertAt(lit, i - lo);
      assert lit[i - lo..] <= s[i..];
      InertRefusesLead(lead, lit, i - lo, s[i..]);
    }
  }

  /** The characters that continue a leading literal that does not open a tag. */
  const Continuations: set<char> := {'m', 'p', 'o', 'r', 't', '[', 'c', '=', '"', '/'}

  /** Proof helper: a leading literal does not start in a plain stretch `v` of `u`, when what follows `v` cannot continue it. */
  lemma PlainRefusesLead(lead: string, v: string, u: string)
    requires LeadShape(lead)
    requires v != [] && PlainAt(v) && v <= u
    requires |u| == |v| || u[|v|] !in Continuations
    ensures !(lead <= u)
  {
    assert u[0] == v[0];
    if lead[0] == '<' {
      Mismatch(lead, u, 0);
    } else {
      assert !(lead <= v);
      if |lead| <= |v| {
        assert lead != v[..|lead|];
        var d :| 0 <= d < |lead| && lead[d] != v[..|lead|][d];
        assert u[d] == v[d];
        Mismatch(lead, u, d);
      } else if v == lead[..|v|] {
        ContinuesLead(lead, |v|);
        Mismatch(lead, u, |v|);
      } else {
        var d :| 0 <= d < |v| && v[d] != lead[..|v|][d];
        assert u[d] == v[d];
        Mismatch(lead, u, d);
      }
    }
  }

  /**
   * A plain stretch of the page is matched nowhere, provided what follows it
   * cannot complete a literal begun at its end.
   */
  lemma PlainRange(m: Matcher, lead: string, s: string, lo: nat, hi: nat)
    requires Guarded(m, lead)
    requires lo <= hi <= |s|
    requires PlainPage(s[lo..hi])
    requires hi == |s| || s[hi] !in Continuations
    ensures MissesRange(m, s, lo, hi)
  {
    forall i | lo <= i < hi ensures m(s[i..]).None? {
      var v := s[i..hi];
      assert v == s[lo..hi][i - lo..];
      assert PlainAt(v);
      assert v <= s[i..];
      assert |s[i..]| == |v| || s[i..][|v|] == s[hi];
      PlainRefusesLead(lead, v, s[i..]);
    }
  }

  /** No leading literal begins with `</`. */
  lemma ClosingTagRefused(m: Matcher, lead: string, u: string)
    requires Guarded(m, lead)
    requires |u| >= 2 && u[0] == '<' && u[1] == '/'
    ensures m(u).None?
  {
    if lead[0] == '<' {
      Mismatch(lead, u, 1);
    } else {
      Mismatch(lead, u, 0);
    }
  }

  /** A rule that matches nowhere in the page leaves it unchanged. */
  lemma MissesEverywhere(rule: Rule, s: string)
    requires MissesRange(RuleMatcher(rule), s, 0, |s|)
    ensures Replace(rule, s) == s
  {
    UnmatchedTextUnchanged(RuleMatcher(rule), s);
  }

  /**
   * The only match in `p + c + q` is `c`, at its start: `c` is replaced and
   * everything around it is copied.
   */
  lemma ReplacesConstruct(m: Matcher, p: string, c: string, q: string, out: string)
    requires Consumes(m)
    requires MissesRange(m, p + (c + q), 0, |p|)
    requires m(c + q) == Some(Hit(out, q))
    requires MissesRange(m, q, 0, |q|)
    ensures ReplaceAll(m, p + c + q) == p + out + q
  {
    RewritesLeftmostMatch(m, p, c + q);
    UnmatchedTextUnchanged(m, q);
    assert p + c + q == p + (c + q);
  }

  // ---------------------------------------------------------------------
  // Chains of rules
  // ---------------------------------------------------------------------

  /** Running two lists of rules one after the other is running their concatenation. */
  lemma {:induction false} ChainAppend(a: seq<Rule>, b: seq<Rule>, s: string)
    ensures Chain(a + b, s) == Chain(b, Chain(a, s))
    decreases |a|
  {
    if a == [] {
      assert a + b == b;
    } else {
      assert (a + b)[1..] == a[1..] + b;
      ChainAppend(a[1..], b, Replace(a[0], s));
    }
  }

  /** Rules that each leave a page unchanged leave it unchanged together. */
  lemma {:induction false} ChainKeeps(rules: seq<Rule>, s: string)
    requires forall j | 0 <= j < |rules| :: Replace(rules[j], s) == s
    ensures Chain(rules, s) == s
    decreases |rules|
  {
    if rules != [] {
      assert Replace(rules[0], s) == s;
      ChainKeeps(rules[1..], s);
    }
  }

  /**
   * Exactly one rule of the list changes the page: the rules before it leave
   * the page as it is, and the rules after it leave that rule's result as it is.
   */
  lemma ChainThrough(rules: seq<Rule>, k: nat, s: string, r: string)
    requires k < |rules|
    requires forall j | 0 <= j < k :: Replace(rules[j], s) == s
    requires Replace(rules[k], s) == r
    requires forall j | k < j < |rules| :: Replace(rules[j], r) == r
    ensures Chain(rules, s) == r
  {
    ChainSplitAt(rules, k, s);
    ChainKeepsBefore(rules, k, s);
    ChainKeepsAfter(rules, k, r);
  }

  /** Proof helper: a chain is the rules before `k`, then rule `k`, then the rules after it. */
  lemma ChainSplitAt(rules: seq<Rule>, k: nat, s: string)
    requires k < |rules|
    ensures Chain(rules, s) == Chain(rules[k + 1..], Replace(rules[k], Chain(rules[..k], s)))
  {
    var before := rules[..k];
    var after := rules[k + 1..];
    assert rules == before + ([rules[k]] + after);
    ChainAppend(before, [rules[k]] + after, s);
    ChainCons(rules[k], after, Chain(before, s));
  }

  /** Proof helper: the first rule of a chain runs first. */
  lemma ChainCons(rule: Rule, rules: seq<Rule>, s: string)
    ensures Chain([rule] + rules, s) == Chain(rules, Replace(rule, s))
  {
    assert ([rule] + rules)[1..] == rules;
  }

  /** Proof helper: the rules before `k` leave the page unchanged. */
  lemma ChainKeepsBefore(rules: seq<Rule>, k: nat, s: string)
    requires k <= |rules|
    requires forall j | 0 <= j < k :: Replace(rules[j], s) == s
    ensures Chain(rules[..k], s) == s
  {
    ChainKeeps(rules[..k], s);
  }

  /** Proof helper: the rules after `k` leave the page unchanged. */
  lemma ChainKeepsAfter(rules: seq<Rule>, k: nat, s: string)
    requires k < |rules|
    requires forall j | k < j < |rules| :: Replace(rules[j], s) == s
    ensures Chain(rules[k + 1..], s) == s
  {
    ChainKeeps(rules[k + 1..], s);
  }

  // ---------------------------------------------------------------------
  // Pages built piece by piece
  // ---------------------------------------------------------------------

  /** Proof helper: misses in `a` (seen in `a + t`) and misses in `t` are misses in `a + t`. */
  lemma Glue(m: Matcher, a: string, t: string)
    requires MissesRange(m, a + t, 0, |a|)
    requires MissesRange(m, t, 0, |t|)
    ensures MissesRange(m, a + t, 0, |a + t|)
  {
    forall i | |a| <= i < |a + t| ensures m((a + t)[i..]).None? {
      assert (a + t)[i..] == t[i - |a|..];
    }
  }

  /** A plain piece in front of a stretch matched nowhere, when the stretch cannot continue a literal. */
  lemma PlainThen(m: Matcher, lead: string, a: string, t: string)
    requires Guarded(m, lead)
    requires PlainPage(a)
    requires t == [] || t[0] !in Continuations
    requires MissesRange(m, t, 0, |t|)
    ensures MissesRange(m, a + t, 0, |a + t|)
  {
    assert (a + t)[0..|a|] == a;
    assert |a + t| == |a| || (a + t)[|a|] == t[0];
    PlainRange(m, lead, a + t, 0, |a|);
    Glue(m, a, t);
  }

  /** An inert piece in front of a stretch matched nowhere. */
  lemma InertThen(m: Matcher, lead: string, a: string, t: string)
    requires Guarded(m, lead)
    requires Inert(a)
    requires MissesRange(m, t, 0, |t|)
    ensures MissesRange(m, a + t, 0, |a + t|)
  {
    assert (a + t)[0..|a|] == a;
    InertRange(m, lead, a + t, 0, |a|);
    Glue(m, a, t);
  }

  /** A first character where the matcher does not match, in front of a stretch matched nowhere. */
  lemma RefusedThen(m: Matcher, u: string)
    requires u != [] && m(u).None?
    requires MissesRange(m, u[1..], 0, |u| - 1)
    ensures MissesRange(m, u, 0, |u|)
  {
    assert u[0..] == u;
    assert u == u[..1] + u[1..];
    Glue(m, u[..1], u[1..]);
  }

  /** A closing tag `</` + `name` + `>` whose name is inert, in front of a stretch matched nowhere. */
  lemma CloseThen(m: Matcher, lead: string, name: string, t: string)
    requires Guarded(m, lead)
    requires Inert(name + ">")
    requires MissesRange(m, t, 0, |t|)
    ensures MissesRange(m, "</" + name + ">" + t, 0, |"</" + name + ">" + t|)
  {
    var u := "</" + name + ">" + t;
    assert u[1..] == "/" + name + ">" + t;
    InertCons('/', name + ">");
    assert "/" + name + ">" == ['/'] + (name + ">");
    InertThen(m, lead, "/" + name + ">", t);
    ClosingTagRefused(m, lead, u);
    RefusedThen(m, u);
  }

  /** A plain piece holds no `<`, so it holds no tag. */
  lemma PlainHasNoTag(pat: string, x: string)
    requires pat != [] && pat[0] == '<'
    requires PlainPage(x)
    ensures Absent(pat, x)
  {
    forall i | 0 <= i <= |x| ensures !OccursAt(pat, x, i) {
      if i < |x| {
        assert PlainAt(x[i..]);
      }
      Mismatch(pat, x[i..], 0);
    }
  }

  // ---------------------------------------------------------------------
  // Callouts
  // ---------------------------------------------------------------------

  /** Where the rule of each kind of callout sits in the step's list. */
  function CalloutSlot(kind: CalloutKind): (k: nat)
    ensures 1 <= k < |CalloutRules| && CalloutRules[k] == Callout(kind)
  {
    match kind
    case InfoCallout => 1
    case WarningCallout => 2
    case ErrorCallout => 3
    case TipCallout => 4
    case ImportantCallout => 5
    case PlainCallout => 6
  }

  /** The callout step's list: the import rule, then one rule per kind, each at its kind's slot. */
  lemma CalloutRulesLayout()
    ensures CalloutRules[0] == RemoveImport(CalloutImport)
    ensures forall j | 1 <= j < |CalloutRules| :: CalloutRules[j].Callout? && CalloutSlot(CalloutRules[j].callout) == j
  {
  }

  /** Proof helper: the closing tag's name starts no construct. */
  lemma CalloutNameInert()
    ensures Inert("Callout>")
  {
  }

  /** Proof helper: the inside of an opening tag starts no construct, save the `imp` of `important`. */
  lemma OpenTagInert(kind: CalloutKind)
    requires kind != ImportantCallout
    ensures Inert(OpenTag(kind)[1..])
  {
    if kind == PlainCallout {
      assert OpenTag(kind)[1..] == "Callout>";
      CalloutNameInert();
    } else {
      TypeInert(kind);
      ImportantTagPiecesInert();
      InertAppend("Callout type=\"", CalloutType(kind) + "\">");
      TypedTagInside(kind);
    }
  }

  /** Proof helper: a type other than `important`, closed by `">`, starts no construct. */
  lemma TypeInert(kind: CalloutKind)
    requires kind != ImportantCallout && kind != PlainCallout
    ensures Inert(CalloutType(kind) + "\">")
  {
    match kind
    case InfoCallout => assert CalloutType(kind) + "\">" == "info\">";
    case WarningCallout => assert CalloutType(kind) + "\">" == "warning\">";
    case ErrorCallout => assert CalloutType(kind) + "\">" == "error\">";
    case TipCallout => assert CalloutType(kind) + "\">" == "tip\">";
  }

  /** Proof helper: the inside of a typed opening tag, after its `<`. */
  lemma TypedTagInside(kind: CalloutKind)
    requires kind != PlainCallout
    ensures OpenTag(kind)[1..] == "Callout type=\"" + (CalloutType(kind) + "\">")
  {
  }

  /** Proof helper: the pieces of `<Callout type="important">` around the `i` of `important` start no construct. */
  lemma ImportantTagPiecesInert()
    ensures Inert("Callout type=\"")
    ensures Inert("mportant\">")
  {
  }

  /** `important` starts with `import` but is followed by no blank, so no rule matches there. */
  lemma ImportantRefused(rule: Rule, t: string)
    ensures Match(rule, "important\">" + t).None?
  {
    var u := "important\">" + t;
    if rule.RemoveImport? {
      ImportantNotImport(rule.kind, t);
    } else {
      LeadCases(rule);
      Mismatch(Lead(rule), u, 0);
      MatchStartsWithLead(rule, u);
    }
  }

  /** Every rule's leading literal has one of the shapes. */
  lemma LeadCases(rule: Rule)
    ensures LeadShape(Lead(rule))
  {
  }

  /** Proof helper: the import statement half of `ImportantRefused`. */
  lemma ImportantNotImport(kind: ImportKind, t: string)
    ensures MatchImport(kind, "important\">" + t).None?
  {
    assert "important\">" + t == "import" + ("ant\">" + t);
    LitAppend("import", "ant\">" + t);
  }

  /** An opening tag at whose first position the matcher does not match is matched nowhere. */
  lemma OpenTagThen(m: Matcher, lead: string, kind: CalloutKind, t: string)
    requires Guarded(m, lead)
    requires m(OpenTag(kind) + t).None?
    requires kind == ImportantCallout ==> m("important\">" + t).None?
    requires MissesRange(m, t, 0, |t|)
    ensures MissesRange(m, OpenTag(kind) + t, 0, |OpenTag(kind) + t|)
  {
    var u := OpenTag(kind) + t;
    if kind == ImportantCallout {
      ImportantTagInside(m, lead, t);
    } else {
      OpenTagInert(kind);
      InertThen(m, lead, OpenTag(kind)[1..], t);
    }
    assert u[1..] == OpenTag(kind)[1..] + t;
    RefusedThen(m, u);
  }

  /** Proof helper: the inside of `<Callout type="important">`, cut at the `i` of `important`. */
  lemma ImportantTagSplit()
    ensures OpenTag(ImportantCallout)[1..] == "Callout type=\"" + ("i" + "mportant\">")
  {
  }

  /** Proof helper: no position inside `<Callout type="important">` is matched. */
  lemma ImportantTagInside(m: Matcher, lead: string, t: string)
    requires Guarded(m, lead)
    requires m("important\">" + t).None?
    requires MissesRange(m, t, 0, |t|)
    ensures MissesRange(m, OpenTag(ImportantCallout)[1..] + t, 0, |OpenTag(ImportantCallout)[1..] + t|)
  {
    var head := "Callout type=\"";
    var tail := "mportant\">";
    var v := "i" + tail + t;
    ImportantTagPiecesInert();
    InertThen(m, lead, tail, t);
    assert "important\">" + t == v;
    assert v[1..] == tail + t;
    RefusedThen(m, v);
    InertThen(m, lead, head, v);
    ImportantTagSplit();
    Assoc4(head, "i", tail, t);
  }

  /** The rules of the callout step other than the one for `kind` refuse its opening tag. */
  lemma OpenTagRefused(rule: Rule, kind: CalloutKind, t: string)
    requires rule == RemoveImport(CalloutImport) || (rule.Callout? && rule.callout != kind)
    ensures Match(rule, OpenTag(kind) + t).None?
  {
    var u := OpenTag(kind) + t;
    if rule.Callout? {
      OtherKindRefused(rule.callout, kind, t);
      assert Match(rule, u) == MatchCallout(rule.callout, u);
    } else {
      Mismatch("import", u, 0);
      MatchStartsWithLead(rule, u);
    }
  }

  /** A page with one callout among plain text. */
  function CalloutPage(kind: CalloutKind, p: string, x: string, q: string): string {
    p + OpenTag(kind) + x + "</Callout>" + q
  }

  /** The page with the callout replaced by its Mintlify component. */
  function NotePage(kind: CalloutKind, p: string, x: string, q: string): string {
    p + "<" + Component(kind) + ">" + x + "</" + Component(kind) + ">" + q
  }

  /** Proof helper: a matcher that refuses the opening tag matches nowhere in the callout page. */
  lemma CalloutPageMissed(m: Matcher, lead: string, kind: CalloutKind, p: string, x: string, q: string)
    requires Guarded(m, lead)
    requires PlainPage(p) && PlainPage(x) && PlainPage(q)
    requires m(OpenTag(kind) + (x + ("</Callout>" + q))).None?
    requires kind == ImportantCallout ==> m("important\">" + (x + ("</Callout>" + q))).None?
    ensures MissesRange(m, CalloutPage(kind, p, x, q), 0, |CalloutPage(kind, p, x, q)|)
  {
    var close := "</Callout>" + q;
    assert q[0..|q|] == q;
    PlainRange(m, lead, q, 0, |q|);
    CalloutNameInert();
    CloseThen(m, lead, "Callout", q);
    assert "</" + "Callout" + ">" + q == close;
    PlainThen(m, lead, x, close);
    OpenTagThen(m, lead, kind, x + close);
    PlainThen(m, lead, p, OpenTag(kind) + (x + close));
    Nested5(p, OpenTag(kind), x, "</Callout>", q);
  }

  /** Proof helper: every rule before the callout's own leaves the page unchanged. */
  lemma CalloutSourceKept(rule: Rule, kind: CalloutKind, p: string, x: string, q: string)
    requires rule == RemoveImport(CalloutImport) || (rule.Callout? && rule.callout != kind)
    requires PlainPage(p) && PlainPage(x) && PlainPage(q)
    ensures Replace(rule, CalloutPage(kind, p, x, q)) == CalloutPage(kind, p, x, q)
  {
    var t := x + ("</Callout>" + q);
    RuleGuarded(rule);
    OpenTagRefused(rule, kind, t);
    RuleRefuses(rule, OpenTag(kind) + t);
    ImportantRefused(rule, t);
    RuleRefuses(rule, "important\">" + t);
    CalloutPageMissed(RuleMatcher(rule), Lead(rule), kind, p, x, q);
    MissesEverywhere(rule, CalloutPage(kind, p, x, q));
  }

  /** Proof helper: the callout's own rule replaces the callout and nothing else. */
  lemma CalloutReplaced(kind: CalloutKind, p: string, x: string, q: string)
    requires PlainPage(p) && PlainPage(x) && PlainPage(q)
    ensures Replace(Callout(kind), CalloutPage(kind, p, x, q)) == NotePage(kind, p, x, q)
  {
    PlainHasNoTag("</Callout>", x);
    CalloutReplacedFrom(kind, p, x, q);
  }

  /** Proof helper: `CalloutReplaced` once the body is known to hold no closing tag. */
  lemma CalloutReplacedFrom(kind: CalloutKind, p: string, x: string, q: string)
    requires PlainPage(p) && Absent("</Callout>", x) && PlainPage(q)
    ensures Replace(Callout(kind), CalloutPage(kind, p, x, q)) == NotePage(kind, p, x, q)
  {
    var name := Component(kind);
    CalloutHit(kind, x, q);
    OpenTagStart(kind);
    ConstructReplaced(Callout(kind), p, OpenTag(kind), x, "</Callout>", q, "<" + name + ">", "</" + name + ">");
    TagsRegrouped(p, "<", name, ">", x, "</", name, ">", q);
  }

  /** Proof helper: an opening tag starts with `<`, which continues no leading literal. */
  lemma OpenTagStart(kind: CalloutKind)
    ensures OpenTag(kind) != [] && OpenTag(kind)[0] == '<' && OpenTag(kind)[0] !in Continuations
  {
  }

  /** Proof helper: the callout's own rule matches the callout, whose body holds no tag. */
  lemma CalloutHit(kind: CalloutKind, x: string, q: string)
    requires Absent("</Callout>", x)
    ensures Match(Callout(kind), OpenTag(kind) + x + "</Callout>" + q)
         == Some(Hit(("<" + Component(kind) + ">") + x + ("</" + Component(kind) + ">"), q))
  {
    var name := Component(kind);
    CalloutConverted(kind, x, q);
    BodyRegrouped("<", name, ">", x, "</", name, ">");
  }

  /**
   * A construct `c` that the rule rewrites to `out`, between plain pieces, is
   * the rule's only match in the page.
   */
  lemma ConstructRewritten(rule: Rule, p: string, c: string, q: string, out: string)
    requires PlainPage(p) && PlainPage(q)
    requires c != [] && c[0] !in Continuations
    requires Match(rule, c + q) == Some(Hit(out, q))
    ensures Replace(rule, p + c + q) == p + out + q
  {
    var m := RuleMatcher(rule);
    RuleGuarded(rule);
    assert (p + (c + q))[0..|p|] == p && (p + (c + q))[|p|] == c[0];
    PlainRange(m, Lead(rule), p + (c + q), 0, |p|);
    assert q[0..|q|] == q;
    PlainRange(m, Lead(rule), q, 0, |q|);
    ReplacesConstruct(m, p, c, q, out);
  }

  /** Proof helper: `ConstructRewritten` for a construct `a + x + b` rewritten to `a' + x + b'`. */
  lemma ConstructReplaced(rule: Rule, p: string, a: string, x: string, b: string, q: string, a': string, b': string)
    requires PlainPage(p) && PlainPage(q)
    requires a != [] && a[0] !in Continuations
    requires Match(rule, a + x + b + q) == Some(Hit(a' + x + b', q))
    ensures Replace(rule, p + a + x + b + q) == p + a' + x + b' + q
  {
    ConstructRewritten(rule, p, a + x + b, q, a' + x + b');
    Regroup(p, a, x, b, q);
    Regroup(p, a', x, b', q);
  }

  /** Proof helper: a tag refused at its first character, with an inert inside, in front of a stretch matched nowhere. */
  lemma RefusedTagThen(m: Matcher, lead: string, tag: string, t: string, d: nat)
    requires Guarded(m, lead)
    requires d < |lead| && d < |tag| && lead[d] != tag[d]
    requires Inert(tag[1..])
    requires MissesRange(m, t, 0, |t|)
    ensures MissesRange(m, tag + t, 0, |tag + t|)
  {
    var u := tag + t;
    assert u[d] == tag[d];
    Mismatch(lead, u, d);
    InertThen(m, lead, tag[1..], t);
    assert u[1..] == tag[1..] + t;
    RefusedThen(m, u);
  }

  /** Proof helper: a body between tags written in three pieces, regrouped. */
  lemma BodyRegrouped(a1: string, a2: string, a3: string, x: string, b1: string, b2: string, b3: string)
    ensures a1 + a2 + a3 + x + b1 + b2 + b3 == (a1 + a2 + a3) + x + (b1 + b2 + b3)
  {
  }

  /** Proof helper: a page of tags written in three pieces, grouped from the right. */
  lemma Nested(p: string, a1: string, a2: string, a3: string, x: string, b1: string, b2: string, b3: string, q: string)
    ensures p + a1 + a2 + a3 + x + b1 + b2 + b3 + q == p + (a1 + a2 + a3 + (x + (b1 + b2 + b3 + q)))
  {
  }

  /** Proof helper: a page of five pieces, grouped from the right. */
  lemma Nested5(p: string, a: string, x: string, b: string, q: string)
    ensures p + a + x + b + q == p + (a + (x + (b + q)))
  {
  }

  /** Proof helper: four pieces, with the middle two taken as one, then the last three. */
  lemma Assoc4(a: string, b: string, c: string, d: string)
    ensures a + (b + c) + d == a + (b + c + d)
  {
  }

  /** Proof helper: tags written in three pieces, regrouped. */
  lemma TagsRegrouped(p: string, a1: string, a2: string, a3: string, x: string, b1: string, b2: string, b3: string, q: string)
    ensures p + a1 + a2 + a3 + x + b1 + b2 + b3 + q == p + (a1 + a2 + a3) + x + (b1 + b2 + b3) + q
  {
  }

  /** Proof helper: a page of five pieces, with the middle three taken as one. */
  lemma Regroup(p: string, a: string, x: string, b: string, q: string)
    ensures p + a + x + b + q == p + (a + x + b) + q
  {
  }

  /** Proof helper: a component's name starts no construct. */
  lemma ComponentInert(kind: CalloutKind)
    ensures Inert(Component(kind) + ">")
  {
  }

  /** Proof helper: a matcher for `<Callout` matches nowhere in the converted page. */
  lemma NotePageMissed(m: Matcher, kind: CalloutKind, p: string, x: string, q: string)
    requires Guarded(m, "<Callout")
    requires PlainPage(p) && PlainPage(x) && PlainPage(q)
    ensures MissesRange(m, NotePage(kind, p, x, q), 0, |NotePage(kind, p, x, q)|)
  {
    var lead := "<Callout";
    var name := Component(kind);
    var close := "</" + name + ">" + q;
    var t := x + close;
    var u := "<" + name + ">" + t;
    assert q[0..|q|] == q;
    PlainRange(m, lead, q, 0, |q|);
    ComponentInert(kind);
    CloseThen(m, lead, name, q);
    PlainThen(m, lead, x, close);
    ComponentTagThen(m, kind, t);
    PlainThen(m, lead, p, u);
    Nested(p, "<", name, ">", x, "</", name, ">", q);
  }

  /** Proof helper: a component's opening tag, which is no callout, in front of a stretch matched nowhere. */
  lemma ComponentTagThen(m: Matcher, kind: CalloutKind, t: string)
    requires Guarded(m, "<Callout")
    requires MissesRange(m, t, 0, |t|)
    ensures MissesRange(m, "<" + Component(kind) + ">" + t, 0, |"<" + Component(kind) + ">" + t|)
  {
    var tag := "<" + Component(kind) + ">";
    ComponentInert(kind);
    assert tag[1..] == Component(kind) + ">";
    RefusedTagThen(m, "<Callout", tag, t, 1);
  }

  /** Proof helper: the Mintlify components hold no `<Callout`, so the later callout rules keep the result. */
  lemma NotePageKept(rule: Rule, kind: CalloutKind, p: string, x: string, q: string)
    requires rule.Callout?
    requires PlainPage(p) && PlainPage(x) && PlainPage(q)
    ensures Replace(rule, NotePage(kind, p, x, q)) == NotePage(kind, p, x, q)
  {
    RuleGuarded(rule);
    assert Lead(rule) == "<Callout";
    NotePageMissed(RuleMatcher(rule), kind, p, x, q);
    MissesEverywhere(rule, NotePage(kind, p, x, q));
  }

  /**
   * The callout step turns a page holding one callout among plain text into
   * the same page with the callout's Mintlify component around the same
   * body: the import rule and the rules for the other kinds change nothing,
   * before or after the callout's own rule runs.
   */
  lemma CalloutPageConverted(kind: CalloutKind, p: string, x: string, q: string)
    requires PlainPage(p) && PlainPage(x) && PlainPage(q)
    ensures ConvertCallouts(p + OpenTag(kind) + x + "</Callout>" + q)
         == p + "<" + Component(kind) + ">" + x + "</" + Component(kind) + ">" + q
  {
    var s := CalloutPage(kind, p, x, q);
    var r := NotePage(kind, p, x, q);
    var k := CalloutSlot(kind);
    CalloutRulesLayout();
    forall j | 0 <= j < k ensures Replace(CalloutRules[j], s) == s {
      CalloutSourceKept(CalloutRules[j], kind, p, x, q);
    }
    CalloutReplaced(kind, p, x, q);
    forall j | k < j < |CalloutRules| ensures Replace(CalloutRules[j], r) == r {
      NotePageKept(CalloutRules[j], kind, p, x, q);
    }
    ChainThrough(CalloutRules, k, s, r);
  }

  // ---------------------------------------------------------------------
  // Tabs
  // ---------------------------------------------------------------------

  /** Proof helper: the insides of the tab tags start no construct. */
  lemma TabTagsInert()
    ensures Inert("Tab>")
    ensures Inert("Tabs>")
    ensures Inert("Tabs items={")
    ensures Inert("}>")
  {
  }

  /** Proof helper: a matcher that refuses `<Tab>` at the `d`th character matches nowhere in a page with one tab. */
  lemma TabPageMissed(m: Matcher, lead: string, p: string, x: string, q: string, d: nat)
    requires Guarded(m, lead)
    requires PlainPage(p) && PlainPage(x) && PlainPage(q)
    requires d < |lead| && d < 5 && lead[d] != "<Tab>"[d]
    ensures MissesRange(m, p + "<Tab>" + x + "</Tab>" + q, 0, |p + "<Tab>" + x + "</Tab>" + q|)
  {
    var close := "</Tab>" + q;
    assert q[0..|q|] == q;
    PlainRange(m, lead, q, 0, |q|);
    TabTagsInert();
    CloseThen(m, lead, "Tab", q);
    assert "</" + "Tab" + ">" + q == close;
    PlainThen(m, lead, x, close);
    assert "<Tab>"[1..] == "Tab>";
    RefusedTagThen(m, lead, "<Tab>", x + close, d);
    PlainThen(m, lead, p, "<Tab>" + (x + close));
    Nested5(p, "<Tab>", x, "</Tab>", q);
  }

  /** Proof helper: the import rule and the `items` rule leave a page with one tab unchanged. */
  lemma TabSourceKept(rule: Rule, p: string, x: string, q: string)
    requires rule == RemoveImport(TabsImport) || rule == TabsItems
    requires PlainPage(p) && PlainPage(x) && PlainPage(q)
    ensures Replace(rule, p + "<Tab>" + x + "</Tab>" + q) == p + "<Tab>" + x + "</Tab>" + q
  {
    RuleGuarded(rule);
    var d := if rule == TabsItems then 4 else 0;
    assert Lead(rule)[d] != "<Tab>"[d];
    TabPageMissed(RuleMatcher(rule), Lead(rule), p, x, q, d);
    MissesEverywhere(rule, p + "<Tab>" + x + "</Tab>" + q);
  }

  /** Proof helper: the tab rule matches a tab whose body holds no `</Tab>`. */
  lemma TabHit(x: string, q: string)
    requires Absent("</Tab>", x)
    ensures Match(TabTitle, "<Tab>" + x + "</Tab>" + q) == Some(Hit("<Tab title=\"" + x + ("\">" + x + "</Tab>"), q))
  {
    TabTitled(x, q);
    TwiceRegrouped("<Tab title=\"", x, "\">", "</Tab>");
  }

  /** Proof helper: a text that holds `x` twice, regrouped after the first `x`. */
  lemma TwiceRegrouped(a: string, x: string, b: string, c: string)
    ensures a + x + b + x + c == a + x + (b + x + c)
  {
  }

  /** Proof helper: a construct's first character, `<`, `!` or `s`, continues no leading literal. */
  lemma StartsNoLiteral(c: string)
    requires c != [] && (c[0] == '<' || c[0] == '!' || c[0] == 's')
    ensures c[0] !in Continuations
  {
  }

  /** Proof helper: a page that holds `x` twice, regrouped after the first `x`. */
  lemma TwicePage(p: string, a: string, x: string, b: string, c: string, q: string)
    ensures p + a + x + (b + x + c) + q == p + a + x + b + x + c + q
  {
  }

  /** Proof helper: the tab rule gives the tab its title and changes nothing else. */
  lemma TabReplaced(p: string, x: string, q: string)
    requires PlainPage(p) && Absent("</Tab>", x) && PlainPage(q)
    ensures Replace(TabTitle, p + "<Tab>" + x + "</Tab>" + q) == p + "<Tab title=\"" + x + "\">" + x + "</Tab>" + q
  {
    TabHit(x, q);
    StartsNoLiteral("<Tab>");
    ConstructReplaced(TabTitle, p, "<Tab>", x, "</Tab>", q, "<Tab title=\"", "\">" + x + "</Tab>");
    TwicePage(p, "<Tab title=\"", x, "\">", "</Tab>", q);
  }

  /**
   * The tabs step gives a tab among plain text its body as title and changes
   * nothing else: the import rule and the `items` rule run first and keep
   * the page, then the tab rule rewrites the tab.
   */
  lemma TabPageTitled(p: string, x: string, q: string)
    requires PlainPage(p) && PlainPage(x) && PlainPage(q)
    ensures ConvertTabs(p + "<Tab>" + x + "</Tab>" + q) == p + "<Tab title=\"" + x + "\">" + x + "</Tab>" + q
  {
    var s := p + "<Tab>" + x + "</Tab>" + q;
    var r := p + "<Tab title=\"" + x + "\">" + x + "</Tab>" + q;
    forall j | 0 <= j < 2 ensures Replace(TabRules[j], s) == s {
      TabSourceKept(TabRules[j], p, x, q);
    }
    PlainHasNoTag("</Tab>", x);
    TabReplaced(p, x, q);
    ChainThrough(TabRules, 2, s, r);
  }

  /** Proof helper: a matcher that refuses `<Tabs items={` at the `d`th character matches nowhere in a page with one tab list. */
  lemma TabsPageMissed(m: Matcher, lead: string, p: string, items: string, q: string, d: nat)
    requires Guarded(m, lead)
    requires PlainPage(p) && PlainPage(items) && PlainPage(q)
    requires d < |lead| && d < 13 && lead[d] != "<Tabs items={"[d]
    ensures MissesRange(m, p + "<Tabs items={" + items + "}>" + q, 0, |p + "<Tabs items={" + items + "}>" + q|)
  {
    var tag := "<Tabs items={";
    var close := "}>" + q;
    assert q[0..|q|] == q;
    PlainRange(m, lead, q, 0, |q|);
    TabTagsInert();
    InertThen(m, lead, "}>", q);
    assert close[0] == '}';
    PlainThen(m, lead, items, close);
    assert tag[1..] == "Tabs items={";
    RefusedTagThen(m, lead, tag, items + close, d);
    StartsNoLiteral(tag + (items + close));
    PlainThen(m, lead, p, tag + (items + close));
    Nested5(p, tag, items, "}>", q);
  }

  /** Proof helper: the `items` rule drops the list of tab names and changes nothing else. */
  lemma TabsItemsReplaced(p: string, items: string, q: string)
    requires PlainPage(p) && PlainPage(q)
    requires items != [] && '}' !in items
    ensures Replace(TabRules[1], p + "<Tabs items={" + items + "}>" + q) == p + "<Tabs>" + q
  {
    var c := "<Tabs items={" + items + "}>";
    TabsItemsDropped(items, q);
    StartsNoLiteral(c);
    ConstructRewritten(TabsItems, p, c, q, "<Tabs>");
    Regroup(p, "<Tabs items={", items, "}>", q);
  }

  /** Proof helper: the tab rule finds no `<Tab>` in `<Tabs>`, so it keeps the page. */
  lemma TabsTitleKept(p: string, q: string)
    requires PlainPage(p) && PlainPage(q)
    ensures Replace(TabRules[2], p + "<Tabs>" + q) == p + "<Tabs>" + q
  {
    var m := RuleMatcher(TabTitle);
    RuleGuarded(TabTitle);
    assert q[0..|q|] == q;
    PlainRange(m, "<Tab>", q, 0, |q|);
    TabTagsInert();
    assert "<Tabs>"[1..] == "Tabs>";
    RefusedTagThen(m, "<Tab>", "<Tabs>", q, 4);
    StartsNoLiteral("<Tabs>" + q);
    PlainThen(m, "<Tab>", p, "<Tabs>" + q);
    assert p + "<Tabs>" + q == p + ("<Tabs>" + q);
    MissesEverywhere(TabTitle, p + "<Tabs>" + q);
  }

  /**
   * The tabs step drops the `items` list of a tab list among plain text and
   * changes nothing else: the import rule keeps the page, the `items` rule
   * drops the list, and the tab rule finds no `<Tab>` in `<Tabs>`.
   */
  lemma TabsPageItemsDropped(p: string, items: string, q: string)
    requires PlainPage(p) && PlainPage(items) && PlainPage(q)
    requires items != [] && '}' !in items
    ensures ConvertTabs(p + "<Tabs items={" + items + "}>" + q) == p + "<Tabs>" + q
  {
    var s := p + "<Tabs items={" + items + "}>" + q;
    var r := p + "<Tabs>" + q;
    TabsImportKept(p, items, q);
    TabsItemsReplaced(p, items, q);
    TabsTitleKept(p, q);
    SecondTabRuleOnly(s, r);
  }

  /** Proof helper: when only the `items` rule changes the page, the tabs step returns its result. */
  lemma SecondTabRuleOnly(s: string, r: string)
    requires Replace(TabRules[0], s) == s
    requires Replace(TabRules[1], s) == r
    requires Replace(TabRules[2], r) == r
    ensures ConvertTabs(s) == r
  {
    ChainThrough(TabRules, 1, s, r);
  }

  /** Proof helper: the import rule finds no `import` in a page with one tab list. */
  lemma TabsImportKept(p: string, items: string, q: string)
    requires PlainPage(p) && PlainPage(items) && PlainPage(q)
    ensures Replace(TabRules[0], p + "<Tabs items={" + items + "}>" + q) == p + "<Tabs items={" + items + "}>" + q
  {
    var rule := RemoveImport(TabsImport);
    RuleGuarded(rule);
    TabsPageMissed(RuleMatcher(rule), "import", p, items, q, 0);
    MissesEverywhere(rule, p + "<Tabs items={" + items + "}>" + q);
  }


  // ---------------------------------------------------------------------
  // Image paths
  // ---------------------------------------------------------------------

  /** Where the image rule of each folder sits in the step's list. */
  function FolderSlot(f: Folder): (k: nat)
    ensures k < 3 && ImageRules[k] == ImagePath(f)
  {
    match f
    case Screenshots => 0
    case Files => 1
    case Static => 2
  }

  /** The image step's list: one image rule per folder, each at its folder's slot, then the `src` rules. */
  lemma ImageRulesLayout()
    ensures forall j | 0 <= j < 3 :: ImageRules[j].ImagePath? && FolderSlot(ImageRules[j].folder) == j
    ensures forall j | 3 <= j < |ImageRules| :: ImageRules[j].SrcPath?
  {
  }

  /** Proof helper: two inert pieces make an inert piece, since an inert character looks only ahead inside its own piece. */
  lemma InertAppend(a: string, b: string)
    requires Inert(a) && Inert(b)
    ensures Inert(a + b)
  {
    var u := a + b;
    forall j | 0 <= j < |u| ensures InertAt(u, j) {
      if j < |a| {
        assert InertAt(a, j);
        assert u[j] == a[j];
        assert j + 1 < |a| ==> u[j + 1] == a[j + 1];
        assert j + 2 < |a| ==> u[j + 2] == a[j + 2];
      } else {
        assert InertAt(b, j - |a|);
        assert u[j] == b[j - |a|];
        assert j + 1 < |u| ==> u[j + 1] == b[j + 1 - |a|];
        assert j + 2 < |u| ==> u[j + 2] == b[j + 2 - |a|];
      }
    }
  }

  /** Proof helper: each folder's name, closed by `/`, starts no construct. */
  lemma FolderNameInert(f: Folder)
    ensures Inert(FolderName(f) + "/")
  {
    match f
    case Screenshots => assert FolderName(f) + "/" == "screenshots/";
    case Files => assert FolderName(f) + "/" == "files/";
    case Static => assert FolderName(f) + "/" == "static/";
  }

  /** Proof helper: the path of each folder starts no construct. */
  lemma FolderPathInert(f: Folder)
    ensures Inert("](/" + FolderName(f) + "/")
  {
    FolderNameInert(f);
    PathPrefixesInert();
    InertAppend("](/", FolderName(f) + "/");
    Tail3([], "](/", FolderName(f), "/");
  }

  /** Proof helper: the moved path of each folder starts no construct. */
  lemma MovedPathInert(f: Folder)
    ensures Inert("](/images/" + FolderName(f) + "/")
  {
    FolderNameInert(f);
    PathPrefixesInert();
    InertAppend("](/images/", FolderName(f) + "/");
    Tail3([], "](/images/", FolderName(f), "/");
  }

  /** Proof helper: the path prefixes start no construct. */
  lemma PathPrefixesInert()
    ensures Inert("](/")
    ensures Inert("](/images/")
  {
  }

  /** Proof helper: the `[` of an image starts no construct. */
  lemma BracketInert()
    ensures Inert("[")
  {
  }
  /** Proof helper: the path of one folder is not the path of another. */
  lemma OtherFolderRefused(g: Folder, f: Folder, t: string)
    requires g != f
    ensures !("](/" + FolderName(g) + "/" <= "](/" + FolderName(f) + "/" + t)
  {
    var lit := "](/" + FolderName(g) + "/";
    var u := "](/" + FolderName(f) + "/" + t;
    if FolderName(g)[0] != FolderName(f)[0] {
      assert lit[3] == FolderName(g)[0] && u[3] == FolderName(f)[0];
      Mismatch(lit, u, 3);
    } else {
      assert lit[4] == FolderName(g)[1] && u[4] == FolderName(f)[1];
      Mismatch(lit, u, 4);
    }
  }

  /** Proof helper: no folder's path starts with `/images/`. */
  lemma MovedFolderRefused(g: Folder, f: Folder, t: string)
    ensures !("](/" + FolderName(g) + "/" <= "](/images/" + FolderName(f) + "/" + t)
  {
    var lit := "](/" + FolderName(g) + "/";
    var u := "](/images/" + FolderName(f) + "/" + t;
    assert lit[3] == FolderName(g)[0] && u[3] == 'i';
    Mismatch(lit, u, 3);
  }

  /** Proof helper: an image rule whose path does not follow the alt text, or a `src` rule, refuses the image. */
  lemma ImageRuleRefuses(rule: Rule, alt: string, rest: string)
    requires rule.ImagePath? || rule.SrcPath?
    requires ']' !in alt && rest != [] && rest[0] == ']'
    requires rule.ImagePath? ==> !("](/" + FolderName(rule.folder) + "/" <= rest)
    ensures Match(rule, "![" + (alt + rest)).None?
  {
    var u := "![" + (alt + rest);
    if rule.SrcPath? {
      Mismatch("src=\"/", u, 0);
      MatchStartsWithLead(rule, u);
    } else {
      LitAppend("![", alt + rest);
      SpanRun(Except({']'}), alt, rest);
      assert (alt + rest)[|alt|..] == rest;
    }
  }

  /** Proof helper: a matcher that refuses the image matches nowhere in a page with one image. */
  lemma ImagePageMissed(m: Matcher, lead: string, p: string, alt: string, path: string, q: string)
    requires Guarded(m, lead)
    requires PlainPage(p) && PlainPage(alt) && PlainPage(q)
    requires Inert(path) && path != [] && path[0] == ']'
    requires m("![" + (alt + (path + q))).None?
    ensures MissesRange(m, p + "![" + alt + path + q, 0, |p + "![" + alt + path + q|)
  {
    var u := "![" + (alt + (path + q));
    assert q[0..|q|] == q;
    PlainRange(m, lead, q, 0, |q|);
    InertThen(m, lead, path, q);
    PlainThen(m, lead, alt, path + q);
    BracketInert();
    InertThen(m, lead, "[", alt + (path + q));
    assert u[1..] == "[" + (alt + (path + q));
    RefusedThen(m, u);
    PlainThen(m, lead, p, u);
    Nested5(p, "![", alt, path, q);
  }

  /** Proof helper: a rule that refuses the image keeps a page with one image. */
  lemma ImagePageKept(rule: Rule, p: string, alt: string, path: string, q: string)
    requires rule.ImagePath? || rule.SrcPath?
    requires PlainPage(p) && PlainPage(alt) && PlainPage(q) && ']' !in alt
    requires Inert(path) && path != [] && path[0] == ']'
    requires rule.ImagePath? ==> !("](/" + FolderName(rule.folder) + "/" <= path + q)
    ensures Replace(rule, p + "![" + alt + path + q) == p + "![" + alt + path + q
  {
    RuleGuarded(rule);
    ImageRuleRefuses(rule, alt, path + q);
    RuleRefuses(rule, "![" + (alt + (path + q)));
    ImagePageMissed(RuleMatcher(rule), Lead(rule), p, alt, path, q);
    MissesEverywhere(rule, p + "![" + alt + path + q);
  }

  /** A page with one image, whose alt text is followed by `path`. */
  function ImagePage(p: string, alt: string, path: string, q: string): string {
    p + "![" + alt + path + q
  }

  /** Proof helper: the image rule of the folder moves the path under `/images` and changes nothing else. */
  lemma ImageReplaced(f: Folder, p: string, alt: string, q: string)
    requires PlainPage(p) && PlainPage(q) && ']' !in alt
    ensures Replace(ImagePath(f), ImagePage(p, alt, "](/" + FolderName(f) + "/", q))
         == ImagePage(p, alt, "](/images/" + FolderName(f) + "/", q)
  {
    var name := FolderName(f);
    ImageMoved(f, alt, q);
    Regroup("![" + alt, "](/", name, "/", q);
    Tail3("![" + alt, "](/images/", name, "/");
    StartsNoLiteral("![");
    ConstructReplaced(ImagePath(f), p, "![", alt, "](/" + name + "/", q, "![", "](/images/" + name + "/");
  }

  /** Proof helper: three pieces after a text, taken as one. */
  lemma Tail3(a: string, b1: string, b2: string, b3: string)
    ensures a + b1 + b2 + b3 == a + (b1 + b2 + b3)
  {
  }

  /** Proof helper: the image rules of the folders before the image's own refuse its path. */
  lemma ImageSourceKept(rule: Rule, f: Folder, p: string, alt: string, q: string)
    requires rule.ImagePath? && rule.folder != f
    requires PlainPage(p) && PlainPage(alt) && PlainPage(q) && ']' !in alt
    ensures Replace(rule, ImagePage(p, alt, "](/" + FolderName(f) + "/", q)) == ImagePage(p, alt, "](/" + FolderName(f) + "/", q)
  {
    FolderPathInert(f);
    OtherFolderRefused(rule.folder, f, q);
    ImagePageKept(rule, p, alt, "](/" + FolderName(f) + "/", q);
  }

  /** Proof helper: no rule of the image step matches the moved path. */
  lemma ImageResultKept(rule: Rule, f: Folder, p: string, alt: string, q: string)
    requires rule.ImagePath? || rule.SrcPath?
    requires PlainPage(p) && PlainPage(alt) && PlainPage(q) && ']' !in alt
    ensures Replace(rule, ImagePage(p, alt, "](/images/" + FolderName(f) + "/", q)) == ImagePage(p, alt, "](/images/" + FolderName(f) + "/", q)
  {
    MovedPathInert(f);
    if rule.ImagePath? {
      MovedFolderRefused(rule.folder, f, q);
    }
    ImagePageKept(rule, p, alt, "](/images/" + FolderName(f) + "/", q);
  }

  /**
   * The image step moves the path of a Markdown image in one of the asset
   * folders under `/images` and changes nothing else: the image rules of the
   * other folders refuse the path before and after, and the `src` rules find
   * no `src` attribute.
   */
  lemma ImagePageMoved(f: Folder, p: string, alt: string, q: string)
    requires PlainPage(p) && PlainPage(alt) && PlainPage(q) && ']' !in alt
    ensures AdjustImagePaths(p + "![" + alt + "](/" + FolderName(f) + "/" + q)
         == p + "![" + alt + "](/images/" + FolderName(f) + "/" + q
  {
    var s := ImagePage(p, alt, "](/" + FolderName(f) + "/", q);
    var r := ImagePage(p, alt, "](/images/" + FolderName(f) + "/", q);
    var k := FolderSlot(f);
    ImageRulesLayout();
    forall j | 0 <= j < k ensures Replace(ImageRules[j], s) == s {
      ImageSourceKept(ImageRules[j], f, p, alt, q);
    }
    ImageReplaced(f, p, alt, q);
    forall j | k < j < |ImageRules| ensures Replace(ImageRules[j], r) == r {
      ImageResultKept(ImageRules[j], f, p, alt, q);
    }
    ChainThrough(ImageRules, k, s, r);
    Regroup(p + "![" + alt, "](/", FolderName(f), "/", q);
    Regroup(p + "![" + alt, "](/images/", FolderName(f), "/", q);
  }

  // ---------------------------------------------------------------------
  // Source paths
  // ---------------------------------------------------------------------

  /** Where the `src` rule of a folder other than `static` sits in the step's list. */
  function SrcSlot(f: Folder): (k: nat)
    requires f != Static
    ensures 3 <= k < |ImageRules| && ImageRules[k] == SrcPath(f)
  {
    match f
    case Screenshots => 3
    case Files => 4
  }

  /** A page with one `src` attribute whose path, after `src="/`, is `path`. */
  function SrcPage(p: string, path: string, q: string): string {
    p + "src=\"/" + path + q
  }

  /** Proof helper: the `src` attribute after its `s` starts no construct. */
  lemma SrcAttributeInert()
    ensures Inert("rc=\"/")
    ensures Inert("images/")
  {
  }

  /** Proof helper: a path of one folder, or a moved path, after `src="/` starts no construct. */
  lemma SrcPathsInert(f: Folder)
    ensures Inert(FolderName(f) + "/")
    ensures Inert("images/" + FolderName(f) + "/")
  {
    FolderNameInert(f);
    SrcAttributeInert();
    InertAppend("images/", FolderName(f) + "/");
    Tail3([], "images/", FolderName(f), "/");
  }

  /** Proof helper: the `src` rule of one folder refuses the path of another. */
  lemma SrcFolderRefused(g: Folder, f: Folder, t: string)
    requires g != f
    ensures !("src=\"/" + FolderName(g) + "/" <= "src=\"/" + (FolderName(f) + "/" + t))
  {
    var lit := "src=\"/" + FolderName(g) + "/";
    var u := "src=\"/" + (FolderName(f) + "/" + t);
    if FolderName(g)[0] != FolderName(f)[0] {
      assert lit[6] == FolderName(g)[0] && u[6] == FolderName(f)[0];
      Mismatch(lit, u, 6);
    } else {
      assert lit[7] == FolderName(g)[1] && u[7] == FolderName(f)[1];
      Mismatch(lit, u, 7);
    }
  }

  /** Proof helper: no `src` rule matches a moved path. */
  lemma SrcMovedRefused(g: Folder, f: Folder, t: string)
    ensures !("src=\"/" + FolderName(g) + "/" <= "src=\"/" + ("images/" + FolderName(f) + "/" + t))
  {
    var lit := "src=\"/" + FolderName(g) + "/";
    var u := "src=\"/" + ("images/" + FolderName(f) + "/" + t);
    assert lit[6] == FolderName(g)[0] && u[6] == 'i';
    Mismatch(lit, u, 6);
  }

  /** Proof helper: an image rule, or a `src` rule whose literal is not there, refuses the attribute. */
  lemma SrcRuleRefuses(rule: Rule, path: string, t: string)
    requires rule.ImagePath? || rule.SrcPath?
    requires rule.SrcPath? ==> !("src=\"/" + FolderName(rule.folder) + "/" <= "src=\"/" + (path + t))
    ensures Match(rule, "src=\"/" + (path + t)).None?
  {
    var u := "src=\"/" + (path + t);
    if rule.ImagePath? {
      Mismatch("![", u, 0);
      MatchStartsWithLead(rule, u);
    }
  }

  /** Proof helper: a matcher that refuses the attribute matches nowhere in a page with one `src` attribute. */
  lemma SrcPageMissed(m: Matcher, lead: string, p: string, path: string, q: string)
    requires Guarded(m, lead)
    requires PlainPage(p) && PlainPage(q) && Inert(path)
    requires m("src=\"/" + (path + q)).None?
    ensures MissesRange(m, SrcPage(p, path, q), 0, |SrcPage(p, path, q)|)
  {
    var u := "src=\"/" + (path + q);
    assert q[0..|q|] == q;
    PlainRange(m, lead, q, 0, |q|);
    InertThen(m, lead, path, q);
    SrcAttributeInert();
    InertThen(m, lead, "rc=\"/", path + q);
    assert u[1..] == "rc=\"/" + (path + q);
    RefusedThen(m, u);
    StartsNoLiteral(u);
    PlainThen(m, lead, p, u);
    Nested4(p, "src=\"/", path, q);
  }

  /** Proof helper: a page of four pieces, grouped from the right. */
  lemma Nested4(p: string, a: string, x: string, q: string)
    ensures p + a + x + q == p + (a + (x + q))
  {
  }

  /** Proof helper: a rule that refuses the attribute keeps a page with one `src` attribute. */
  lemma SrcPageKept(rule: Rule, p: string, path: string, q: string)
    requires rule.ImagePath? || rule.SrcPath?
    requires PlainPage(p) && PlainPage(q) && Inert(path)
    requires rule.SrcPath? ==> !("src=\"/" + FolderName(rule.folder) + "/" <= "src=\"/" + (path + q))
    ensures Replace(rule, SrcPage(p, path, q)) == SrcPage(p, path, q)
  {
    RuleGuarded(rule);
    SrcRuleRefuses(rule, path, q);
    RuleRefuses(rule, "src=\"/" + (path + q));
    SrcPageMissed(RuleMatcher(rule), Lead(rule), p, path, q);
    MissesEverywhere(rule, SrcPage(p, path, q));
  }

  /** Proof helper: the rules before the folder's own `src` rule refuse its path. */
  lemma SrcSourceKept(rule: Rule, f: Folder, p: string, q: string)
    requires rule.ImagePath? || (rule.SrcPath? && rule.folder != f)
    requires PlainPage(p) && PlainPage(q)
    ensures Replace(rule, SrcPage(p, FolderName(f) + "/", q)) == SrcPage(p, FolderName(f) + "/", q)
  {
    SrcPathsInert(f);
    if rule.SrcPath? {
      SrcFolderRefused(rule.folder, f, q);
    }
    SrcPageKept(rule, p, FolderName(f) + "/", q);
  }

  /** Proof helper: no rule of the image step matches a moved `src` path. */
  lemma SrcResultKept(rule: Rule, f: Folder, p: string, q: string)
    requires rule.ImagePath? || rule.SrcPath?
    requires PlainPage(p) && PlainPage(q)
    ensures Replace(rule, SrcPage(p, "images/" + FolderName(f) + "/", q)) == SrcPage(p, "images/" + FolderName(f) + "/", q)
  {
    SrcPathsInert(f);
    if rule.SrcPath? {
      SrcMovedRefused(rule.folder, f, q);
    }
    SrcPageKept(rule, p, "images/" + FolderName(f) + "/", q);
  }

  /** Proof helper: the folder's `src` rule moves the path under `/images` and changes nothing else. */
  lemma SrcReplaced(f: Folder, p: string, q: string)
    requires PlainPage(p) && PlainPage(q)
    ensures Replace(SrcPath(f), SrcPage(p, FolderName(f) + "/", q)) == SrcPage(p, "images/" + FolderName(f) + "/", q)
  {
    var c := "src=\"/" + FolderName(f) + "/";
    var out := "src=\"/images/" + FolderName(f) + "/";
    SourceMoved(f, q);
    StartsNoLiteral(c);
    ConstructRewritten(SrcPath(f), p, c, q, out);
    SrcRegrouped(p, FolderName(f), q);
  }

  /** Proof helper: the attribute and the moved attribute taken as one, regrouped. */
  lemma SrcRegrouped(p: string, name: string, q: string)
    ensures p + ("src=\"/" + name + "/") + q == SrcPage(p, name + "/", q)
    ensures p + ("src=\"/images/" + name + "/") + q == SrcPage(p, "images/" + name + "/", q)
  {
  }

  /** Proof helper: the attribute and the moved attribute written out, regrouped. */
  lemma SrcPageForm(p: string, name: string, q: string)
    ensures p + "src=\"/" + name + "/" + q == SrcPage(p, name + "/", q)
    ensures p + "src=\"/images/" + name + "/" + q == SrcPage(p, "images/" + name + "/", q)
  {
  }

  /** Proof helper: a `src` path into `/static/`, regrouped. */
  lemma StaticPageForm(p: string, q: string)
    ensures p + "src=\"/static/" + q == SrcPage(p, FolderName(Static) + "/", q)
  {
  }

  /**
   * The image step moves an HTML `src` path into the screenshots or files
   * folder under `/images` and changes nothing else: the image rules find no
   * image, and the other folder's `src` rule refuses the path before and after.
   */
  lemma SrcPageMoved(f: Folder, p: string, q: string)
    requires f != Static
    requires PlainPage(p) && PlainPage(q)
    ensures AdjustImagePaths(p + "src=\"/" + FolderName(f) + "/" + q) == p + "src=\"/images/" + FolderName(f) + "/" + q
  {
    var s := SrcPage(p, FolderName(f) + "/", q);
    var r := SrcPage(p, "images/" + FolderName(f) + "/", q);
    var k := SrcSlot(f);
    ImageRulesLayout();
    forall j | 0 <= j < k ensures Replace(ImageRules[j], s) == s {
      SrcSourceKept(ImageRules[j], f, p, q);
    }
    SrcReplaced(f, p, q);
    forall j | k < j < |ImageRules| ensures Replace(ImageRules[j], r) == r {
      SrcResultKept(ImageRules[j], f, p, q);
    }
    ChainThrough(ImageRules, k, s, r);
    SrcPageForm(p, FolderName(f), q);
  }

  /** The image step keeps a `src` path into `/static/`, which no `src` rule covers. */
  lemma StaticSrcPageKept(p: string, q: string)
    requires PlainPage(p) && PlainPage(q)
    ensures AdjustImagePaths(p + "src=\"/static/" + q) == p + "src=\"/static/" + q
  {
    var s := SrcPage(p, FolderName(Static) + "/", q);
    ImageRulesLayout();
    forall j | 0 <= j < |ImageRules| ensures Replace(ImageRules[j], s) == s {
      SrcSourceKept(ImageRules[j], Static, p, q);
    }
    ChainKeeps(ImageRules, s);
    StaticPageForm(p, q);
  }

  // ---------------------------------------------------------------------
  // Custom components
  // ---------------------------------------------------------------------

  /** The custom-component step's list: three import rules, then the prompt variable rule, then the video rule. */
  lemma CustomImportRulesLayout()
    ensures forall j | 0 <= j < 3 :: CustomImportRules[j].RemoveImport?
    ensures CustomImportRules[3] == PromptVarTag && CustomImportRules[4] == VideoTag
  {
  }

  /** Proof helper: the pieces of the prompt variable and video tags start no construct. */
  lemma CustomTagsInert()
    ensures Inert("PromptVar>")
    ensures Inert("Video")
    ensures Inert("Video>")
    ensures Inert(">")
    ensures Inert("`{{?")
    ensures Inert("}}`")
  {
  }

  /** Proof helper: a plain piece holds no `<`. */
  lemma PlainHasNoOpen(x: string)
    requires PlainPage(x)
    ensures '<' !in x
  {
    forall i | 0 <= i < |x| ensures x[i] != '<' {
      assert PlainAt(x[i..]);
    }
  }

  /** Proof helper: an import rule refuses a page with one prompt variable. */
  lemma PromptVarSourceKept(rule: Rule, p: string, name: string, q: string)
    requires rule.RemoveImport?
    requires PlainPage(p) && PlainPage(name) && PlainPage(q)
    ensures Replace(rule, p + "<PromptVar>" + name + "</PromptVar>" + q) == p + "<PromptVar>" + name + "</PromptVar>" + q
  {
    var m := RuleMatcher(rule);
    var tag := "<PromptVar>";
    var close := "</PromptVar>" + q;
    RuleGuarded(rule);
    assert q[0..|q|] == q;
    PlainRange(m, "import", q, 0, |q|);
    CustomTagsInert();
    CloseThen(m, "import", "PromptVar", q);
    assert "</" + "PromptVar" + ">" + q == close;
    PlainThen(m, "import", name, close);
    assert tag[1..] == "PromptVar>";
    RefusedTagThen(m, "import", tag, name + close, 0);
    StartsNoLiteral(tag + (name + close));
    PlainThen(m, "import", p, tag + (name + close));
    Nested5(p, tag, name, "</PromptVar>", q);
    MissesEverywhere(rule, p + tag + name + "</PromptVar>" + q);
  }

  /** Proof helper: the prompt variable rule inlines the variable and changes nothing else. */
  lemma PromptVarReplaced(p: string, name: string, q: string)
    requires PlainPage(p) && PlainPage(q)
    requires name != [] && '<' !in name
    ensures Replace(PromptVarTag, p + "<PromptVar>" + name + "</PromptVar>" + q) == p + "`{{?" + name + "}}`" + q
  {
    PromptVarInlined(name, q);
    StartsNoLiteral("<PromptVar>");
    ConstructReplaced(PromptVarTag, p, "<PromptVar>", name, "</PromptVar>", q, "`{{?", "}}`");
  }

  /** Proof helper: the video rule finds no tag in the inlined variable. */
  lemma InlinedVariableKept(p: string, name: string, q: string)
    requires PlainPage(p) && PlainPage(name) && PlainPage(q)
    ensures Replace(VideoTag, p + "`{{?" + name + "}}`" + q) == p + "`{{?" + name + "}}`" + q
  {
    var m := RuleMatcher(VideoTag);
    var lead := "<Video";
    RuleGuarded(VideoTag);
    assert q[0..|q|] == q;
    PlainRange(m, lead, q, 0, |q|);
    CustomTagsInert();
    InertThen(m, lead, "}}`", q);
    BacktickStart("}}`" + q);
    PlainThen(m, lead, name, "}}`" + q);
    InertThen(m, lead, "`{{?", name + ("}}`" + q));
    BacktickStart("`{{?" + (name + ("}}`" + q)));
    PlainThen(m, lead, p, "`{{?" + (name + ("}}`" + q)));
    Nested5(p, "`{{?", name, "}}`", q);
    MissesEverywhere(VideoTag, p + "`{{?" + name + "}}`" + q);
  }

  /** Proof helper: a backquote or a brace continues no leading literal. */
  lemma BacktickStart(c: string)
    requires c != [] && (c[0] == '`' || c[0] == '}')
    ensures c[0] !in Continuations
  {
  }

  /**
   * The custom-component step turns a prompt variable among plain text into
   * inline code showing the variable in double braces and changes nothing
   * else: the import rules find no `import`, and the video rule finds no
   * video in the result.
   */
  lemma PromptVarPageInlined(p: string, name: string, q: string)
    requires PlainPage(p) && PlainPage(name) && PlainPage(q)
    requires name != []
    ensures RemoveCustomImports(p + "<PromptVar>" + name + "</PromptVar>" + q) == p + "`{{?" + name + "}}`" + q
  {
    var s := p + "<PromptVar>" + name + "</PromptVar>" + q;
    var r := p + "`{{?" + name + "}}`" + q;
    CustomImportRulesLayout();
    forall j | 0 <= j < 3 ensures Replace(CustomImportRules[j], s) == s {
      PromptVarSourceKept(CustomImportRules[j], p, name, q);
    }
    PlainHasNoOpen(name);
    PromptVarReplaced(p, name, q);
    InlinedVariableKept(p, name, q);
    ChainThrough(CustomImportRules, 3, s, r);
  }

  /** Nothing starts at the beginning of `u` that opens a tag or an `import`; images and `src` attributes may. */
  predicate QuietAt(u: string) {
    u == [] || (u[0] != '<' && !("import" <= u))
  }

  /** A piece with no tag and no `import`: none of the custom-component step's patterns can match in it. */
  predicate QuietPage(x: string) {
    forall i | 0 <= i < |x| :: QuietAt(x[i..])
  }

  /** Proof helper: an `import` or a tag does not start in a quiet stretch `v` of `u`, when what follows `v` cannot continue it. */
  lemma QuietRefusesLead(lead: string, v: string, u: string)
    requires LeadShape(lead) && (lead[0] == '<' || lead == "import")
    requires v != [] && QuietAt(v) && v <= u
    requires |u| == |v| || u[|v|] !in Continuations
    ensures !(lead <= u)
  {
    assert u[0] == v[0];
    if lead[0] == '<' {
      Mismatch(lead, u, 0);
    } else {
      assert !(lead <= v);
      if |lead| <= |v| {
        assert lead != v[..|lead|];
        var d :| 0 <= d < |lead| && lead[d] != v[..|lead|][d];
        assert u[d] == v[d];
        Mismatch(lead, u, d);
      } else if v == lead[..|v|] {
        ContinuesLead(lead, |v|);
        Mismatch(lead, u, |v|);
      } else {
        var d :| 0 <= d < |v| && v[d] != lead[..|v|][d];
        assert u[d] == v[d];
        Mismatch(lead, u, d);
      }
    }
  }

  /** A quiet piece in front of a stretch matched nowhere, for a matcher of a tag or an `import`. */
  lemma QuietThen(m: Matcher, lead: string, a: string, t: string)
    requires Guarded(m, lead) && (lead[0] == '<' || lead == "import")
    requires QuietPage(a)
    requires t == [] || t[0] !in Continuations
    requires MissesRange(m, t, 0, |t|)
    ensures MissesRange(m, a + t, 0, |a + t|)
  {
    var s := a + t;
    forall i | 0 <= i < |a| ensures m(s[i..]).None? {
      var v := a[i..];
      assert QuietAt(v);
      assert v <= s[i..];
      assert |s[i..]| == |v| || s[i..][|v|] == t[0];
      QuietRefusesLead(lead, v, s[i..]);
    }
    Glue(m, a, t);
  }

  /** A page with one video element among plain text. */
  function VideoPage(p: string, attrs: string, x: string, q: string): string {
    p + "<Video" + attrs + ">" + x + "</Video>" + q
  }

  /** Proof helper: a page with one video element, grouped from the right. */
  lemma VideoPageNested(p: string, attrs: string, x: string, q: string)
    ensures VideoPage(p, attrs, x, q) == p + ("<Video" + (attrs + (">" + (x + ("</Video>" + q)))))
  {
  }

  /** Proof helper: a matcher of a tag or an `import` that refuses `<Video` at the `d`th character matches nowhere in a page with one video. */
  lemma VideoPageMissed(m: Matcher, lead: string, p: string, attrs: string, x: string, q: string, d: nat)
    requires Guarded(m, lead) && (lead[0] == '<' || lead == "import")
    requires PlainPage(p) && QuietPage(attrs) && PlainPage(x) && PlainPage(q)
    requires d < |lead| && d < 6 && lead[d] != "<Video"[d]
    ensures MissesRange(m, VideoPage(p, attrs, x, q), 0, |VideoPage(p, attrs, x, q)|)
  {
    var close := "</Video>" + q;
    var body := x + close;
    assert q[0..|q|] == q;
    PlainRange(m, lead, q, 0, |q|);
    CustomTagsInert();
    CloseThen(m, lead, "Video", q);
    assert "</" + "Video" + ">" + q == close;
    PlainThen(m, lead, x, close);
    InertThen(m, lead, ">", body);
    QuietThen(m, lead, attrs, ">" + body);
    assert "<Video"[1..] == "Video";
    RefusedTagThen(m, lead, "<Video", attrs + (">" + body), d);
    StartsNoLiteral("<Video" + (attrs + (">" + body)));
    PlainThen(m, lead, p, "<Video" + (attrs + (">" + body)));
    VideoPageNested(p, attrs, x, q);
  }

  /** Proof helper: the import rules and the prompt variable rule refuse a page with one video. */
  lemma VideoSourceKept(rule: Rule, p: string, attrs: string, x: string, q: string)
    requires rule.RemoveImport? || rule == PromptVarTag
    requires PlainPage(p) && QuietPage(attrs) && PlainPage(x) && PlainPage(q)
    ensures Replace(rule, VideoPage(p, attrs, x, q)) == VideoPage(p, attrs, x, q)
  {
    RuleGuarded(rule);
    var d := if rule == PromptVarTag then 1 else 0;
    assert Lead(rule)[d] != "<Video"[d];
    VideoPageMissed(RuleMatcher(rule), Lead(rule), p, attrs, x, q, d);
    MissesEverywhere(rule, VideoPage(p, attrs, x, q));
  }

  /** Proof helper: the video rule deletes the video and changes nothing else. */
  lemma VideoReplaced(p: string, attrs: string, x: string, q: string)
    requires PlainPage(p) && PlainPage(q)
    requires '>' !in attrs && Absent("</Video>", x)
    ensures Replace(VideoTag, VideoPage(p, attrs, x, q)) == p + q
  {
    var c := "<Video" + attrs + ">" + x + "</Video>";
    VideoRemoved(attrs, x, q);
    VideoStart(attrs, x);
    ConstructRewritten(VideoTag, p, c, q, []);
    VideoPageGrouped(p, attrs, x, q);
  }

  /** Proof helper: a video element starts with `<`, which continues no leading literal. */
  lemma VideoStart(attrs: string, x: string)
    ensures var c := "<Video" + attrs + ">" + x + "</Video>"; c != [] && c[0] !in Continuations
  {
    var c := "<Video" + attrs + ">" + x + "</Video>";
    assert c[0] == '<';
  }

  /** Proof helper: a page with one video element, with the element taken as one. */
  lemma VideoPageGrouped(p: string, attrs: string, x: string, q: string)
    ensures VideoPage(p, attrs, x, q) == p + ("<Video" + attrs + ">" + x + "</Video>") + q
    ensures p + [] + q == p + q
  {
  }

  /**
   * The custom-component step deletes a video element, attributes and body
   * alike, among plain text and changes nothing else: the import rules and
   * the prompt variable rule find nothing to match before it.
   */
  lemma VideoPageRemoved(p: string, attrs: string, x: string, q: string)
    requires PlainPage(p) && PlainPage(x) && PlainPage(q)
    requires QuietPage(attrs) && '>' !in attrs
    ensures RemoveCustomImports(p + "<Video" + attrs + ">" + x + "</Video>" + q) == p + q
  {
    var s := VideoPage(p, attrs, x, q);
    CustomImportRulesLayout();
    forall j | 0 <= j < 4 ensures Replace(CustomImportRules[j], s) == s {
      VideoSourceKept(CustomImportRules[j], p, attrs, x, q);
    }
    PlainHasNoTag("</Video>", x);
    VideoReplaced(p, attrs, x, q);
    ChainThrough(CustomImportRules, 4, s, p + q);
  }
}
